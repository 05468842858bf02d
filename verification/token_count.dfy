/** Local token counts: how a block is serialized, counted, and keyed for a cache. */
module TokenCount {
  import opened Text
  import Decimal

  /** The source of an image: nothing with data, data, or a `data` that has no length. */
  datatype ImageSource = NoData | Data(data: string) | BrokenData

  /** What `JSON.stringify` makes of a tool's input. */
  datatype ToolInput = Json(text: string) | Unserializable

  datatype Item = TextItem(text: Option<string>) | ImageItem | OtherItem(kind: string) | BrokenItem

  datatype Content = Plain(text: string) | Items(items: seq<Item>) | NoContent

  datatype Block =
    | TextBlock(text: Option<string>)
    | ImageBlock(source: ImageSource)
    | ToolUse(name: string, input: Option<ToolInput>)
    | ToolResult(id: string, isError: bool, content: Content)
    | OtherBlock(kind: string)

  function OrEmpty(text: Option<string>): string {
    if text.Some? then text.value else ""
  }

  // ------------------------------------------------------- serializing

  function Prepended(first: seq<string>, rest: Option<seq<string>>): Option<seq<string>> {
    if rest.None? then None else Some(first + rest.value)
  }

  function ToolUseText(name: string, input: Option<ToolInput>): string {
    Join(["Tool: " + name] +
         (match input
          case None => []
          case Some(Json(text)) => ["Arguments: " + text]
          case Some(Unserializable) => ["Arguments: [serialization error]"]),
         "\n")
  }

  function ItemLine(item: Item): string
    requires !item.BrokenItem?
  {
    match item
    case TextItem(text) => OrEmpty(text)
    case ImageItem => "[Image content]"
    case OtherItem(kind) => "[Unsupported content block: " + kind + "]"
  }

  /** The lines of an item list, or nothing if looking at an item throws. */
  function ItemLines(items: seq<Item>): Option<seq<string>> {
    if items == [] then Some([])
    else if items[0].BrokenItem? then None
    else Prepended([ItemLine(items[0])], ItemLines(items[1..]))
  }

  function HeadLines(id: string, isError: bool): seq<string> {
    ["Tool Result (" + id + ")"] + if isError then ["[Error]"] else []
  }

  function ContentLines(content: Content): Option<seq<string>> {
    match content
    case Plain(text) => Some([text])
    case Items(items) => ItemLines(items)
    case NoContent => Some([])
  }

  function ToolResultText(id: string, isError: bool, content: Content): Option<string> {
    match ContentLines(content)
    case None => None
    case Some(lines) => Some(Join(HeadLines(id, isError) + lines, "\n"))
  }

  method SerializeToolResult(id: string, isError: bool, content: Content) returns (r: Option<string>)
    ensures r == ToolResultText(id, isError, content)
  {
    var parts := ["Tool Result (" + id + ")"];
    if isError {
      parts := parts + ["[Error]"];
    }
    assert parts == HeadLines(id, isError);
    match content {
      case Plain(text) => parts := parts + [text];
      case NoContent =>
      case Items(items) =>
        ghost var head, lines := parts, [];
        PrependEnds(ItemLines(items));
        assert items[0..] == items;
        for i := 0 to |items|
          invariant parts == head + lines
          invariant ItemLines(items) == Prepended(lines, ItemLines(items[i..]))
        {
          assert items[i..][1..] == items[i + 1..];
          if items[i].BrokenItem? {
            return None;
          }
          PrependTwice(lines, [ItemLine(items[i])], ItemLines(items[i + 1..]));
          parts, lines := parts + [ItemLine(items[i])], lines + [ItemLine(items[i])];
        }
        assert lines + [] == lines;
    }
    r := Some(Join(parts, "\n"));
    assert HeadLines(id, isError) + [] == HeadLines(id, isError);
  }

  lemma PrependTwice(first: seq<string>, second: seq<string>, rest: Option<seq<string>>)
    ensures Prepended(first, Prepended(second, rest)) == Prepended(first + second, rest)
  {
    if rest.Some? {
      assert first + (second + rest.value) == first + second + rest.value;
    }
  }

  lemma PrependEnds(rest: Option<seq<string>>)
    ensures Prepended([], rest) == rest
  {
    if rest.Some? {
      assert [] + rest.value == rest.value;
    }
  }

  // ------------------------------------------------------- counting

  /** The smallest number whose square is at least `n`. */
  function CeilSqrt(n: nat): (r: nat)
    ensures r * r >= n
    ensures r == 0 || (r - 1) * (r - 1) < n
  {
    if n == 0 then 0
    else
      var q := CeilSqrt(n - 1);
      if q * q >= n then q else q + 1
  }

  function EncodedLength(encode: string -> nat, text: string): nat {
    if text != "" then encode(text) else 0
  }

  /** The raw count of a block; `None` where the source throws. */
  function RawTokens(encode: string -> nat, block: Block): Option<nat> {
    match block
    case TextBlock(text) => Some(EncodedLength(encode, OrEmpty(text)))
    case ImageBlock(Data(data)) => Some(CeilSqrt(|data|))
    case ImageBlock(NoData) => Some(300)
    case ImageBlock(BrokenData) => None
    case ToolUse(name, input) => Some(EncodedLength(encode, ToolUseText(name, input)))
    case ToolResult(id, isError, content) =>
      (match ToolResultText(id, isError, content)
       case None => None
       case Some(text) => Some(EncodedLength(encode, text)))
    case OtherBlock(_) => Some(0)
  }

  // ------------------------------------------------------- the counted texts, written out

  /** A tool use is counted with its name and its whole input. */
  lemma ToolUseIsCounted(encode: string -> nat, name: string, json: string)
    ensures RawTokens(encode, ToolUse(name, Some(Json(json)))) == Some(encode("Tool: " + name + "\nArguments: " + json))
    ensures RawTokens(encode, ToolUse(name, Some(Unserializable))) == Some(encode("Tool: " + name + "\nArguments: [serialization error]"))
    ensures RawTokens(encode, ToolUse(name, None)) == Some(encode("Tool: " + name))
  {
    JoinTwo("Tool: " + name, "Arguments: " + json, "\n");
    JoinTwo("Tool: " + name, "Arguments: [serialization error]", "\n");
    assert ["Tool: " + name] + [] == ["Tool: " + name];
    assert "Tool: " + name + "\n" + ("Arguments: " + json) == "Tool: " + name + "\nArguments: " + json;
    assert "Tool: " + name + "\n" + "Arguments: [serialization error]" == "Tool: " + name + "\nArguments: [serialization error]";
  }

  lemma JoinTwo(a: string, b: string, separator: string)
    ensures Join([a] + [b], separator) == a + separator + b
  {
    assert ([a] + [b])[..1] == [a];
  }

  /** Two inputs of the same tool are counted by different texts. */
  lemma InputsAreToldApart(name: string, a: string, b: string)
    requires a != b
    ensures ToolUseText(name, Some(Json(a))) != ToolUseText(name, Some(Json(b)))
  {
    var front := "Tool: " + name + "\nArguments: ";
    JoinTwo("Tool: " + name, "Arguments: " + a, "\n");
    JoinTwo("Tool: " + name, "Arguments: " + b, "\n");
    assert ToolUseText(name, Some(Json(a))) == front + a && ToolUseText(name, Some(Json(b))) == front + b;
    assert (front + a)[|front|..] == a && (front + b)[|front|..] == b;
  }

  /** The head of a tool result: its call, and whether it failed. */
  function ResultHead(id: string, isError: bool): string {
    "Tool Result (" + id + ")" + if isError then "\n[Error]" else ""
  }

  lemma HeadIsJoined(id: string, isError: bool)
    ensures Join(HeadLines(id, isError), "\n") == ResultHead(id, isError)
  {
    if isError {
      JoinTwo("Tool Result (" + id + ")", "[Error]", "\n");
      assert "Tool Result (" + id + ")" + "\n" + "[Error]" == "Tool Result (" + id + ")" + "\n[Error]";
    } else {
      assert HeadLines(id, isError) == ["Tool Result (" + id + ")"];
      assert ResultHead(id, isError) == "Tool Result (" + id + ")";
    }
  }

  lemma JoinSnoc(parts: seq<string>, last: string, separator: string)
    requires parts != []
    ensures Join(parts + [last], separator) == Join(parts, separator) + separator + last
  {
    assert (parts + [last])[..|parts|] == parts;
  }

  /** A text result is its head and the text; a result without content just its head. */
  lemma TextResultIsCounted(encode: string -> nat, id: string, isError: bool, text: string)
    ensures RawTokens(encode, ToolResult(id, isError, Plain(text))) == Some(encode(ResultHead(id, isError) + "\n" + text))
    ensures RawTokens(encode, ToolResult(id, isError, NoContent)) == Some(encode(ResultHead(id, isError)))
    ensures RawTokens(encode, ToolResult(id, isError, Items([]))) == Some(encode(ResultHead(id, isError)))
  {
    HeadIsJoined(id, isError);
    JoinSnoc(HeadLines(id, isError), text, "\n");
    assert HeadLines(id, isError) + [] == HeadLines(id, isError);
  }

  /** Each item of a result adds a line of its own; an item that throws makes the whole count throw. */
  lemma ItemIsCounted(id: string, isError: bool, items: seq<Item>, item: Item)
    ensures var (before, after) := (ToolResultText(id, isError, Items(items)), ToolResultText(id, isError, Items(items + [item])));
            if before.None? then after.None?
            else match item
              case BrokenItem => after.None?
              case TextItem(None) => after == Some(before.value + "\n")
              case TextItem(Some(text)) => after == Some(before.value + "\n" + text)
              case ImageItem => after == Some(before.value + "\n" + "[Image content]")
              case OtherItem(kind) => after == Some(before.value + "\n" + ("[Unsupported content block: " + kind + "]"))
  {
    ItemLinesSnoc(items, item);
    if ItemLines(items).Some? && !item.BrokenItem? {
      var lines := HeadLines(id, isError) + ItemLines(items).value;
      assert HeadLines(id, isError) + (ItemLines(items).value + [ItemLine(item)]) == lines + [ItemLine(item)];
      JoinSnoc(lines, ItemLine(item), "\n");
      assert Join(lines, "\n") + "\n" + "" == Join(lines, "\n") + "\n";
    }
  }

  lemma {:induction false} ItemLinesSnoc(items: seq<Item>, item: Item)
    ensures ItemLines(items + [item]) ==
      if ItemLines(items).None? || item.BrokenItem? then None else Some(ItemLines(items).value + [ItemLine(item)])
  {
    var all := items + [item];
    if items == [] {
      assert all[1..] == [] && all[0] == item;
      if !item.BrokenItem? {
        assert [ItemLine(item)] + [] == [] + [ItemLine(item)];
      }
    } else {
      assert all[1..] == items[1..] + [item];
      if !items[0].BrokenItem? {
        ItemLinesSnoc(items[1..], item);
        if ItemLines(items[1..]).Some? && !item.BrokenItem? {
          var more := ItemLines(items[1..]).value;
          assert [ItemLine(items[0])] + (more + [ItemLine(item)]) == [ItemLine(items[0])] + more + [ItemLine(item)];
        }
      }
    }
  }

  /** Text is counted as it is, images by the size of their data, and everything else is free. */
  lemma OthersAreCounted(encode: string -> nat, text: string, data: string, kind: string)
    ensures text != "" ==> RawTokens(encode, TextBlock(Some(text))) == Some(encode(text))
    ensures RawTokens(encode, TextBlock(Some(""))) == RawTokens(encode, TextBlock(None)) == Some(0)
    ensures RawTokens(encode, ImageBlock(NoData)) == Some(300) && RawTokens(encode, ImageBlock(BrokenData)).None?
    ensures exists r: nat :: RawTokens(encode, ImageBlock(Data(data))) == Some(r)
                             && r * r >= |data| && (r == 0 || (r - 1) * (r - 1) < |data|)
    ensures RawTokens(encode, OtherBlock(kind)) == Some(0)
  {
    assert RawTokens(encode, ImageBlock(Data(data))) == Some(CeilSqrt(|data|));
  }

  /** One and a half times the count, rounded up. */
  function Fudge(raw: nat): (n: nat)
    ensures 3 * raw <= 2 * n < 3 * raw + 2
  {
    (3 * raw + 1) / 2
  }

  // ------------------------------------------------------- cache keys

  function PartsOf(item: Item): seq<string> {
    match item
    case TextItem(text) => ["text", OrEmpty(text)]
    case ImageItem => ["image"]
    case OtherItem(kind) => ["other", kind]
    case BrokenItem => []
  }

  function ItemParts(items: seq<Item>): Option<seq<string>> {
    if items == [] then Some([])
    else if items[0].BrokenItem? then None
    else Prepended(PartsOf(items[0]), ItemParts(items[1..]))
  }

  function ContentParts(content: Content): Option<seq<string>> {
    match content
    case Plain(text) => Some(["string", text])
    case Items(items) => Prepended(["array"], ItemParts(items))
    case NoContent => Some(["none"])
  }

  /** What a cache keys a block by; `None` where the source throws. */
  function KeyParts(block: Block): Option<seq<string>> {
    match block
    case TextBlock(text) => Some(["text", OrEmpty(text)])
    case ImageBlock(Data(data)) => Some(["image", Decimal.Print(|data|)])
    case ImageBlock(NoData) => Some(["image"])
    case ImageBlock(BrokenData) => None
    case ToolUse(name, input) => Some(["tool_use", ToolUseText(name, input)])
    case ToolResult(id, isError, content) =>
      Prepended(["tool_result", id, if isError then "error" else ""], ContentParts(content))
    case OtherBlock(kind) => Some(["other", kind])
  }

  method ItemsKeyParts(items: seq<Item>) returns (r: Option<seq<string>>)
    ensures r == ItemParts(items)
  {
    var parts: seq<string> := [];
    PrependEnds(ItemParts(items));
    assert items[0..] == items;
    for i := 0 to |items|
      invariant ItemParts(items) == Prepended(parts, ItemParts(items[i..]))
    {
      assert items[i..][1..] == items[i + 1..];
      PrependTwice(parts, PartsOf(items[i]), ItemParts(items[i + 1..]));
      match items[i] {
        case TextItem(text) => parts := parts + ["text", OrEmpty(text)];
        case ImageItem => parts := parts + ["image"];
        case OtherItem(kind) => parts := parts + ["other", kind];
        case BrokenItem => return None;
      }
    }
    assert parts + [] == parts;
    r := Some(parts);
  }

  method BlockCountKeyParts(block: Block) returns (r: Option<seq<string>>)
    ensures r == KeyParts(block)
  {
    match block
    case TextBlock(text) => return Some(["text", OrEmpty(text)]);
    case ImageBlock(source) =>
      match source {
        case Data(data) => return Some(["image", Decimal.Print(|data|)]);
        case NoData => return Some(["image"]);
        case BrokenData => return None;
      }
    case ToolUse(name, input) => return Some(["tool_use", ToolUseText(name, input)]);
    case OtherBlock(kind) => return Some(["other", kind]);
    case ToolResult(id, isError, content) =>
      var parts := ["tool_result", id, if isError then "error" else ""];
      match content {
        case Plain(text) => return Some(parts + ["string", text]);
        case NoContent => return Some(parts + ["none"]);
        case Items(items) =>
          var added := ItemsKeyParts(items);
          return Prepended(parts, Prepended(["array"], added));
      }
  }

  // ------------------------------------------------------- a key determines the count

  /** The lines of an item list, read off its key parts. */
  function LinesFromParts(parts: seq<string>): seq<string> {
    if parts == [] then []
    else if parts[0] == "image" then ["[Image content]"] + LinesFromParts(parts[1..])
    else if |parts| == 1 then []
    else if parts[0] == "text" then [parts[1]] + LinesFromParts(parts[2..])
    else ["[Unsupported content block: " + parts[1] + "]"] + LinesFromParts(parts[2..])
  }

  function ContentFromParts(parts: seq<string>): seq<string> {
    if parts == [] then []
    else if parts[0] == "array" then LinesFromParts(parts[1..])
    else parts[1..]
  }

  /** The raw count, computed from the key alone. */
  function TokensFromParts(encode: string -> nat, parts: seq<string>): nat {
    if parts == [] then 0
    else if parts[0] == "image" then
      if |parts| > 1 && Decimal.AllDigits(parts[1]) then CeilSqrt(Decimal.Value(parts[1])) else 300
    else if parts[0] == "tool_result" then
      if |parts| < 3 then 0
      else EncodedLength(encode, Join(HeadLines(parts[1], parts[2] == "error") + ContentFromParts(parts[3..]), "\n"))
    else if |parts| > 1 && (parts[0] == "text" || parts[0] == "tool_use") then EncodedLength(encode, parts[1])
    else 0
  }

  lemma ItemFromParts(item: Item, rest: seq<string>)
    requires !item.BrokenItem?
    ensures LinesFromParts(PartsOf(item) + rest) == [ItemLine(item)] + LinesFromParts(rest)
  {
    var parts := PartsOf(item) + rest;
    match item
    case ImageItem => assert parts[1..] == rest;
    case TextItem(_) => assert parts[2..] == rest;
    case OtherItem(_) => assert parts[2..] == rest;
  }

  lemma {:induction false} ItemsFromParts(items: seq<Item>)
    ensures ItemParts(items).Some? <==> ItemLines(items).Some?
    ensures ItemParts(items).Some? ==> ItemLines(items) == Some(LinesFromParts(ItemParts(items).value))
  {
    if items != [] && !items[0].BrokenItem? {
      ItemsFromParts(items[1..]);
      if ItemParts(items[1..]).Some? {
        ItemFromParts(items[0], ItemParts(items[1..]).value);
      }
    }
  }

  lemma LinesOfContent(content: Content)
    ensures ContentParts(content).Some? <==> ContentLines(content).Some?
    ensures ContentParts(content).Some? ==> ContentLines(content) == Some(ContentFromParts(ContentParts(content).value))
  {
    match content
    case Plain(_) =>
    case NoContent => assert ["none"][1..] == [];
    case Items(items) =>
      ItemsFromParts(items);
      if ItemParts(items).Some? {
        assert (["array"] + ItemParts(items).value)[1..] == ItemParts(items).value;
      }
  }

  /**
   A key exists exactly where counting does not throw, and it holds everything the
   count depends on: the serialized text can be rebuilt from the key.
   */
  lemma KeyDeterminesTokens(encode: string -> nat, block: Block)
    ensures KeyParts(block).Some? <==> RawTokens(encode, block).Some?
    ensures KeyParts(block).Some? ==> RawTokens(encode, block) == Some(TokensFromParts(encode, KeyParts(block).value))
  {
    match block
    case ImageBlock(Data(data)) => Decimal.ValuePrint(|data|);
    case ImageBlock(NoData) =>
    case ImageBlock(BrokenData) =>
    case TextBlock(_) =>
    case ToolUse(_, _) =>
    case OtherBlock(_) =>
    case ToolResult(id, isError, content) => ResultFromParts(encode, id, isError, content);
  }

  lemma ResultFromParts(encode: string -> nat, id: string, isError: bool, content: Content)
    ensures var block := ToolResult(id, isError, content);
            && (KeyParts(block).Some? <==> RawTokens(encode, block).Some?)
            && (KeyParts(block).Some? ==> RawTokens(encode, block) == Some(TokensFromParts(encode, KeyParts(block).value)))
  {
    LinesOfContent(content);
    if ContentParts(content).Some? {
      var parts := KeyParts(ToolResult(id, isError, content)).value;
      assert parts[3..] == ContentParts(content).value;
    }
  }

  /** Blocks with equal keys have equal counts, whatever the tokenizer. */
  lemma EqualKeysEqualTokens(encode: string -> nat, a: Block, b: Block)
    requires KeyParts(a) == KeyParts(b)
    ensures RawTokens(encode, a) == RawTokens(encode, b)
  {
    KeyDeterminesTokens(encode, a);
    KeyDeterminesTokens(encode, b);
  }

  // ------------------------------------------------------- whole requests

  function CountOf(counter: Block -> Option<nat>, block: Block): nat {
    if counter(block).Some? then counter(block).value else 0
  }

  predicate AllCounted(counter: Block -> Option<nat>, blocks: seq<Block>) {
    forall i | 0 <= i < |blocks| :: counter(blocks[i]).Some?
  }

  function Total(counter: Block -> Option<nat>, blocks: seq<Block>): nat {
    if blocks == [] then 0 else Total(counter, blocks[..|blocks| - 1]) + CountOf(counter, blocks[|blocks| - 1])
  }

  /** The total counts every block once. */
  lemma {:induction false} TotalOfParts(counter: Block -> Option<nat>, a: seq<Block>, b: seq<Block>)
    ensures Total(counter, a + b) == Total(counter, a) + Total(counter, b)
    ensures forall block | counter(block).Some? :: Total(counter, [block]) == counter(block).value
  {
    if b == [] {
      assert a + b == a;
    } else {
      assert (a + b)[..|a + b| - 1] == a + b[..|b| - 1];
      TotalOfParts(counter, a, b[..|b| - 1]);
    }
    forall block | counter(block).Some? ensures Total(counter, [block]) == counter(block).value {
      assert [block][..0] == [];
    }
  }

  /** The uncached count of a request. */
  method Tiktoken(counter: Block -> Option<nat>, blocks: seq<Block>) returns (r: Option<nat>)
    ensures r == if AllCounted(counter, blocks) then Some(Fudge(Total(counter, blocks))) else None
  {
    if blocks == [] {
      return Some(0);
    }
    var totalTokens := 0;
    for i := 0 to |blocks|
      invariant AllCounted(counter, blocks[..i]) && totalTokens == Total(counter, blocks[..i])
    {
      assert blocks[..i + 1][..i] == blocks[..i];
      var count := counter(blocks[i]);
      if count.None? {
        return None;
      }
      totalTokens := totalTokens + count.value;
    }
    assert blocks[..|blocks|] == blocks;
    r := Some(Fudge(totalTokens));
  }

  /** The factor belongs on the total: applied per block it rounds up each time. */
  lemma FudgeOnce(a: nat, b: nat)
    ensures Fudge(a + b) == Fudge(a) + Fudge(b) - (if a % 2 == 1 && b % 2 == 1 then 1 else 0)
  {
  }
}
