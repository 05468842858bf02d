/** JSON string literals, section 7 of RFC 8259, and the quoting of frontmatter values. */
module Quoting {
  import opened Text

  function HexDigit(d: nat): (c: char)
    requires d < 16
  {
    if d < 10 then '0' + d as char else 'a' + (d - 10) as char
  }

  function HexValue(c: char): (v: Option<nat>)
    ensures v.Some? ==> v.value < 16
  {
    if '0' <= c <= '9' then Some((c - '0') as nat)
    else if 'a' <= c <= 'f' then Some((c - 'a') as nat + 10)
    else if 'A' <= c <= 'F' then Some((c - 'A') as nat + 10)
    else None
  }

  /** One character as `JSON.stringify` writes it. */
  function Escape(c: char): string {
    if c == '"' then "\\\""
    else if c == '\\' then "\\\\"
    else if c == '\U{8}' then "\\b"
    else if c == '\U{C}' then "\\f"
    else if c == '\n' then "\\n"
    else if c == '\r' then "\\r"
    else if c == '\t' then "\\t"
    else if c < ' ' then "\\u00" + [HexDigit(c as nat / 16), HexDigit(c as nat % 16)]
    else [c]
  }

  function EscapeAll(s: string): string {
    if s == "" then "" else Escape(s[0]) + EscapeAll(s[1..])
  }

  function Stringify(s: string): string {
    "\"" + EscapeAll(s) + "\""
  }

  /** The code unit of four hex digits at the front of `s`. */
  function CodeUnit(s: string): (unit: Option<nat>)
    ensures unit.Some? ==> unit.value < 0x10000
  {
    if |s| < 4 then None
    else match (HexValue(s[0]), HexValue(s[1]), HexValue(s[2]), HexValue(s[3]))
      case (Some(a), Some(b), Some(c), Some(d)) => Some(((a * 16 + b) * 16 + c) * 16 + d)
      case _ => None
  }

  /** The character of a `\u` escape and the text behind it; surrogate pairs become one character. */
  function UnicodeEscape(s: string): (r: Option<(char, string)>)
    ensures r.Some? ==> |r.value.1| < |s|
  {
    match CodeUnit(s)
    case None => None
    case Some(unit) =>
      if unit < 0xD800 || 0xE000 <= unit < 0x10000 then Some((unit as char, s[4..]))
      else if unit < 0xDC00 && |s| >= 10 && s[4] == '\\' && s[5] == 'u' then
        match CodeUnit(s[6..])
        case Some(low) =>
          if 0xDC00 <= low < 0xE000 then Some((((unit - 0xD800) * 0x400 + (low - 0xDC00) + 0x10000) as char, s[10..]))
          else None
        case None => None
      else None
  }

  function SimpleEscape(c: char): Option<char> {
    match c
    case '"' => Some('"')
    case '\\' => Some('\\')
    case '/' => Some('/')
    case 'b' => Some('\U{8}')
    case 'f' => Some('\U{C}')
    case 'n' => Some('\n')
    case 'r' => Some('\r')
    case 't' => Some('\t')
    case _ => None
  }

  function Cons(c: char, rest: Option<string>): Option<string> {
    if rest.None? then None else Some([c] + rest.value)
  }

  /** The rest of a string literal, which must end the text. */
  function ParseChars(s: string): Option<string>
    decreases |s|
  {
    if s == "" || s[0] < ' ' then None
    else if s[0] == '"' then (if |s| == 1 then Some("") else None)
    else if s[0] != '\\' then Cons(s[0], ParseChars(s[1..]))
    else if |s| == 1 then None
    else if s[1] == 'u' then
      match UnicodeEscape(s[2..])
      case None => None
      case Some((c, rest)) => Cons(c, ParseChars(rest))
    else
      match SimpleEscape(s[1])
      case None => None
      case Some(c) => Cons(c, ParseChars(s[2..]))
  }

  predicate IsPlain(c: char) {
    IsLetter(c) || IsDigit(c) || c == '.' || c == '_' || c == '/' || c == '-'
  }

  function Quote(value: string): string {
    if value != "" && (forall i | 0 <= i < |value| :: IsPlain(value[i])) then value else Stringify(value)
  }

  function Unquote(value: string): string {
    if value != "" && value[0] == '"' then
      match ParseChars(value[1..])
      case Some(s) => s
      case None => value
    else value
  }

  lemma HexRoundTrip(c: char, rest: string)
    requires c < ' '
    ensures UnicodeEscape("00" + [HexDigit(c as nat / 16), HexDigit(c as nat % 16)] + rest) == Some((c, rest))
  {
    var hi, lo := c as nat / 16, c as nat % 16;
    var s := "00" + [HexDigit(hi), HexDigit(lo)] + rest;
    assert HexValue(HexDigit(hi)) == Some(hi);
    assert HexValue(HexDigit(lo)) == Some(lo);
    assert CodeUnit(s) == Some(hi * 16 + lo);
    assert s[4..] == rest;
  }

  lemma EscapeRoundTrip(c: char, rest: string)
    ensures ParseChars(Escape(c) + rest) == Cons(c, ParseChars(rest))
  {
    var s := Escape(c) + rest;
    if |Escape(c)| == 1 {
      assert s[1..] == rest;
    } else if |Escape(c)| == 2 {
      assert s[2..] == rest;
    } else {
      HexRoundTrip(c, rest);
      assert s[2..] == "00" + [HexDigit(c as nat / 16), HexDigit(c as nat % 16)] + rest;
    }
  }

  lemma {:induction false} ParseEscaped(s: string)
    ensures ParseChars(EscapeAll(s) + "\"") == Some(s)
  {
    if s != "" {
      ParseEscaped(s[1..]);
      EscapeRoundTrip(s[0], EscapeAll(s[1..]) + "\"");
      assert EscapeAll(s) + "\"" == Escape(s[0]) + (EscapeAll(s[1..]) + "\"");
      assert s == [s[0]] + s[1..];
    } else {
      assert EscapeAll(s) + "\"" == "\"";
    }
  }

  /** Unquoting undoes quoting, for every string. */
  lemma UnquoteQuote(value: string)
    ensures Unquote(Quote(value)) == value
  {
    ParseEscaped(value);
    assert Stringify(value)[1..] == EscapeAll(value) + "\"";
  }

  /** The short escapes of RFC 8259, section 7, among them one that printing never uses. */
  lemma {:induction false} ShortEscapes(c: char, rest: string)
    ensures ParseChars(['\\', c] + rest) ==
      match c
      case '"' => Cons('"', ParseChars(rest))
      case '\\' => Cons('\\', ParseChars(rest))
      case '/' => Cons('/', ParseChars(rest))
      case 'b' => Cons('\U{8}', ParseChars(rest))
      case 'f' => Cons('\U{C}', ParseChars(rest))
      case 'n' => Cons('\n', ParseChars(rest))
      case 'r' => Cons('\r', ParseChars(rest))
      case 't' => Cons('\t', ParseChars(rest))
      case 'u' => (match UnicodeEscape(rest)
                   case None => None
                   case Some((x, more)) => Cons(x, ParseChars(more)))
      case _ => None
  {
    var s := ['\\', c] + rest;
    assert s[2..] == rest && s[1] == c;
  }

  /** A literal with a control character, or with something behind its quote, is none: its text is taken as it is. */
  lemma {:induction false} BrokenLiterals(c: char, rest: string)
    ensures c < ' ' ==> ParseChars([c] + rest) == None
    ensures ParseChars("\"" + rest) == if rest == "" then Some("") else None
    ensures ParseChars("") == None && ParseChars("\\") == None
  {
  }

  lemma CodeUnitOfFront(h: string, rest: string)
    requires |h| == 4
    ensures CodeUnit(h + rest) == CodeUnit(h) && (h + rest)[4..] == rest
  {
    var s := h + rest;
    assert s[0] == h[0] && s[1] == h[1] && s[2] == h[2] && s[3] == h[3];
  }

  /** Four hex digits in either case; a surrogate counts only together with the one it belongs to. */
  lemma UnicodeEscapes(h: string, rest: string, unit: nat, s: string)
    requires |h| == 4 && CodeUnit(h) == Some(unit) && s == h + rest
    ensures unit < 0xD800 || 0xE000 <= unit < 0x10000 ==> UnicodeEscape(s) == Some((unit as char, rest))
    ensures 0xDC00 <= unit < 0xE000 ==> UnicodeEscape(s) == None
    ensures 0xD800 <= unit < 0xDC00 && !("\\u" <= rest) ==> UnicodeEscape(s) == None
    ensures unit < 0x10000
  {
    CodeUnitOfFront(h, rest);
    assert |s| >= 6 ==> s[4] == rest[0] && s[5] == rest[1];
  }

  predicate IsSeparator(c: char) {
    c == '\U{2028}' || c == '\U{2029}'
  }

  predicate HasSeparator(s: string) {
    '\U{2028}' in s || '\U{2029}' in s
  }

  /** What `.` in a regular expression does not match. */
  predicate HasLineEnd(s: string) {
    '\n' in s || '\r' in s || HasSeparator(s)
  }

  lemma EscapedCharacter(c: char)
    ensures forall i | 0 <= i < |Escape(c)| :: Escape(c)[i] >= ' '
    ensures HasSeparator(Escape(c)) <==> IsSeparator(c)
  {
  }

  /** Escaped text has no control character, and a separator exactly where the value has one. */
  lemma {:induction false} EscapedText(s: string)
    ensures forall i | 0 <= i < |EscapeAll(s)| :: EscapeAll(s)[i] >= ' '
    ensures HasSeparator(EscapeAll(s)) <==> HasSeparator(s)
  {
    if s != "" {
      EscapedText(s[1..]);
      EscapedCharacter(s[0]);
      assert s == [s[0]] + s[1..];
    }
  }

  /** A quoted value survives `trim`, starts with no space and fits one line of the header. */
  lemma QuotedShape(value: string)
    ensures var q := Quote(value);
            && q != "" && !IsSpace(q[0]) && !IsSpace(q[|q| - 1]) && Trim(q) == q
            && '\n' !in q
            && (HasLineEnd(q) <==> HasSeparator(value))
  {
    var q := Quote(value);
    EscapedText(value);
    var text := EscapeAll(value);
    if q == Stringify(value) {
      assert q[|q| - 1] == '"';
      assert q == "\"" + text + "\"";
    } else {
      assert forall i | 0 <= i < |q| :: IsPlain(q[i]);
    }
  }
}

/** The Markdown file of a handoff: a `key: value` header between `---` lines, then the body. */
module Frontmatter {
  import opened Text
  import opened Quoting
  import opened HandoffFold
  import opened HandoffJournal

  type Entry = (string, string)

  predicate IsWord(c: char) {
    IsLetter(c) || IsDigit(c) || c == '_'
  }

  predicate IsKey(s: string) {
    s != "" && IsLetter(s[0]) && forall i | 0 <= i < |s| :: IsWord(s[i])
  }

  // --------------------------------------------------------------- printing

  function AgentName(agent: Agent): string {
    match agent
    case ClaudeCode => "claude-code"
    case TumbleCode => "tumble-code"
  }

  function OrEmpty(value: Option<string>): string {
    if value.Some? then value.value else ""
  }

  /**
   Everything a compaction prints, "" for an absent value: FRONTMATTER_KEYS, the
   sorted list of the folded set, the registers.
   */
  function AllEntries(doc: Document, revisions: seq<string>): seq<Entry> {
    var h, r := doc.handoff, doc.registers;
    [("id", h.id), ("title", h.title), ("from", AgentName(h.from)), ("to", AgentName(h.to)),
     ("sourceSessionId", h.sourceSessionId), ("cwd", OrEmpty(h.cwd)), ("gitBranch", OrEmpty(h.gitBranch)),
     ("status", StatusName(h.status)), ("created", h.created), ("updated", h.updated),
     ("pickedUpBy", if h.pickedUpBy.Some? then AgentName(h.pickedUpBy.value) else ""),
     ("pickedUpSessionId", OrEmpty(h.pickedUpSessionId)),
     ("foldedRevisions", Join(revisions, ",")),
     ("statusRevision", r.status), ("pickedUpByRevision", r.pickedUpBy), ("pickedUpSessionIdRevision", r.pickedUpSessionId)]
  }

  function Line(entry: Entry): string {
    entry.0 + ": " + Quote(entry.1)
  }

  /** The printed lines: an empty value gets none. */
  function Lines(entries: seq<Entry>): seq<string> {
    if entries == [] then []
    else
      var rest := Lines(entries[..|entries| - 1]);
      var last := entries[|entries| - 1];
      if last.1 == "" then rest else rest + [Line(last)]
  }

  function HeaderText(lines: seq<string>): string {
    if lines == [] then "" else HeaderText(lines[..|lines| - 1]) + "\n" + lines[|lines| - 1]
  }

  function FileText(entries: seq<Entry>, body: string): string {
    "---" + HeaderText(Lines(entries)) + "\n---" + "\n" + body
  }

  lemma {:induction false} JoinLines(first: string, lines: seq<string>)
    ensures Join([first] + lines, "\n") == first + HeaderText(lines)
  {
    if lines == [] {
      assert [first] + lines == [first];
    } else {
      var last := |lines| - 1;
      assert ([first] + lines)[..last + 1] == [first] + lines[..last];
      JoinLines(first, lines[..last]);
    }
  }

  /** `serializeFrontmatter` followed by the body, as `compact` writes it. */
  method Serialize(doc: Document, revisions: seq<string>) returns (text: string)
    ensures text == FileText(AllEntries(doc, revisions), doc.handoff.body)
  {
    var entries := AllEntries(doc, revisions);
    var lines := ["---"];
    for i := 0 to |entries|
      invariant lines == ["---"] + Lines(entries[..i])
    {
      assert entries[..i + 1][..i] == entries[..i];
      if entries[i].1 != "" {
        lines := lines + [entries[i].0 + ": " + Quote(entries[i].1)];
      }
    }
    assert entries[..|entries|] == entries;
    lines := lines + ["---"];
    text := Join(lines, "\n") + "\n" + doc.handoff.body;
    JoinLines("---", Lines(entries) + ["---"]);
    assert lines == ["---"] + (Lines(entries) + ["---"]);
    assert (Lines(entries) + ["---"])[..|Lines(entries)|] == Lines(entries);
  }

  // ---------------------------------------------------------------- parsing

  function SkipSpaces(s: string): string {
    TrimStart(s)
  }

  /** The longest run of word characters at the front. */
  function WordLength(s: string): (n: nat)
    ensures n <= |s| && forall i | 0 <= i < n :: IsWord(s[i])
    ensures n < |s| ==> !IsWord(s[n])
  {
    if s != "" && IsWord(s[0]) then 1 + WordLength(s[1..]) else 0
  }

  /** `/^\s*([A-Za-z][A-Za-z0-9_]*)\s*:\s*(.*)$/`, whose greedy match is its only one. */
  function MatchLine(line: string): Option<Entry> {
    var start := SkipSpaces(line);
    if start == "" || !IsLetter(start[0]) then None
    else
      var n := WordLength(start);
      var colon := SkipSpaces(start[n..]);
      if colon == "" || colon[0] != ':' then None
      else
        var value := SkipSpaces(colon[1..]);
        if HasLineEnd(value) then None else Some((start[..n], value))
  }

  type Fields = map<string, string>

  function AddLine(fields: Fields, line: string): Fields {
    match MatchLine(line)
    case None => fields
    case Some((key, value)) => fields[key := Unquote(Trim(value))]
  }

  function AddLines(lines: seq<string>): Fields {
    if lines == [] then map[] else AddLine(AddLines(lines[..|lines| - 1]), lines[|lines| - 1])
  }

  datatype Parsed = Parsed(fields: Fields, body: string)

  function DropNewline(s: string): string {
    if s != "" && s[0] == '\n' then s[1..] else s
  }

  function Parse(raw: string): Option<Parsed> {
    if !OccursAt(raw, "---", 0) then None
    else match IndexOf(raw, "\n---", 3)
      case None => None
      case Some(end) => Some(Parsed(AddLines(Split(raw[3..end], '\n')), DropNewline(raw[end + 4..])))
  }

  method ParseFrontmatter(raw: string) returns (parsed: Option<Parsed>)
    ensures parsed == Parse(raw)
  {
    if !OccursAt(raw, "---", 0) {
      return None;
    }
    var end := IndexOf(raw, "\n---", 3);
    if end.None? {
      return None;
    }
    var header := raw[3..end.value];
    var body := DropNewline(raw[end.value + 4..]);
    var lines := Split(header, '\n');
    var fields: Fields := map[];
    for i := 0 to |lines|
      invariant fields == AddLines(lines[..i])
    {
      assert lines[..i + 1][..i] == lines[..i];
      var match_ := MatchLine(lines[i]);
      if match_.Some? {
        fields := fields[match_.value.0 := Unquote(Trim(match_.value.1))];
      }
    }
    assert lines[..|lines|] == lines;
    parsed := Some(Parsed(fields, body));
  }

  // ------------------------------------------- what parsing does with any text

  /** The line is a key and a value around a colon, with white space where it pleases. */
  ghost predicate IsLine(line: string, a: string, key: string, b: string, c: string, value: string) {
    && line == a + key + b + ":" + c + value
    && AllSpace(a) && AllSpace(b) && AllSpace(c) && IsKey(key)
    && (value != "" ==> !IsSpace(value[0])) && !HasLineEnd(value)
  }

  /** Every such line is read as its key and its value, indented or not. */
  lemma LineIsMatched(line: string, a: string, key: string, b: string, c: string, value: string)
    requires IsLine(line, a, key, b, c, value)
    ensures MatchLine(line) == Some((key, value))
  {
    var rest := b + ":" + c + value;
    KeyIsRead(line, a, key, rest);
    WordStops(b, c + value, rest);
    assert rest == b + ":" + (c + value);
    WordRun(key, rest);
    ValueIsRead(rest, b, c, value);
  }

  lemma KeyIsRead(line: string, a: string, key: string, rest: string)
    requires line == a + key + rest && AllSpace(a) && IsKey(key)
    ensures SkipSpaces(line) == key + rest && (key + rest)[..|key|] == key && (key + rest)[|key|..] == rest
  {
    TrimStartDrops(a, key + rest);
    assert line == a + (key + rest);
  }

  lemma ValueIsRead(rest: string, b: string, c: string, value: string)
    requires rest == b + ":" + c + value && AllSpace(b) && AllSpace(c) && (value != "" ==> !IsSpace(value[0]))
    ensures SkipSpaces(rest) == ":" + (c + value) && SkipSpaces((":" + (c + value))[1..]) == value
  {
    assert rest == b + (":" + (c + value));
    TrimStartDrops(b, ":" + (c + value));
    assert (":" + (c + value))[1..] == c + value;
    TrimStartDrops(c, value);
  }

  lemma WordStops(b: string, tail: string, rest: string)
    requires AllSpace(b) && rest == b + ":" + tail
    ensures rest != "" && !IsWord(rest[0])
  {
    if b != "" {
      assert rest[0] == b[0];
    }
  }

  /** And no other line is read at all. */
  lemma MatchedIsLine(line: string) returns (a: string, b: string, c: string)
    requires MatchLine(line).Some?
    ensures IsLine(line, a, MatchLine(line).value.0, b, c, MatchLine(line).value.1)
  {
    var start := SkipSpaces(line);
    var n := WordLength(start);
    var colon := SkipSpaces(start[n..]);
    var value := SkipSpaces(colon[1..]);
    a := TrimStartSplits(line);
    b := TrimStartSplits(start[n..]);
    c := TrimStartSplits(colon[1..]);
    KeyIsWord(start, n);
    LineParts(line, a, start, start[..n], start[n..], b, colon, c, value);
  }

  lemma KeyIsWord(start: string, n: nat)
    requires start != "" && IsLetter(start[0]) && n == WordLength(start)
    ensures IsKey(start[..n]) && start == start[..n] + start[n..]
  {
  }

  lemma LineParts(line: string, a: string, start: string, key: string, rest: string, b: string, colon: string, c: string, value: string)
    requires line == a + start && start == key + rest && rest == b + colon && colon != "" && colon[0] == ':' && colon[1..] == c + value
    ensures line == a + key + b + ":" + c + value
  {
    assert colon == ":" + (c + value);
  }

  /** The fields are what the lines say: a line that sets a key replaces what the lines before it said. */
  lemma {:induction false} LastLineCounts(lines: seq<string>, line: string, key: string)
    ensures Get(AddLines(lines + [line]), key) ==
      if Sets(line, key) then Some(Unquote(Trim(MatchLine(line).value.1))) else Get(AddLines(lines), key)
    ensures AddLines([]) == map[]
  {
    assert (lines + [line])[..|lines|] == lines;
  }

  predicate Sets(line: string, key: string) {
    MatchLine(line).Some? && MatchLine(line).value.0 == key
  }

  /** A file is `---`, a header, the first `---` at the start of a line behind it, and the body after at most one line end. */
  lemma FileIsParsed(raw: string, header: string, tail: string)
    requires raw == "---" + header + "\n---" + tail
    requires forall k: nat | 3 <= k < 3 + |header| :: !OccursAt(raw, "\n---", k)
    ensures Parse(raw) == Some(Parsed(AddLines(Split(header, '\n')), if tail != "" && tail[0] == '\n' then tail[1..] else tail))
  {
    FileParts(raw, header, tail);
    IndexOfIsFirst(raw, "\n---", 3);
    assert IndexOf(raw, "\n---", 3) == Some(3 + |header|);
  }

  lemma FileParts(raw: string, header: string, tail: string)
    requires raw == "---" + header + "\n---" + tail
    ensures OccursAt(raw, "---", 0) && OccursAt(raw, "\n---", 3 + |header|)
    ensures raw[3..3 + |header|] == header && raw[3 + |header| + 4..] == tail
  {
    OccursIsSlice(raw, "---", 0);
    assert raw[0..3] == "---";
    OccursIsSlice(raw, "\n---", 3 + |header|);
    assert raw[3 + |header|..3 + |header| + 4] == "\n---";
  }

  /** Every other text has no header. */
  lemma OtherTextIsNot(raw: string)
    ensures Parse(raw).None? <==> !("---" <= raw) || forall k: nat | 3 <= k :: !OccursAt(raw, "\n---", k)
  {
    OccursIsSlice(raw, "---", 0);
    IndexOfIsFirst(raw, "\n---", 3);
  }

  // ------------------------------------------------------------- round trip

  lemma {:induction false} WordRun(key: string, rest: string)
    requires forall i | 0 <= i < |key| :: IsWord(key[i])
    requires rest == "" || !IsWord(rest[0])
    ensures WordLength(key + rest) == |key|
  {
    if key == "" {
      assert key + rest == rest;
    } else {
      WordRun(key[1..], rest);
      assert (key + rest)[1..] == key[1..] + rest;
    }
  }

  lemma MatchShape(key: string, value: string)
    requires IsKey(key) && value != "" && !IsSpace(value[0])
    ensures MatchLine(key + ": " + value) == if HasLineEnd(value) then None else Some((key, value))
  {
    var line := key + ": " + value;
    var rest := ": " + value;
    assert line == key + rest;
    assert SkipSpaces(line) == line;
    WordRun(key, rest);
    assert line[|key|..] == rest && line[..|key|] == key;
    assert SkipSpaces(rest) == rest;
    assert rest[1..] == " " + value;
    assert (" " + value)[1..] == value;
    assert TrimStart(value) == value;
    assert SkipSpaces(" " + value) == value;
  }

  /** A printed line is read back exactly when its value has no U+2028 or U+2029. */
  lemma LineRoundTrip(key: string, value: string)
    requires IsKey(key)
    ensures MatchLine(Line((key, value))) == if HasSeparator(value) then None else Some((key, Quote(value)))
    ensures Unquote(Trim(Quote(value))) == value
    ensures '\n' !in Line((key, value))
  {
    QuotedShape(value);
    UnquoteQuote(value);
    MatchShape(key, Quote(value));
  }

  /** A title with a line separator is printed, but its line is not read back. */
  lemma SeparatorIsLost()
    ensures MatchLine(Line(("title", "a\U{2028}b"))) == None
  {
    assert "a\U{2028}b"[1] == '\U{2028}';
    assert IsKey("title");
    LineRoundTrip("title", "a\U{2028}b");
  }

  ghost predicate GoodKeys(entries: seq<Entry>) {
    && (forall i | 0 <= i < |entries| :: IsKey(entries[i].0))
    && (forall i, j | 0 <= i < j < |entries| :: entries[i].0 != entries[j].0)
  }

  /** `fields` holds the non-empty values without a separator, and nothing else. */
  ghost predicate Holds(fields: Fields, entries: seq<Entry>) {
    && (forall i | 0 <= i < |entries| ::
          (entries[i].0 in fields <==> entries[i].1 != "" && !HasSeparator(entries[i].1))
          && (entries[i].0 in fields ==> fields[entries[i].0] == entries[i].1))
    && (forall k | k in fields :: exists i :: 0 <= i < |entries| && entries[i].0 == k)
  }

  predicate IsHeaderLine(line: string) {
    '\n' !in line && line != "" && IsLetter(line[0])
  }

  /** What one printed line adds to the fields. */
  lemma LineAdds(fields: Fields, entry: Entry)
    requires IsKey(entry.0)
    ensures AddLine(fields, Line(entry)) == if HasSeparator(entry.1) then fields else fields[entry.0 := entry.1]
    ensures IsHeaderLine(Line(entry))
  {
    LineRoundTrip(entry.0, entry.1);
  }

  lemma LinesMore(rest: seq<Entry>, last: Entry)
    ensures Lines(rest + [last]) == if last.1 == "" then Lines(rest) else Lines(rest) + [Line(last)]
    ensures AddLines(Lines(rest + [last])) == if last.1 == "" then AddLines(Lines(rest)) else AddLine(AddLines(Lines(rest)), Line(last))
  {
    assert (rest + [last])[..|rest|] == rest;
    assert (Lines(rest) + [Line(last)])[..|Lines(rest)|] == Lines(rest);
  }

  lemma {:induction false} LinesAreHeaderLines(entries: seq<Entry>)
    requires forall i | 0 <= i < |entries| :: IsKey(entries[i].0)
    ensures forall i | 0 <= i < |Lines(entries)| :: IsHeaderLine(Lines(entries)[i])
  {
    if entries != [] {
      var rest, last := entries[..|entries| - 1], entries[|entries| - 1];
      LinesAreHeaderLines(rest);
      LineAdds(map[], last);
    }
  }

  lemma {:induction false} FieldsRoundTrip(entries: seq<Entry>)
    requires GoodKeys(entries)
    ensures Holds(AddLines(Lines(entries)), entries)
  {
    if entries != [] {
      var rest, last := entries[..|entries| - 1], entries[|entries| - 1];
      assert entries == rest + [last];
      FieldsRoundTrip(rest);
      LinesMore(rest, last);
      LineAdds(AddLines(Lines(rest)), last);
      HoldsMore(AddLines(Lines(rest)), rest, last, AddLines(Lines(entries)), entries);
    }
  }

  lemma HoldsMore(before: Fields, rest: seq<Entry>, last: Entry, after: Fields, entries: seq<Entry>)
    requires entries == rest + [last] && GoodKeys(entries) && Holds(before, rest)
    requires after == if last.1 != "" && !HasSeparator(last.1) then before[last.0 := last.1] else before
    ensures Holds(after, entries)
  {
    assert last == entries[|rest|];
    forall i | 0 <= i < |rest| ensures entries[i].0 != last.0 && entries[i] == rest[i] {
    }
    assert last.0 !in before;
    forall k | k in after ensures exists i :: 0 <= i < |entries| && entries[i].0 == k {
      if k in before {
        var i :| 0 <= i < |rest| && rest[i].0 == k;
        assert entries[i].0 == k;
      } else {
        assert entries[|entries| - 1].0 == k;
      }
    }
  }

  /** In the header every newline is followed by a letter, so `\n---` first occurs at its end. */
  lemma {:induction false} HeaderNewlines(lines: seq<string>)
    requires forall i | 0 <= i < |lines| :: IsHeaderLine(lines[i])
    ensures var h := HeaderText(lines);
            forall k | 0 <= k < |h| && h[k] == '\n' :: k + 1 < |h| && IsLetter(h[k + 1])
    ensures Split(HeaderText(lines), '\n') == [""] + lines
  {
    if lines != [] {
      var rest, last := lines[..|lines| - 1], lines[|lines| - 1];
      HeaderNewlines(rest);
      var front := HeaderText(rest);
      assert HeaderText(lines) == front + ['\n'] + last;
      SplitAppend(front, last, '\n');
      assert [""] + rest + [last] == [""] + lines;
    }
  }

  lemma FirstFence(header: string, tail: string)
    requires forall k | 0 <= k < |header| && header[k] == '\n' :: k + 1 < |header| && IsLetter(header[k + 1])
    ensures IndexOf("---" + header + "\n---" + tail, "\n---", 3) == Some(3 + |header|)
  {
    var raw := "---" + header + "\n---" + tail;
    var fence := "\n---";
    IndexOfIsFirst(raw, fence, 3);
    OccursIsSlice(raw, fence, 3 + |header|);
    assert raw[3 + |header|..3 + |header| + 4] == fence;
    forall k: nat | 3 <= k < 3 + |header| ensures !OccursAt(raw, fence, k) {
      OccursIsSlice(raw, fence, k);
      assert raw[k] == header[k - 3];
      assert raw[k..k + 4][0] == raw[k] && raw[k..k + 4][1] == raw[k + 1];
      if raw[k] == '\n' {
        assert raw[k + 1] == header[k - 2];
      }
    }
  }

  lemma {:induction false} AddLinesAfterEmpty(lines: seq<string>)
    ensures AddLines([""] + lines) == AddLines(lines)
  {
    if lines == [] {
      assert [""] + lines == [""];
      assert AddLines([""]) == AddLine(AddLines([]), "");
    } else {
      assert ([""] + lines)[..|lines|] == [""] + lines[..|lines| - 1];
      AddLinesAfterEmpty(lines[..|lines| - 1]);
    }
  }

  /**
   Parsing a printed file gives the body back byte for byte, whatever it
   contains, and exactly the non-empty values without U+2028 or U+2029.
   */
  lemma FileRoundTrip(entries: seq<Entry>, body: string)
    requires GoodKeys(entries)
    ensures var parsed := Parse(FileText(entries, body));
            parsed.Some? && parsed.value.body == body && Holds(parsed.value.fields, entries)
  {
    var lines := Lines(entries);
    var header := HeaderText(lines);
    var raw := FileText(entries, body);
    FieldsRoundTrip(entries);
    LinesAreHeaderLines(entries);
    HeaderNewlines(lines);
    FirstFence(header, "\n" + body);
    assert raw == "---" + header + "\n---" + ("\n" + body);
    OccursIsSlice(raw, "---", 0);
    assert raw[0..3] == "---";
    assert raw[3..3 + |header|] == header;
    assert raw[3 + |header| + 4..] == "\n" + body;
    assert ("\n" + body)[1..] == body;
    AddLinesAfterEmpty(lines);
  }

  // ---------------------------------------------------- the base document

  function AsAgent(value: Option<string>): Option<Agent> {
    if value == Some("claude-code") then Some(ClaudeCode)
    else if value == Some("tumble-code") then Some(TumbleCode)
    else None
  }

  function AsStatus(value: Option<string>): Status {
    if value == Some("picked-up") then PickedUp
    else if value == Some("done") then Done
    else if value == Some("abandoned") then Abandoned
    else Open
  }

  /** The names in a file: two agents, four statuses, and what a reader makes of anything else. */
  lemma NamesAreRead(value: Option<string>)
    ensures AsAgent(value) == Some(ClaudeCode) <==> value == Some("claude-code")
    ensures AsAgent(value) == Some(TumbleCode) <==> value == Some("tumble-code")
    ensures AsStatus(value) == PickedUp <==> value == Some("picked-up")
    ensures AsStatus(value) == Done <==> value == Some("done")
    ensures AsStatus(value) == Abandoned <==> value == Some("abandoned")
  {
    assert "claude-code"[0] != "tumble-code"[0];
    assert "picked-up"[0] != "done"[0] && "picked-up"[0] != "abandoned"[0] && "done"[0] != "abandoned"[0];
  }

  function Get(fields: Fields, key: string): Option<string> {
    if key in fields then Some(fields[key]) else None
  }

  function GetOr<T>(value: Option<T>, default: T): T {
    if value.Some? then value.value else default
  }

  function RevisionSet(text: string): set<string> {
    var parts := Split(text, ',');
    set p | p in parts && Trim(p) != "" :: Trim(p)
  }

  /** `readBaseDocument` on the text of a file called `name`. */
  function ReadBaseDocument(name: string, raw: string): Option<Base> {
    match Parse(raw)
    case None => None
    case Some(parsed) => Some(FromFields(name, parsed.fields, parsed.body))
  }

  function FromFields(name: string, f: Fields, body: string): Base {
    var id := GetOr(Get(f, "id"), name);
    var created := GetOr(Get(f, "created"), "");
    Base(
      Document(
        Handoff(id, GetOr(Get(f, "title"), id),
                GetOr(AsAgent(Get(f, "from")), ClaudeCode), GetOr(AsAgent(Get(f, "to")), TumbleCode),
                GetOr(Get(f, "sourceSessionId"), ""), Get(f, "cwd"), Get(f, "gitBranch"),
                AsStatus(Get(f, "status")), created, GetOr(Get(f, "updated"), created),
                AsAgent(Get(f, "pickedUpBy")), Get(f, "pickedUpSessionId"), body),
        Registers(GetOr(Get(f, "statusRevision"), ""), GetOr(Get(f, "pickedUpByRevision"), ""),
                  GetOr(Get(f, "pickedUpSessionIdRevision"), ""))),
      RevisionSet(GetOr(Get(f, "foldedRevisions"), "")))
  }

  predicate Clean(s: string) {
    s != "" && !HasSeparator(s)
  }

  predicate CleanRevision(r: string) {
    Clean(r) && ',' !in r && Trim(r) == r
  }

  predicate CleanOption(value: Option<string>) {
    value.Some? ==> Clean(value.value)
  }

  /** What is left of a printed value: nothing when it was not printed or its line is not read. */
  function Kept(value: string): Option<string> {
    if Clean(value) then Some(value) else None
  }

  /** The document a base file is read back as: a value that was not kept gets its default. */
  function ReadBack(name: string, doc: Document): Document {
    var h, r := doc.handoff, doc.registers;
    var id := GetOr(Kept(h.id), name);
    var created := GetOr(Kept(h.created), "");
    Document(
      h.(id := id, title := GetOr(Kept(h.title), id),
         sourceSessionId := GetOr(Kept(h.sourceSessionId), ""), cwd := Kept(OrEmpty(h.cwd)), gitBranch := Kept(OrEmpty(h.gitBranch)),
         created := created, updated := GetOr(Kept(h.updated), created), pickedUpSessionId := Kept(OrEmpty(h.pickedUpSessionId))),
      Registers(GetOr(Kept(r.status), ""), GetOr(Kept(r.pickedUpBy), ""), GetOr(Kept(r.pickedUpSessionId), "")))
  }

  /** Every value is printed and read, or its default is the value. */
  predicate Survives(name: string, doc: Document) {
    var h := doc.handoff;
    && (Clean(h.id) || h.id == name) && (Clean(h.title) || h.title == h.id)
    && !HasSeparator(h.sourceSessionId) && CleanOption(h.cwd) && CleanOption(h.gitBranch)
    && !HasSeparator(h.created) && (Clean(h.updated) || h.updated == h.created) && CleanOption(h.pickedUpSessionId)
    && !HasSeparator(doc.registers.status) && !HasSeparator(doc.registers.pickedUpBy)
    && !HasSeparator(doc.registers.pickedUpSessionId)
  }

  /** No value that printing drops or the line pattern misses; it survives under every file name. */
  predicate Storable(doc: Document) {
    var h := doc.handoff;
    && Clean(h.id) && Clean(h.title) && !HasSeparator(h.sourceSessionId) && CleanOption(h.cwd) && CleanOption(h.gitBranch)
    && Clean(h.created) && Clean(h.updated) && CleanOption(h.pickedUpSessionId)
    && !HasSeparator(doc.registers.status) && !HasSeparator(doc.registers.pickedUpBy)
    && !HasSeparator(doc.registers.pickedUpSessionId)
  }

  lemma {:induction false} JoinHasNoSeparator(parts: seq<string>)
    requires forall i | 0 <= i < |parts| :: !HasSeparator(parts[i])
    ensures !HasSeparator(Join(parts, ","))
  {
    if |parts| > 1 {
      JoinHasNoSeparator(parts[..|parts| - 1]);
    }
  }

  lemma RevisionsRoundTrip(revisions: seq<string>)
    requires forall i | 0 <= i < |revisions| :: CleanRevision(revisions[i])
    ensures RevisionSet(Join(revisions, ",")) == set r | r in revisions
    ensures !HasSeparator(Join(revisions, ","))
  {
    JoinHasNoSeparator(revisions);
    if revisions == [] {
      assert Split("", ',') == [""];
      assert Trim("") == "";
    } else {
      SplitJoin(revisions, ',');
      forall r | r in revisions ensures Trim(r) == r && r != "" {
        var i :| 0 <= i < |revisions| && revisions[i] == r;
        assert CleanRevision(revisions[i]);
      }
    }
  }

  /** Length and first letter tell the keys apart. */
  function KeyCode(key: string): nat {
    if key == "" then 0 else 1000 * |key| + key[0] as nat
  }

  lemma KeysAreDistinct(entries: seq<Entry>, codes: seq<nat>)
    requires |entries| == |codes| && forall i | 0 <= i < |codes| :: KeyCode(entries[i].0) == codes[i]
    requires forall i, j | 0 <= i < j < |codes| :: codes[i] != codes[j]
    ensures forall i, j | 0 <= i < j < |entries| :: entries[i].0 != entries[j].0
  {
  }

  lemma CodesAreDistinct(codes: seq<nat>)
    requires codes == [2105, 5116, 4102, 2116, 15115, 3099, 9103, 6115, 7099, 7117, 10112, 17112, 15102, 14115, 18112, 25112]
    ensures forall i, j | 0 <= i < j < |codes| :: codes[i] != codes[j]
  {
  }

  lemma FirstKeysAreKeys(entries: seq<Entry>, doc: Document, revisions: seq<string>)
    requires entries == AllEntries(doc, revisions)
    ensures forall i | 0 <= i < 8 :: IsKey(entries[i].0)
  {
  }

  lemma LastKeysAreKeys(entries: seq<Entry>, doc: Document, revisions: seq<string>)
    requires entries == AllEntries(doc, revisions)
    ensures forall i | 8 <= i < 16 :: IsKey(entries[i].0)
  {
  }

  lemma EntriesHaveGoodKeys(doc: Document, revisions: seq<string>)
    ensures GoodKeys(AllEntries(doc, revisions))
  {
    var entries := AllEntries(doc, revisions);
    var codes := [2105, 5116, 4102, 2116, 15115, 3099, 9103, 6115, 7099, 7117, 10112, 17112, 15102, 14115, 18112, 25112];
    CodesAreDistinct(codes);
    FirstKeysAreKeys(entries, doc, revisions);
    LastKeysAreKeys(entries, doc, revisions);
    assert forall i | 0 <= i < |codes| :: KeyCode(entries[i].0) == codes[i];
    KeysAreDistinct(entries, codes);
  }

  lemma FieldOf(fields: Fields, entries: seq<Entry>, i: nat, key: string, value: string)
    requires Holds(fields, entries) && i < |entries| && entries[i] == (key, value)
    ensures Get(fields, key) == Kept(value)
  {
  }

  lemma AgentIsClean(agent: Agent)
    ensures Clean(AgentName(agent)) && AsAgent(Some(AgentName(agent))) == Some(agent)
  {
  }

  lemma StatusIsClean(status: Status)
    ensures Clean(StatusName(status)) && AsStatus(Some(StatusName(status))) == status
  {
  }

  /** What the fields of a printed base are. */
  ghost predicate FirstFields(f: Fields, h: Handoff) {
    && Get(f, "id") == Kept(h.id) && Get(f, "title") == Kept(h.title)
    && Get(f, "sourceSessionId") == Kept(h.sourceSessionId) && Get(f, "cwd") == Kept(OrEmpty(h.cwd))
    && Get(f, "gitBranch") == Kept(OrEmpty(h.gitBranch))
  }

  ghost predicate NameFields(f: Fields, h: Handoff) {
    && AsAgent(Get(f, "from")) == Some(h.from) && AsAgent(Get(f, "to")) == Some(h.to)
    && AsStatus(Get(f, "status")) == h.status && AsAgent(Get(f, "pickedUpBy")) == h.pickedUpBy
  }

  ghost predicate LastFields(f: Fields, h: Handoff, r: Registers, revisions: seq<string>) {
    && Get(f, "created") == Kept(h.created) && Get(f, "updated") == Kept(h.updated)
    && Get(f, "pickedUpSessionId") == Kept(OrEmpty(h.pickedUpSessionId))
    && Get(f, "foldedRevisions") == Kept(Join(revisions, ","))
    && Get(f, "statusRevision") == Kept(r.status)
    && Get(f, "pickedUpByRevision") == Kept(r.pickedUpBy)
    && Get(f, "pickedUpSessionIdRevision") == Kept(r.pickedUpSessionId)
  }

  lemma HasFirstFields(f: Fields, doc: Document, revisions: seq<string>)
    requires Holds(f, AllEntries(doc, revisions))
    ensures FirstFields(f, doc.handoff)
  {
    var h := doc.handoff;
    var entries := AllEntries(doc, revisions);
    FieldOf(f, entries, 0, "id", h.id);
    FieldOf(f, entries, 1, "title", h.title);
    FieldOf(f, entries, 4, "sourceSessionId", h.sourceSessionId);
    FieldOf(f, entries, 5, "cwd", OrEmpty(h.cwd));
    FieldOf(f, entries, 6, "gitBranch", OrEmpty(h.gitBranch));
  }

  lemma AgentFieldOf(f: Fields, entries: seq<Entry>, i: nat, key: string, agent: Agent)
    requires Holds(f, entries) && i < |entries| && entries[i] == (key, AgentName(agent))
    ensures AsAgent(Get(f, key)) == Some(agent)
  {
    AgentIsClean(agent);
    FieldOf(f, entries, i, key, AgentName(agent));
  }

  lemma StatusFieldOf(f: Fields, entries: seq<Entry>, i: nat, key: string, status: Status)
    requires Holds(f, entries) && i < |entries| && entries[i] == (key, StatusName(status))
    ensures AsStatus(Get(f, key)) == status
  {
    StatusIsClean(status);
    FieldOf(f, entries, i, key, StatusName(status));
  }

  lemma HasNameFields(f: Fields, doc: Document, revisions: seq<string>)
    requires Holds(f, AllEntries(doc, revisions))
    ensures NameFields(f, doc.handoff)
  {
    var h := doc.handoff;
    var entries := AllEntries(doc, revisions);
    AgentFieldOf(f, entries, 2, "from", h.from);
    AgentFieldOf(f, entries, 3, "to", h.to);
    StatusFieldOf(f, entries, 7, "status", h.status);
    if h.pickedUpBy.Some? {
      AgentFieldOf(f, entries, 10, "pickedUpBy", h.pickedUpBy.value);
    } else {
      FieldOf(f, entries, 10, "pickedUpBy", "");
    }
  }

  lemma HasLastFields(f: Fields, doc: Document, revisions: seq<string>)
    requires Holds(f, AllEntries(doc, revisions))
    ensures LastFields(f, doc.handoff, doc.registers, revisions)
  {
    var h, r := doc.handoff, doc.registers;
    var entries := AllEntries(doc, revisions);
    FieldOf(f, entries, 8, "created", h.created);
    FieldOf(f, entries, 9, "updated", h.updated);
    FieldOf(f, entries, 11, "pickedUpSessionId", OrEmpty(h.pickedUpSessionId));
    FieldOf(f, entries, 12, "foldedRevisions", Join(revisions, ","));
    FieldOf(f, entries, 13, "statusRevision", r.status);
    FieldOf(f, entries, 14, "pickedUpByRevision", r.pickedUpBy);
    FieldOf(f, entries, 15, "pickedUpSessionIdRevision", r.pickedUpSessionId);
  }

  lemma FieldsMakeBase(name: string, f: Fields, base: Base, revisions: seq<string>)
    requires FirstFields(f, base.doc.handoff) && NameFields(f, base.doc.handoff) && LastFields(f, base.doc.handoff, base.doc.registers, revisions)
    requires RevisionSet(Join(revisions, ",")) == base.folded && !HasSeparator(Join(revisions, ","))
    ensures FromFields(name, f, base.doc.handoff.body) == Base(ReadBack(name, base.doc), base.folded)
  {
  }

  /** Every base a compaction prints, in whatever order its revisions are sorted, is read back value by value. */
  lemma BaseReadsBack(name: string, base: Base, revisions: seq<string>)
    requires base.folded == set r | r in revisions
    requires forall i | 0 <= i < |revisions| :: CleanRevision(revisions[i])
    ensures ReadBaseDocument(name, FileText(AllEntries(base.doc, revisions), base.doc.handoff.body))
            == Some(Base(ReadBack(name, base.doc), base.folded))
  {
    var body := base.doc.handoff.body;
    EntriesHaveGoodKeys(base.doc, revisions);
    FileRoundTrip(AllEntries(base.doc, revisions), body);
    RevisionsRoundTrip(revisions);
    var f := Parse(FileText(AllEntries(base.doc, revisions), body)).value.fields;
    HasFirstFields(f, base.doc, revisions);
    HasNameFields(f, base.doc, revisions);
    HasLastFields(f, base.doc, revisions);
    FieldsMakeBase(name, f, base, revisions);
  }

  lemma ReadBackIff(name: string, doc: Document)
    ensures ReadBack(name, doc) == doc <==> Survives(name, doc)
  {
  }

  /** A printed base is read back as it was exactly when its values survive. */
  lemma BaseRoundTripIff(name: string, base: Base, revisions: seq<string>)
    requires base.folded == set r | r in revisions
    requires forall i | 0 <= i < |revisions| :: CleanRevision(revisions[i])
    ensures ReadBaseDocument(name, FileText(AllEntries(base.doc, revisions), base.doc.handoff.body)) == Some(base)
            <==> Survives(name, base.doc)
    ensures Storable(base.doc) ==> Survives(name, base.doc)
  {
    BaseReadsBack(name, base, revisions);
    ReadBackIff(name, base.doc);
  }

  /**
   A compacted session id is read back exactly when it is absent, or neither
   empty nor carrying U+2028 or U+2029: otherwise the register keeps its
   revision but the value is gone.
   */
  lemma SessionReadsBackIff(name: string, doc: Document, revisions: seq<string>)
    ensures var back := ReadBaseDocument(name, FileText(AllEntries(doc, revisions), doc.handoff.body));
            && back.Some?
            && (back.value.doc.handoff.pickedUpSessionId == doc.handoff.pickedUpSessionId <==> CleanOption(doc.handoff.pickedUpSessionId))
  {
    var entries := AllEntries(doc, revisions);
    EntriesHaveGoodKeys(doc, revisions);
    FileRoundTrip(entries, doc.handoff.body);
    assert entries[11] == ("pickedUpSessionId", OrEmpty(doc.handoff.pickedUpSessionId));
  }
}
