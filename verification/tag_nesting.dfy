/**
 What the tag matcher makes of properly nested text: tags may be nested and may
 have spaces around their names, and a stream that does not begin with a tag is
 plain text.
 */
module TagNesting {
  import opened Text
  import opened TagAutomaton
  import opened TagMatching
  import opened TagBlocks

  /** Text without `<`, or a tag with the spaces around its name, its contents, and its closing tag. */
  datatype Node =
    | Chars(text: string)
    | Tag(before: string, after: string, inner: seq<Node>, inFront: string, closeBefore: string, closeAfter: string)

  predicate Blank(s: string) {
    forall i | 0 <= i < |s| :: s[i] == ' '
  }

  function OpeningTag(w: string, before: string, after: string): string {
    "<" + before + w + after + ">"
  }

  function ClosingTag(w: string, inFront: string, before: string, after: string): string {
    "<" + inFront + "/" + before + w + after + ">"
  }

  function PrintNode(w: string, node: Node): string {
    match node
    case Chars(text) => text
    case Tag(before, after, inner, inFront, closeBefore, closeAfter) =>
      OpeningTag(w, before, after) + Print(w, inner) + ClosingTag(w, inFront, closeBefore, closeAfter)
  }

  function Print(w: string, nodes: seq<Node>): string {
    if nodes == [] then "" else Print(w, nodes[..|nodes| - 1]) + PrintNode(w, nodes[|nodes| - 1])
  }

  predicate IsNode(node: Node) {
    match node
    case Chars(text) => text != "" && '<' !in text
    case Tag(before, after, inner, inFront, closeBefore, closeAfter) =>
      Blank(before) && Blank(after) && Blank(inFront) && Blank(closeBefore) && Blank(closeAfter) && AreNodes(inner)
  }

  predicate AreNodes(nodes: seq<Node>) {
    nodes == [] || (AreNodes(nodes[..|nodes| - 1]) && IsNode(nodes[|nodes| - 1]))
  }

  // ------------------------------------------------------- reading a tag

  /** Where inside the block the matcher is: in the text, or in a tag behind this many characters of its name. */
  datatype Place = Nowhere | InBody(depth: int, afterNested: bool) | InOpen(depth: int, index: nat) | InClose(depth: int, index: nat)

  function PlaceOf(w: string, s: Scan): Place {
    if !Within(w, s) then Nowhere
    else if s.ctl.state == InText && s.pending == 0 then InBody(s.ctl.depth, s.afterNested)
    else if s.ctl.state == TagOpen && |s.ctl.candidates| == 1 then InOpen(s.ctl.depth, s.ctl.candidates[0].index)
    else if s.ctl.state == TagClose then InClose(s.ctl.depth, s.ctl.index)
    else Nowhere
  }

  lemma OpenBegins(cfg: Config, w: string, s: Scan, d: int, afterNested: bool, s': Scan)
    requires PlainName(w) && PlaceOf(w, s) == InBody(d, afterNested) && s' == ScanStep(cfg, s, '<')
    ensures PlaceOf(w, s') == InOpen(d, 0)
  {
    WithinStep(cfg, w, s, '<', s');
  }

  lemma OneCandidate(w: string, s: Scan, d: int, i: nat)
    requires PlaceOf(w, s) == InOpen(d, i)
    ensures s.ctl.candidates == [Candidate(w, i)] && s.ctl.candidates[..0] == []
  {
    assert s.ctl.candidates[0] == Candidate(w, i);
  }

  lemma OpenSpace(cfg: Config, w: string, s: Scan, d: int, i: nat, s': Scan)
    requires PlainName(w) && PlaceOf(w, s) == InOpen(d, i) && (i == 0 || i == |w|) && s' == ScanStep(cfg, s, ' ')
    ensures PlaceOf(w, s') == InOpen(d, i)
  {
    OneCandidate(w, s, d, i);
    assert AtEdges(s.ctl.candidates) == [Candidate(w, i)];
    WithinStep(cfg, w, s, ' ', s');
  }

  lemma OpenChar(cfg: Config, w: string, s: Scan, d: int, i: nat, s': Scan)
    requires PlainName(w) && PlaceOf(w, s) == InOpen(d, i) && i < |w| && s' == ScanStep(cfg, s, w[i])
    ensures PlaceOf(w, s') == InOpen(d, i + 1)
  {
    OneCandidate(w, s, d, i);
    assert Advance(s.ctl.candidates, w[i]) == [Candidate(w, i + 1)];
    WithinStep(cfg, w, s, w[i], s');
  }

  lemma OpenEnds(cfg: Config, w: string, s: Scan, d: int, s': Scan)
    requires PlainName(w) && PlaceOf(w, s) == InOpen(d, |w|) && s' == ScanStep(cfg, s, '>')
    ensures PlaceOf(w, s') == InBody(d + 1, true)
  {
    OneCandidate(w, s, d, |w|);
    assert FindComplete(s.ctl.candidates) == Some(w);
    WithinStep(cfg, w, s, '>', s');
  }

  lemma CloseBegins(cfg: Config, w: string, s: Scan, d: int, s': Scan)
    requires PlaceOf(w, s) == InOpen(d, 0) && s' == ScanStep(cfg, s, '/')
    ensures PlaceOf(w, s') == InClose(d, 0)
  {
    OneCandidate(w, s, d, 0);
    WithinStep(cfg, w, s, '/', s');
  }

  lemma CloseSpace(cfg: Config, w: string, s: Scan, d: int, i: nat, s': Scan)
    requires PlainName(w) && PlaceOf(w, s) == InClose(d, i) && (i == 0 || i == |w|) && s' == ScanStep(cfg, s, ' ')
    ensures PlaceOf(w, s') == InClose(d, i)
  {
    WithinStep(cfg, w, s, ' ', s');
  }

  lemma CloseChar(cfg: Config, w: string, s: Scan, d: int, i: nat, s': Scan)
    requires PlainName(w) && PlaceOf(w, s) == InClose(d, i) && i < |w| && s' == ScanStep(cfg, s, w[i])
    ensures PlaceOf(w, s') == InClose(d, i + 1)
  {
    WithinStep(cfg, w, s, w[i], s');
  }

  lemma CloseEnds(cfg: Config, w: string, s: Scan, d: int, s': Scan)
    requires d > 1 && PlainName(w) && PlaceOf(w, s) == InClose(d, |w|) && s' == ScanStep(cfg, s, '>')
    ensures PlaceOf(w, s') == InBody(d - 1, true)
  {
    WithinStep(cfg, w, s, '>', s');
  }

  lemma {:induction false} OpenSpaces(cfg: Config, scan: Scanner, w: string, x: string, t: string, d: int, i: nat)
    requires Scans(cfg, scan) && PlainName(w) && Blank(t) && PlaceOf(w, scan(x)) == InOpen(d, i) && (i == 0 || i == |w|)
    ensures PlaceOf(w, scan(x + t)) == InOpen(d, i)
  {
    if t == "" {
      assert x + t == x;
    } else {
      var init, c := t[..|t| - 1], t[|t| - 1];
      LastOf(x, t, init, c);
      OpenSpaces(cfg, scan, w, x, init, d, i);
      OpenSpace(cfg, w, scan(x + init), d, i, scan(x + t));
    }
  }

  lemma {:induction false} CloseSpaces(cfg: Config, scan: Scanner, w: string, x: string, t: string, d: int, i: nat)
    requires Scans(cfg, scan) && PlainName(w) && Blank(t) && PlaceOf(w, scan(x)) == InClose(d, i) && (i == 0 || i == |w|)
    ensures PlaceOf(w, scan(x + t)) == InClose(d, i)
  {
    if t == "" {
      assert x + t == x;
    } else {
      var init, c := t[..|t| - 1], t[|t| - 1];
      LastOf(x, t, init, c);
      CloseSpaces(cfg, scan, w, x, init, d, i);
      CloseSpace(cfg, w, scan(x + init), d, i, scan(x + t));
    }
  }

  lemma {:induction false} OpenName(cfg: Config, scan: Scanner, w: string, x: string, t: string, d: int)
    requires Scans(cfg, scan) && PlainName(w) && t <= w && PlaceOf(w, scan(x)) == InOpen(d, 0)
    ensures PlaceOf(w, scan(x + t)) == InOpen(d, |t|)
  {
    if t == "" {
      assert x + t == x;
    } else {
      var init, c := t[..|t| - 1], t[|t| - 1];
      LastOf(x, t, init, c);
      OpenName(cfg, scan, w, x, init, d);
      OpenChar(cfg, w, scan(x + init), d, |init|, scan(x + t));
    }
  }

  lemma {:induction false} CloseName(cfg: Config, scan: Scanner, w: string, x: string, t: string, d: int)
    requires Scans(cfg, scan) && PlainName(w) && t <= w && PlaceOf(w, scan(x)) == InClose(d, 0)
    ensures PlaceOf(w, scan(x + t)) == InClose(d, |t|)
  {
    if t == "" {
      assert x + t == x;
    } else {
      var init, c := t[..|t| - 1], t[|t| - 1];
      LastOf(x, t, init, c);
      CloseName(cfg, scan, w, x, init, d);
      CloseChar(cfg, w, scan(x + init), d, |init|, scan(x + t));
    }
  }

  lemma NameWithSpaces(cfg: Config, scan: Scanner, w: string, x: string, before: string, after: string, d: int)
    requires Scans(cfg, scan) && PlainName(w) && Blank(before) && Blank(after)
    ensures PlaceOf(w, scan(x)) == InOpen(d, 0) ==> PlaceOf(w, scan(x + before + w + after)) == InOpen(d, |w|)
    ensures PlaceOf(w, scan(x)) == InClose(d, 0) ==> PlaceOf(w, scan(x + before + w + after)) == InClose(d, |w|)
  {
    if PlaceOf(w, scan(x)) == InOpen(d, 0) {
      OpenSpaces(cfg, scan, w, x, before, d, 0);
      OpenName(cfg, scan, w, x + before, w, d);
      OpenSpaces(cfg, scan, w, x + before + w, after, d, |w|);
    }
    if PlaceOf(w, scan(x)) == InClose(d, 0) {
      CloseSpaces(cfg, scan, w, x, before, d, 0);
      CloseName(cfg, scan, w, x + before, w, d);
      CloseSpaces(cfg, scan, w, x + before + w, after, d, |w|);
    }
  }

  lemma ReadOpeningTag(cfg: Config, scan: Scanner, w: string, x: string, before: string, after: string, d: int, afterNested: bool, x': string)
    requires Scans(cfg, scan) && PlainName(w) && Blank(before) && Blank(after) && PlaceOf(w, scan(x)) == InBody(d, afterNested)
    requires x' == x + ['<'] + before + w + after + ['>']
    ensures PlaceOf(w, scan(x')) == InBody(d + 1, true)
  {
    OpenBegins(cfg, w, scan(x), d, afterNested, scan(x + ['<']));
    NameWithSpaces(cfg, scan, w, x + ['<'], before, after, d);
    OpenEnds(cfg, w, scan(x + ['<'] + before + w + after), d, scan(x'));
  }

  lemma ReadSlash(cfg: Config, scan: Scanner, w: string, x: string, inFront: string, d: int, afterNested: bool, x': string)
    requires Scans(cfg, scan) && PlainName(w) && Blank(inFront) && PlaceOf(w, scan(x)) == InBody(d, afterNested)
    requires x' == x + ['<'] + inFront + ['/']
    ensures PlaceOf(w, scan(x')) == InClose(d, 0)
  {
    OpenBegins(cfg, w, scan(x), d, afterNested, scan(x + ['<']));
    OpenSpaces(cfg, scan, w, x + ['<'], inFront, d, 0);
    CloseBegins(cfg, w, scan(x + ['<'] + inFront), d, scan(x'));
  }

  lemma ReadRest(cfg: Config, scan: Scanner, w: string, slash: string, before: string, after: string, d: int, named: string, x': string)
    requires Scans(cfg, scan) && PlainName(w) && Blank(before) && Blank(after) && d > 1 && PlaceOf(w, scan(slash)) == InClose(d, 0)
    requires named == slash + before + w + after && x' == named + ['>']
    ensures PlaceOf(w, scan(x')) == InBody(d - 1, true)
  {
    NameWithSpaces(cfg, scan, w, slash, before, after, d);
    CloseEnds(cfg, w, scan(named), d, scan(x'));
  }

  lemma ReadClosingTag(cfg: Config, scan: Scanner, w: string, x: string, inFront: string, before: string, after: string, d: int, afterNested: bool, x': string)
    requires Scans(cfg, scan) && PlainName(w) && Blank(inFront) && Blank(before) && Blank(after) && d > 1
    requires PlaceOf(w, scan(x)) == InBody(d, afterNested) && x' == x + ['<'] + inFront + ['/'] + before + w + after + ['>']
    ensures PlaceOf(w, scan(x')) == InBody(d - 1, true)
  {
    var slash := x + ['<'] + inFront + ['/'];
    ReadSlash(cfg, scan, w, x, inFront, d, afterNested, slash);
    ReadRest(cfg, scan, w, slash, before, after, d, slash + before + w + after, x');
  }

  lemma TagTexts(w: string, x: string, inFront: string, before: string, after: string)
    ensures x + OpeningTag(w, before, after) == x + ['<'] + before + w + after + ['>']
    ensures x + ClosingTag(w, inFront, before, after) == x + ['<'] + inFront + ['/'] + before + w + after + ['>']
  {
  }

  // ------------------------------------------------------- reading nested text

  lemma TextStep(cfg: Config, w: string, s: Scan, d: int, c: char, s': Scan)
    requires PlaceOf(w, s).InBody? && s.ctl.depth == d && c != '<' && s' == ScanStep(cfg, s, c)
    ensures PlaceOf(w, s') == InBody(d, false)
  {
    WithinStep(cfg, w, s, c, s');
  }

  lemma {:induction false} ReadChars(cfg: Config, scan: Scanner, w: string, x: string, t: string, d: int, afterNested: bool)
    requires Scans(cfg, scan) && PlaceOf(w, scan(x)) == InBody(d, afterNested) && '<' !in t
    ensures PlaceOf(w, scan(x + t)) == InBody(d, t == "" && afterNested)
  {
    if t == "" {
      assert x + t == x;
    } else {
      var init, c := t[..|t| - 1], t[|t| - 1];
      LastOf(x, t, init, c);
      ReadChars(cfg, scan, w, x, init, d, afterNested);
      TextStep(cfg, w, scan(x + init), d, c, scan(x + t));
    }
  }

  lemma OpenNode(cfg: Config, scan: Scanner, w: string, x: string, node: Node, d: int, afterNested: bool, open: string)
    requires Scans(cfg, scan) && PlainName(w) && PlaceOf(w, scan(x)) == InBody(d, afterNested) && node.Tag? && IsNode(node)
    requires open == x + OpeningTag(w, node.before, node.after)
    ensures PlaceOf(w, scan(open)) == InBody(d + 1, true)
  {
    TagTexts(w, x, node.inFront, node.before, node.after);
    ReadOpeningTag(cfg, scan, w, x, node.before, node.after, d, afterNested, open);
  }

  lemma CloseNode(cfg: Config, scan: Scanner, w: string, body: string, node: Node, d: int, afterNested: bool, all: string)
    requires Scans(cfg, scan) && PlainName(w) && d >= 1 && PlaceOf(w, scan(body)) == InBody(d + 1, afterNested) && node.Tag? && IsNode(node)
    requires all == body + ClosingTag(w, node.inFront, node.closeBefore, node.closeAfter)
    ensures PlaceOf(w, scan(all)) == InBody(d, true)
  {
    TagTexts(w, body, node.inFront, node.closeBefore, node.closeAfter);
    ReadClosingTag(cfg, scan, w, body, node.inFront, node.closeBefore, node.closeAfter, d + 1, afterNested, all);
  }

  lemma {:induction false} ReadTag(cfg: Config, scan: Scanner, w: string, x: string, node: Node, d: int, afterNested: bool, open: string, body: string, all: string)
    requires Scans(cfg, scan) && PlainName(w) && d >= 1 && PlaceOf(w, scan(x)) == InBody(d, afterNested) && node.Tag? && IsNode(node)
    requires open == x + OpeningTag(w, node.before, node.after) && body == open + Print(w, node.inner)
    requires all == body + ClosingTag(w, node.inFront, node.closeBefore, node.closeAfter)
    ensures PlaceOf(w, scan(all)) == InBody(d, true)
    decreases node, 0
  {
    OpenNode(cfg, scan, w, x, node, d, afterNested, open);
    ReadNodes(cfg, scan, w, open, node.inner, d + 1, true);
    CloseNode(cfg, scan, w, body, node, d, EndsInTag(node.inner, true), all);
  }

  lemma {:induction false} ReadNode(cfg: Config, scan: Scanner, w: string, x: string, node: Node, d: int, afterNested: bool, all: string)
    requires Scans(cfg, scan) && PlainName(w) && d >= 1 && PlaceOf(w, scan(x)) == InBody(d, afterNested) && IsNode(node)
    requires all == x + PrintNode(w, node)
    ensures PlaceOf(w, scan(all)) == InBody(d, node.Tag?)
    decreases node, 1
  {
    if node.Chars? {
      ReadChars(cfg, scan, w, x, node.text, d, afterNested);
    } else {
      var open := x + OpeningTag(w, node.before, node.after);
      ThreeParts(x, OpeningTag(w, node.before, node.after), Print(w, node.inner), ClosingTag(w, node.inFront, node.closeBefore, node.closeAfter), all);
      ReadTag(cfg, scan, w, x, node, d, afterNested, open, open + Print(w, node.inner), all);
    }
  }

  lemma ThreeParts(x: string, a: string, b: string, c: string, all: string)
    requires all == x + (a + b + c)
    ensures x + a + b + c == all
  {
  }

  function EndsInTag(nodes: seq<Node>, afterNested: bool): bool {
    if nodes == [] then afterNested else nodes[|nodes| - 1].Tag?
  }

  /** Nested text is read back to the depth it began at. */
  lemma {:induction false} ReadNodes(cfg: Config, scan: Scanner, w: string, x: string, nodes: seq<Node>, d: int, afterNested: bool)
    requires Scans(cfg, scan) && PlainName(w) && d >= 1 && PlaceOf(w, scan(x)) == InBody(d, afterNested) && AreNodes(nodes)
    ensures PlaceOf(w, scan(x + Print(w, nodes))) == InBody(d, EndsInTag(nodes, afterNested))
    decreases nodes, 2
  {
    if nodes == [] {
      assert x + Print(w, nodes) == x;
    } else {
      var init, last := nodes[..|nodes| - 1], nodes[|nodes| - 1];
      ReadNodes(cfg, scan, w, x, init, d, afterNested);
      TwoParts(x, Print(w, init), PrintNode(w, last), x + Print(w, nodes));
      ReadNode(cfg, scan, w, x + Print(w, init), last, d, EndsInTag(init, afterNested), x + Print(w, nodes));
    }
  }

  lemma TwoParts(x: string, a: string, b: string, all: string)
    requires all == x + (a + b)
    ensures (x + a) + b == all
  {
  }

  lemma ReadBody(cfg: Config, scan: Scanner, w: string, nodes: seq<Node>, x: string, s: Scan)
    requires Scans(cfg, scan) && Matches(cfg, w) && AreNodes(nodes) && x == Opened(w, "") && s == scan(x + Print(w, nodes))
    ensures DirectlyInside(s) && s.afterNested == EndsInTag(nodes, false)
  {
    ReadOpened(cfg, scan, w);
    assert PlaceOf(w, scan(x)) == InBody(1, false);
    ReadNodes(cfg, scan, w, x, nodes, 1, false);
  }

  /**
   A block whose body is properly nested comes out as it was meant, for every cut,
   exactly when the body does not end in a nested tag.
   */
  lemma {:induction false} NestedBlockIff(cfg: Config, w: string, nodes: seq<Node>, rest: string)
    requires Matches(cfg, w) && AreNodes(nodes)
    ensures ComesOut(cfg, w, Print(w, nodes), rest) <==> nodes == [] || !nodes[|nodes| - 1].Tag?
  {
    var body := Print(w, nodes);
    ScanOfScans(cfg);
    OpenedBody(w, body);
    ReadBody(cfg, Scanned(cfg), w, nodes, Opened(w, ""), ScanOf(cfg, Opened(w, body)));
    ContainedOnScan(cfg, w, body, ScanOf(cfg, Opened(w, body)));
    ReasoningBlockIff(cfg, w, body, rest);
  }

  lemma {:induction false} ContainedOnScan(cfg: Config, w: string, body: string, s: Scan)
    requires s == ScanOf(cfg, Opened(w, body))
    ensures Contained(cfg, w, body) <==> DirectlyInside(s) && !s.afterNested
  {
  }

  // ------------------------------------------------------- streams without a block

  /** Nothing but text so far, and the place where a tag may begin is passed or has no tag. */
  predicate OnlyText(s: Scan, n: nat) {
    && s.ctl.state == InText && s.ctl.depth == 0 && !s.ctl.matched && s.ctl.pointer == n
    && s.pending == 0 && !s.loses && s.marks == Repeat(Plain(false), n)
  }

  lemma OnlyTextStep(cfg: Config, s: Scan, n: nat, c: char, s': Scan)
    requires OnlyText(s, n) && (n <= cfg.position ==> c != '<') && s' == ScanStep(cfg, s, c)
    ensures OnlyText(s', n + 1)
  {
    assert s'.marks == Repeat(Plain(false), n) + Repeat(Plain(false), 1);
  }

  lemma {:induction false} ReadOnlyText(cfg: Config, scan: Scanner, input: string)
    requires Scans(cfg, scan) && forall i | 0 <= i < |input| && i <= cfg.position :: input[i] != '<'
    ensures OnlyText(scan(input), |input|)
  {
    if input == "" {
      assert scan(input) == Scan(Start(), 0, false, false, []);
    } else {
      var init, c := input[..|input| - 1], input[|input| - 1];
      assert input == init + [c];
      ReadOnlyText(cfg, scan, init);
      OnlyTextStep(cfg, scan(init), |init|, c, scan(input));
    }
  }

  /**
   Tags are looked for at the configured position only: a stream without `<` up to
   there comes out unflagged and whole, for every cut, tags behind it included.
   */
  lemma {:induction false} PlainStream(cfg: Config, chunks: seq<string>, input: string)
    requires Concat(chunks) == input && forall i | 0 <= i < |input| && i <= cfg.position :: input[i] != '<'
    ensures Output(cfg, chunks) == Flag(input, false)
  {
    ScanOfScans(cfg);
    ReadOnlyText(cfg, Scanned(cfg), input);
    SelectText(cfg, chunks, input, ScanOf(cfg, input));
  }

  lemma {:induction false} SelectText(cfg: Config, chunks: seq<string>, input: string, s: Scan)
    requires Concat(chunks) == input && s == ScanOf(cfg, input) && OnlyText(s, |input|)
    ensures Output(cfg, chunks) == Flag(input, false)
  {
    LosslessOutput(cfg, chunks);
    assert Inside(s.marks) == Repeat(true, |input|);
    SelectAll(input, s.marks, false);
  }
}
