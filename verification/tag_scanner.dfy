/** Scanning for `<open>...</close>` blocks with `indexOf`, against lazy regular-expression matching. */
module TagScanner {
  import opened Text

  // ------------------------------------------------------- what a regular expression would match

  /** A match: an opening tag at `start`, and the first closing tag behind it at `end`. */
  predicate MatchAt(text: string, open: string, close: string, start: nat, end: nat) {
    && OccursAt(text, open, start)
    && start + |open| <= end && OccursAt(text, close, end)
    && forall k: nat | start + |open| <= k < end :: !OccursAt(text, close, k)
  }

  datatype Span = Span(start: nat, end: nat)

  /** Some match starts at this position. */
  ghost predicate Starts(text: string, open: string, close: string, start: nat) {
    exists end: nat :: MatchAt(text, open, close, start, end)
  }

  /** What lazy matching finds from a position on: the leftmost match, if there is one. */
  ghost predicate LeftmostMatch(text: string, open: string, close: string, from: nat, r: Option<Span>) {
    match r
    case None => forall i: nat | from <= i :: !Starts(text, open, close, i)
    case Some(Span(i, j)) =>
      from <= i && MatchAt(text, open, close, i, j) && forall k: nat | from <= k < i :: !Starts(text, open, close, k)
  }

  lemma LeftmostMatchIsUnique(text: string, open: string, close: string, from: nat, r: Option<Span>, r': Option<Span>)
    requires LeftmostMatch(text, open, close, from, r) && LeftmostMatch(text, open, close, from, r')
    ensures r == r'
  {
    if r.Some? {
      assert Starts(text, open, close, r.value.start);
    }
    if r'.Some? {
      assert Starts(text, open, close, r'.value.start);
    }
    if r.Some? && r'.Some? {
      assert r.value.end <= r'.value.end && r'.value.end <= r.value.end;
    }
  }

  /** The two searches of the scan. */
  function Find(text: string, open: string, close: string, from: nat): (r: Option<Span>)
    ensures r.Some? ==>
      var Span(i, j) := r.value;
      from <= i && i + |open| <= j && j + |close| <= |text|
  {
    match IndexOf(text, open, from)
    case None => None
    case Some(i) =>
      match IndexOf(text, close, i + |open|)
      case None => None
      case Some(j) => Some(Span(i, j))
  }

  /**
   The scan finds what lazy matching finds. In particular one failed search for a
   closing tag ends it: if the first opening tag has none behind it, no later one has.
   */
  lemma FindIsLeftmost(text: string, open: string, close: string, from: nat)
    ensures LeftmostMatch(text, open, close, from, Find(text, open, close, from))
  {
    var o := IndexOf(text, open, from);
    IndexOfIsFirst(text, open, from);
    if o.Some? {
      var c := IndexOf(text, close, o.value + |open|);
      IndexOfIsFirst(text, close, o.value + |open|);
      if c.None? {
        forall i: nat, j: nat | from <= i
          ensures !MatchAt(text, open, close, i, j)
        {
          if OccursAt(text, open, i) && i + |open| <= j {
            assert o.value <= i && !OccursAt(text, close, j);
          }
        }
      }
    }
  }

  /** The matches in the text from a position on, in order. */
  datatype Pieces = Rest(from: nat) | Cut(from: nat, span: Span, more: Pieces)

  ghost function PiecesOf(text: string, open: string, close: string, from: nat): Pieces
    requires close != "" && from <= |text|
    decreases |text| - from
  {
    match Find(text, open, close, from)
    case None => Rest(from)
    case Some(span) => Cut(from, span, PiecesOf(text, open, close, span.end + |close|))
  }

  /** `s.slice(from, to)`, for positions in the string. */
  function Slice(s: string, from: nat, to: nat): string
    decreases if from < to then to - from else 0
  {
    if from < to <= |s| then [s[from]] + Slice(s, from + 1, to) else ""
  }

  lemma {:induction false} SliceMeans(s: string, from: nat, to: nat)
    requires from <= to <= |s|
    ensures Slice(s, from, to) == s[from..to]
    decreases |s| - from
  {
    if from < to {
      SliceMeans(s, from + 1, to);
      assert s[from..to] == [s[from]] + s[from + 1..to];
    }
  }

  /** What is between the matches. */
  function Outside(text: string, pieces: Pieces): string {
    match pieces
    case Rest(from) => Slice(text, from, |text|)
    case Cut(from, span, more) => Slice(text, from, span.start) + Outside(text, more)
  }

  function NonEmpty(value: string): seq<string> {
    if value == "" then [] else [value]
  }

  function BodyOf(text: string, open: string, span: Span): string {
    Slice(text, span.start + |open|, span.end)
  }

  /** The trimmed bodies of the matches that are not empty. */
  function Bodies(text: string, open: string, pieces: Pieces): seq<string> {
    match pieces
    case Rest(_) => []
    case Cut(_, span, more) => NonEmpty(Trim(BodyOf(text, open, span))) + Bodies(text, open, more)
  }

  /** Kept parts and blocks, put together again. */
  function Rebuilt(text: string, open: string, close: string, pieces: Pieces): string {
    match pieces
    case Rest(from) => Slice(text, from, |text|)
    case Cut(from, span, more) =>
      Slice(text, from, span.start) + (open + BodyOf(text, open, span) + close + Rebuilt(text, open, close, more))
  }

  lemma Reassociated<T>(whole: seq<T>, a: seq<T>, b: seq<T>, c: seq<T>)
    requires whole == a + (b + c)
    ensures whole == a + b + c
  {
    assert a + (b + c) == a + b + c;
  }

  lemma EmptySum<T>(whole: seq<T>, a: seq<T>)
    ensures whole == [] + whole && a == a + []
  {
    assert whole == [] + whole && a == a + [];
  }

  /** Nothing is lost: what is kept and the blocks interleave back to the text. */
  lemma {:induction false} PiecesRebuild(text: string, open: string, close: string, from: nat)
    requires close != "" && from <= |text|
    ensures Rebuilt(text, open, close, PiecesOf(text, open, close, from)) == Slice(text, from, |text|)
    decreases |text| - from
  {
    match Find(text, open, close, from)
    case None =>
    case Some(span) =>
      var next := span.end + |close|;
      PiecesRebuild(text, open, close, next);
      FindIsLeftmost(text, open, close, from);
      TagSlice(text, open, span.start);
      TagSlice(text, close, span.end);
      FiveSlices(text, from, span.start, span.start + |open|, span.end, next);
  }

  /** The whole text: kept parts and blocks, put together again, give it back. */
  lemma TextIsRebuilt(text: string, open: string, close: string)
    requires close != ""
    ensures Rebuilt(text, open, close, PiecesOf(text, open, close, 0)) == text
  {
    PiecesRebuild(text, open, close, 0);
    SliceMeans(text, 0, |text|);
    assert text[0..|text|] == text;
  }

  lemma TagSlice(text: string, tag: string, i: nat)
    requires OccursAt(text, tag, i)
    ensures Slice(text, i, i + |tag|) == tag
  {
    OccursIsSlice(text, tag, i);
    SliceMeans(text, i, i + |tag|);
  }

  lemma FiveSlices(text: string, a: nat, b: nat, c: nat, d: nat, e: nat)
    requires a <= b <= c <= d <= e <= |text|
    ensures Slice(text, a, |text|) == Slice(text, a, b) + (Slice(text, b, c) + Slice(text, c, d) + Slice(text, d, e) + Slice(text, e, |text|))
  {
    TwoSlices(text, b, c, d);
    TwoSlices(text, b, d, e);
    TwoSlices(text, b, e, |text|);
    TwoSlices(text, a, b, |text|);
  }

  lemma TwoSlices(text: string, a: nat, b: nat, c: nat)
    requires a <= b <= c <= |text|
    ensures Slice(text, a, c) == Slice(text, a, b) + Slice(text, b, c)
  {
    SliceMeans(text, a, b);
    SliceMeans(text, b, c);
    SliceMeans(text, a, c);
    assert text[a..c] == text[a..b] + text[b..c];
    assert Slice(text, a, c) == Slice(text, a, b) + Slice(text, b, c);
  }

  /** These are the matches that replacing every lazy match, left to right, finds. */
  ghost predicate LazySplit(pieces: Pieces, text: string, open: string, close: string, from: nat) {
    pieces.from == from &&
    match pieces
    case Rest(_) => LeftmostMatch(text, open, close, from, None)
    case Cut(_, span, more) =>
      LeftmostMatch(text, open, close, from, Some(span)) && LazySplit(more, text, open, close, span.end + |close|)
  }

  /** The scan finds exactly what lazy matching does, orphan and nested opening tags included. */
  lemma {:induction false} LazySplitIff(pieces: Pieces, text: string, open: string, close: string, from: nat)
    requires close != "" && from <= |text|
    ensures LazySplit(pieces, text, open, close, from) <==> pieces == PiecesOf(text, open, close, from)
    decreases pieces
  {
    var found := Find(text, open, close, from);
    FindIsLeftmost(text, open, close, from);
    match pieces
    case Rest(_) =>
      if LeftmostMatch(text, open, close, from, None) {
        LeftmostMatchIsUnique(text, open, close, from, found, None);
      }
    case Cut(_, span, more) =>
      if LeftmostMatch(text, open, close, from, Some(span)) {
        LeftmostMatchIsUnique(text, open, close, from, found, Some(span));
        LazySplitIff(more, text, open, close, span.end + |close|);
      }
  }

  // ------------------------------------------------------- the same, on strings alone

  /** The text without its blocks. */
  ghost function Strip(text: string, open: string, close: string): string
    requires close != ""
  {
    Outside(text, PiecesOf(text, open, close, 0))
  }

  /** The trimmed contents of the blocks that have any. */
  ghost function Contents(text: string, open: string, close: string): seq<string>
    requires close != ""
  {
    Bodies(text, open, PiecesOf(text, open, close, 0))
  }

  lemma OccursShift(text: string, rest: string, p: string, k: nat, i: nat)
    requires k <= |text| && rest == text[k..]
    ensures OccursAt(rest, p, i) <==> OccursAt(text, p, k + i)
  {
    OccursIsSlice(rest, p, i);
    OccursIsSlice(text, p, k + i);
    if i + |p| <= |rest| {
      assert rest[i..i + |p|] == text[k + i..k + i + |p|];
    }
  }

  function Shifted(r: Option<nat>, k: nat): Option<nat> {
    if r.Some? then Some(k + r.value) else None
  }

  lemma {:induction false} IndexShift(text: string, rest: string, p: string, k: nat, from: nat)
    requires k <= |text| && rest == text[k..]
    ensures IndexOf(text, p, k + from) == Shifted(IndexOf(rest, p, from), k)
    decreases |rest| - from
  {
    OccursShift(text, rest, p, k, from);
    if !OccursAt(rest, p, from) && from < |rest| {
      IndexShift(text, rest, p, k, from + 1);
    }
  }

  lemma FindShift(text: string, rest: string, open: string, close: string, k: nat, from: nat)
    requires k <= |text| && rest == text[k..]
    ensures Find(text, open, close, k + from) ==
      match Find(rest, open, close, from)
      case None => None
      case Some(span) => Some(Span(k + span.start, k + span.end))
  {
    IndexShift(text, rest, open, k, from);
    var o := IndexOf(rest, open, from);
    if o.Some? {
      IndexShift(text, rest, close, k, o.value + |open|);
    }
  }

  lemma SliceShift(text: string, rest: string, k: nat, a: nat, b: nat)
    requires k <= |text| && rest == text[k..] && a <= b <= |rest|
    ensures Slice(text, k + a, k + b) == Slice(rest, a, b)
  {
    SliceMeans(text, k + a, k + b);
    SliceMeans(rest, a, b);
  }

  /** The scan of a text from a position on is the scan of what is left there. */
  lemma {:induction false} OutsideShift(text: string, rest: string, open: string, close: string, k: nat, from: nat)
    requires close != "" && k <= |text| && rest == text[k..] && from <= |rest|
    ensures Outside(text, PiecesOf(text, open, close, k + from)) == Outside(rest, PiecesOf(rest, open, close, from))
    decreases |rest| - from
  {
    FindShift(text, rest, open, close, k, from);
    match Find(rest, open, close, from)
    case None => SliceShift(text, rest, k, from, |rest|);
    case Some(span) =>
      OutsideShift(text, rest, open, close, k, span.end + |close|);
      SliceShift(text, rest, k, from, span.start);
  }

  lemma BodyShift(text: string, rest: string, open: string, k: nat, span: Span, moved: Span)
    requires k <= |text| && rest == text[k..] && span.start + |open| <= span.end <= |rest|
    requires moved == Span(k + span.start, k + span.end)
    ensures BodyOf(text, open, moved) == BodyOf(rest, open, span)
  {
    SliceShift(text, rest, k, span.start + |open|, span.end);
    assert k + (span.start + |open|) == moved.start + |open|;
  }

  lemma {:induction false} BodiesShift(text: string, rest: string, open: string, close: string, k: nat, from: nat)
    requires close != "" && k <= |text| && rest == text[k..] && from <= |rest|
    ensures Bodies(text, open, PiecesOf(text, open, close, k + from)) == Bodies(rest, open, PiecesOf(rest, open, close, from))
    decreases |rest| - from
  {
    FindShift(text, rest, open, close, k, from);
    match Find(rest, open, close, from)
    case None =>
    case Some(span) =>
      var next := span.end + |close|;
      var moved := Span(k + span.start, k + span.end);
      var more, more' := PiecesOf(rest, open, close, next), PiecesOf(text, open, close, k + next);
      BodiesShift(text, rest, open, close, k, next);
      BodyShift(text, rest, open, k, span, moved);
      assert PiecesOf(text, open, close, k + from) == Cut(k + from, moved, more');
      BodiesOfCut(text, open, k + from, moved, more');
      BodiesOfCut(rest, open, from, span, more);
  }

  lemma BodiesOfCut(text: string, open: string, from: nat, span: Span, more: Pieces)
    ensures Bodies(text, open, Cut(from, span, more)) == NonEmpty(Trim(BodyOf(text, open, span))) + Bodies(text, open, more)
  {
  }

  /** The text is `front`, a block with this body, and `rest`; it is the first block, and ends where it can. */
  ghost predicate FirstBlock(text: string, open: string, close: string, front: string, body: string, rest: string) {
    && text == front + open + body + close + rest
    && MatchAt(text, open, close, |front|, |front + open + body|)
    && forall k: nat | k < |front| :: !Starts(text, open, close, k)
  }

  /** Stripping takes the first block out and goes on behind it; the contents are those of the blocks, in order. */
  lemma StripTakesFirst(text: string, open: string, close: string, front: string, body: string, rest: string)
    requires close != "" && FirstBlock(text, open, close, front, body, rest)
    ensures Strip(text, open, close) == front + Strip(rest, open, close)
    ensures Contents(text, open, close) == (if Trim(body) == "" then [] else [Trim(body)]) + Contents(rest, open, close)
  {
    var j := |front + open + body|;
    var next := j + |close|;
    FirstIsFound(text, open, close, front, body, rest);
    CutText(text, open, close, front, body, rest);
    OutsideShift(text, rest, open, close, next, 0);
    BodiesShift(text, rest, open, close, next, 0);
    var span, more := Span(|front|, j), PiecesOf(text, open, close, next);
    assert PiecesOf(text, open, close, 0) == Cut(0, span, more);
    BodiesOfCut(text, open, 0, span, more);
    assert BodyOf(text, open, span) == body;
  }

  lemma FirstIsFound(text: string, open: string, close: string, front: string, body: string, rest: string)
    requires FirstBlock(text, open, close, front, body, rest)
    ensures Find(text, open, close, 0) == Some(Span(|front|, |front + open + body|))
  {
    FindIsLeftmost(text, open, close, 0);
    LeftmostMatchIsUnique(text, open, close, 0, Find(text, open, close, 0), Some(Span(|front|, |front + open + body|)));
  }

  lemma CutText(text: string, open: string, close: string, front: string, body: string, rest: string)
    requires text == front + open + body + close + rest
    ensures text[|front + open + body| + |close|..] == rest
    ensures Slice(text, 0, |front|) == front && Slice(text, |front| + |open|, |front + open + body|) == body
  {
    SliceMeans(text, 0, |front|);
    SliceMeans(text, |front| + |open|, |front + open + body|);
    assert text[..|front|] == front;
    assert text[|front + open|..|front + open + body|] == body;
  }

  /** Without a block nothing is stripped. */
  lemma StripKeepsRest(text: string, open: string, close: string)
    requires close != "" && forall k: nat :: !Starts(text, open, close, k)
    ensures Strip(text, open, close) == text && Contents(text, open, close) == []
  {
    FindIsLeftmost(text, open, close, 0);
    LeftmostMatchIsUnique(text, open, close, 0, Find(text, open, close, 0), None);
    SliceMeans(text, 0, |text|);
    assert text[0..|text|] == text;
  }

  /** Every text has a first block or none, so the last two lemmas say what stripping is. */
  lemma FirstBlockOrNone(text: string, open: string, close: string) returns (front: string, body: string, rest: string)
    requires close != ""
    ensures FirstBlock(text, open, close, front, body, rest) || forall k: nat :: !Starts(text, open, close, k)
  {
    FindIsLeftmost(text, open, close, 0);
    front, body, rest := "", "", "";
    var found := Find(text, open, close, 0);
    if found.Some? {
      var i, j := found.value.start, found.value.end;
      front, body, rest := text[..i], text[i + |open|..j], text[j + |close|..];
      OccursIsSlice(text, open, i);
      OccursIsSlice(text, close, j);
      assert text == text[..i] + text[i..i + |open|] + text[i + |open|..j] + text[j..j + |close|] + text[j + |close|..];
    }
  }

  // ------------------------------------------------------- what the scan finds

  /** How many positions `indexOf` looks at. */
  function Probes(s: string, p: string, from: nat): nat
    decreases |s| - from
  {
    if OccursAt(s, p, from) || from >= |s| then 1 else 1 + Probes(s, p, from + 1)
  }

  lemma {:induction false} ProbesOf(s: string, p: string, from: nat)
    requires from <= |s|
    ensures var found := IndexOf(s, p, from);
            Probes(s, p, from) <= 1 + (if found.Some? then found.value else |s|) - from
    decreases |s| - from
  {
    if !OccursAt(s, p, from) && from < |s| {
      ProbesOf(s, p, from + 1);
    }
  }

  /** `indexOf`, with the positions it looks at. */
  method Seek(s: string, p: string, from: nat) returns (r: Option<nat>, ghost probes: nat)
    requires from <= |s|
    ensures r == IndexOf(s, p, from) && probes == Probes(s, p, from)
    ensures probes <= 1 + (if r.Some? then r.value else |s|) - from
  {
    r, probes := IndexOf(s, p, from), Probes(s, p, from);
    ProbesOf(s, p, from);
  }

  // The loops are held to any function that agrees with every single step of the scan.

  ghost predicate KeepsFrom(text: string, open: string, close: string, at: nat -> string, from: nat) {
    match Find(text, open, close, from)
    case None => at(from) == Slice(text, from, |text|)
    case Some(span) => at(from) == Slice(text, from, span.start) + at(span.end + |close|)
  }

  ghost predicate CapturesFrom(text: string, open: string, close: string, at: nat -> seq<string>, from: nat) {
    match Find(text, open, close, from)
    case None => at(from) == []
    case Some(span) => at(from) == NonEmpty(Trim(BodyOf(text, open, span))) + at(span.end + |close|)
  }

  lemma PiecesAgree(text: string, open: string, close: string, from: nat, outside: nat -> string, bodies: nat -> seq<string>)
    requires close != "" && from <= |text|
    requires forall n: nat | n <= |text| :: outside(n) == Outside(text, PiecesOf(text, open, close, n))
    requires forall n: nat | n <= |text| :: bodies(n) == Bodies(text, open, PiecesOf(text, open, close, n))
    ensures KeepsFrom(text, open, close, outside, from) && CapturesFrom(text, open, close, bodies, from)
  {
  }

  lemma SplitRest(before: string, text: string, from: nat, i: nat)
    requires from <= i <= |text|
    ensures before + Slice(text, from, |text|) == before + Slice(text, from, i) + Slice(text, i, |text|)
  {
    TwoSlices(text, from, i, |text|);
    Reassociated(before + Slice(text, from, |text|), before, Slice(text, from, i), Slice(text, i, |text|));
  }

  method StripLoop(text: string, open: string, close: string, ghost at: nat -> string) returns (out: string, ghost probes: nat)
    requires open != "" && close != ""
    requires forall from: nat | from <= |text| :: KeepsFrom(text, open, close, at, from)
    ensures out == at(0)
    ensures probes <= |text| + 1
  {
    out, probes := "", 0;
    var cursor := 0;
    EmptySum(at(0), "");
    while cursor < |text|
      invariant cursor <= |text| && probes <= cursor
      invariant at(0) == out + at(cursor)
      decreases |text| - cursor
    {
      assert KeepsFrom(text, open, close, at, cursor);
      var nextOpen;
      ghost var looked;
      nextOpen, looked := Seek(text, open, cursor);
      probes := probes + looked;
      if nextOpen.None? {
        out := out + Slice(text, cursor, |text|);
        return;
      }
      ghost var was := out;
      out := out + Slice(text, cursor, nextOpen.value);
      var afterOpen := nextOpen.value + |open|;
      var closeAt;
      closeAt, looked := Seek(text, close, afterOpen);
      probes := probes + looked;
      if closeAt.None? {
        out := out + Slice(text, nextOpen.value, |text|);
        SplitRest(was, text, cursor, nextOpen.value);
        return;
      }
      Reassociated(at(0), was, Slice(text, cursor, nextOpen.value), at(closeAt.value + |close|));
      cursor := closeAt.value + |close|;
    }
    assert KeepsFrom(text, open, close, at, cursor);
    EmptySum(at(0), out);
  }

  /**
   The text without its blocks. The positions looked at are counted: they are at
   most one more than the text is long.
   */
  method StripOneTag(text: string, open: string, close: string) returns (out: string, ghost probes: nat)
    requires open != "" && close != ""
    ensures out == Outside(text, PiecesOf(text, open, close, 0))
    ensures probes <= |text| + 1
    ensures out == Strip(text, open, close)
  {
    ghost var outside: nat -> string := (n: nat) => if n <= |text| then Outside(text, PiecesOf(text, open, close, n)) else "";
    ghost var bodies: nat -> seq<string> := (n: nat) => if n <= |text| then Bodies(text, open, PiecesOf(text, open, close, n)) else [];
    forall from: nat | from <= |text|
      ensures KeepsFrom(text, open, close, outside, from)
    {
      PiecesAgree(text, open, close, from, outside, bodies);
    }
    out, probes := StripLoop(text, open, close, outside);
  }

  /** The trimmed body of one match joins the results, unless it is empty. */
  method PushValue(input: string, openTag: string, closeTag: string, ghost at: nat -> seq<string>, ghost from: nat, i: nat, j: nat,
                   before: seq<string>)
    returns (results: seq<string>)
    requires CapturesFrom(input, openTag, closeTag, at, from) && Find(input, openTag, closeTag, from) == Some(Span(i, j))
    requires at(0) == before + at(from)
    ensures at(0) == results + at(j + |closeTag|)
  {
    results := before;
    var value := Trim(Slice(input, i + |openTag|, j));
    EmptySum(before, before);
    Reassociated(at(0), before, NonEmpty(value), at(j + |closeTag|));
    if value != "" {
      results := results + [value];
    }
  }

  lemma NothingLeft(input: string, openTag: string, closeTag: string, at: nat -> seq<string>, from: nat, results: seq<string>)
    requires CapturesFrom(input, openTag, closeTag, at, from) && Find(input, openTag, closeTag, from).None?
    requires at(0) == results + at(from)
    ensures results == at(0)
  {
    EmptySum(results, results);
  }

  method ExtractLoop(input: string, openTag: string, closeTag: string, ghost at: nat -> seq<string>)
    returns (results: seq<string>, ghost probes: nat)
    requires openTag != "" && closeTag != ""
    requires forall from: nat | from <= |input| :: CapturesFrom(input, openTag, closeTag, at, from)
    ensures results == at(0)
    ensures probes <= |input| + 1
  {
    results := [];
    var searchFrom := 0;
    var openIdx;
    openIdx, probes := Seek(input, openTag, searchFrom);
    EmptySum(at(0), results);
    while openIdx.Some?
      invariant searchFrom <= |input| && openIdx == IndexOf(input, openTag, searchFrom)
      invariant probes <= 1 + if openIdx.Some? then openIdx.value else |input|
      invariant at(0) == results + at(searchFrom)
      decreases |input| - searchFrom
    {
      assert CapturesFrom(input, openTag, closeTag, at, searchFrom);
      var afterOpen := openIdx.value + |openTag|;
      var closeIdx;
      ghost var looked;
      closeIdx, looked := Seek(input, closeTag, afterOpen);
      probes := probes + looked;
      if closeIdx.None? {
        NothingLeft(input, openTag, closeTag, at, searchFrom, results);
        return;
      }
      results := PushValue(input, openTag, closeTag, at, searchFrom, openIdx.value, closeIdx.value, results);
      searchFrom := closeIdx.value + |closeTag|;
      openIdx, looked := Seek(input, openTag, searchFrom);
      probes := probes + looked;
    }
    assert CapturesFrom(input, openTag, closeTag, at, searchFrom);
    NothingLeft(input, openTag, closeTag, at, searchFrom, results);
  }

  /** The contents of the blocks, with the same bound on the work. */
  method ExtractTagContents(input: string, openTag: string, closeTag: string) returns (results: seq<string>, ghost probes: nat)
    requires openTag != "" && closeTag != ""
    ensures results == Bodies(input, openTag, PiecesOf(input, openTag, closeTag, 0))
    ensures probes <= |input| + 1
    ensures results == Contents(input, openTag, closeTag)
  {
    ghost var outside: nat -> string := (n: nat) => if n <= |input| then Outside(input, PiecesOf(input, openTag, closeTag, n)) else "";
    ghost var bodies: nat -> seq<string> := (n: nat) => if n <= |input| then Bodies(input, openTag, PiecesOf(input, openTag, closeTag, n)) else [];
    forall from: nat | from <= |input|
      ensures CapturesFrom(input, openTag, closeTag, bodies, from)
    {
      PiecesAgree(input, openTag, closeTag, from, outside, bodies);
    }
    results, probes := ExtractLoop(input, openTag, closeTag, bodies);
  }

  datatype Tag = Tag(open: string, close: string)

  predicate AreTags(tags: seq<Tag>) {
    forall i | 0 <= i < |tags| :: tags[i].open != "" && tags[i].close != ""
  }

  /** One pass per kind of tag, in order. */
  ghost function StripAll(text: string, tags: seq<Tag>): string
    requires AreTags(tags)
  {
    if tags == [] then text
    else
      var last := tags[|tags| - 1];
      var before := StripAll(text, tags[..|tags| - 1]);
      Outside(before, PiecesOf(before, last.open, last.close, 0))
  }

  /** Kind after kind: the blocks of one kind are stripped from what the kinds before it left. */
  lemma {:induction false} StripAllInOrder(text: string, tags: seq<Tag>, last: Tag)
    requires AreTags(tags + [last])
    ensures AreTags(tags) && last.close != ""
    ensures StripAll(text, tags + [last]) == Strip(StripAll(text, tags), last.open, last.close)
    ensures StripAll(text, []) == text
  {
    var all := tags + [last];
    assert all[..|all| - 1] == tags && all[|tags|] == last;
    assert forall i | 0 <= i < |tags| :: all[i] == tags[i];
  }

  method StripTaggedBlocks(text: string, tags: seq<Tag>) returns (result: string)
    requires AreTags(tags)
    ensures result == StripAll(text, tags)
  {
    result := text;
    for i := 0 to |tags|
      invariant result == StripAll(text, tags[..i])
    {
      assert tags[..i + 1][..i] == tags[..i];
      ghost var probes;
      result, probes := StripOneTag(result, tags[i].open, tags[i].close);
    }
    assert tags[..|tags|] == tags;
  }
}
