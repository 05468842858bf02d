/** The tag automaton: what it does with one character, whatever is in the buffer. */
module TagAutomaton {
  import opened Text

  datatype TagState = InText | TagOpen | TagClose

  datatype Candidate = Candidate(name: string, index: nat)

  datatype Config = Config(names: seq<string>, position: nat)

  datatype Control = Control(
    state: TagState,
    depth: int,
    matched: bool,
    active: seq<string>,
    candidates: seq<Candidate>,
    index: nat,
    pointer: nat)

  /** What happens to the buffer once the character is in it. */
  datatype Action = Keep | Collect | Clear

  function Start(): Control {
    Control(InText, 0, false, [], [], 0, 0)
  }

  function AllCandidates(names: seq<string>): seq<Candidate> {
    if names == [] then [] else AllCandidates(names[..|names| - 1]) + [Candidate(names[|names| - 1], 0)]
  }

  predicate Complete(c: Candidate) {
    c.index == |c.name|
  }

  /** The first candidate whose whole name was read. */
  function FindComplete(candidates: seq<Candidate>): (r: Option<string>)
    ensures r.Some? ==> candidates != []
  {
    if candidates == [] then None
    else if Complete(candidates[0]) then Some(candidates[0].name)
    else FindComplete(candidates[1..])
  }

  predicate AllAtStart(candidates: seq<Candidate>) {
    forall i | 0 <= i < |candidates| :: candidates[i].index == 0
  }

  /** The candidates a space does not rule out. */
  function AtEdges(candidates: seq<Candidate>): seq<Candidate> {
    if candidates == [] then []
    else
      var rest, last := AtEdges(candidates[..|candidates| - 1]), candidates[|candidates| - 1];
      if last.index == 0 || Complete(last) then rest + [last] else rest
  }

  /** The candidates whose next character is `c`, advanced past it. */
  function Advance(candidates: seq<Candidate>, c: char): seq<Candidate> {
    if candidates == [] then []
    else
      var rest, last := Advance(candidates[..|candidates| - 1], c), candidates[|candidates| - 1];
      if last.index < |last.name| && last.name[last.index] == c then rest + [last.(index := last.index + 1)] else rest
  }

  function ClosingName(cfg: Config, ctl: Control): string {
    if ctl.active != [] then ctl.active[|ctl.active| - 1]
    else if cfg.names != [] then cfg.names[0]
    else ""
  }

  function Opening(cfg: Config, ctl: Control): seq<Candidate> {
    if ctl.depth == 0 then AllCandidates(cfg.names)
    else if ctl.active != [] && ctl.active[|ctl.active| - 1] != "" then [Candidate(ctl.active[|ctl.active| - 1], 0)]
    else []
  }

  function NextInText(cfg: Config, ctl: Control, c: char): (Control, Action) {
    if c == '<' && (ctl.pointer <= cfg.position + 1 || ctl.matched)
    then (ctl.(state := TagOpen, candidates := Opening(cfg, ctl)), Keep)
    else (ctl, Collect)
  }

  function NextInOpen(ctl: Control, c: char): (Control, Action) {
    if c == '>' then
      match FindComplete(ctl.candidates)
      case Some(name) =>
        (ctl.(state := InText, active := ctl.active + [name], depth := ctl.depth + 1, matched := true),
         if ctl.matched then Keep else Clear)
      case None => (ctl.(state := InText), Collect)
    else if AllAtStart(ctl.candidates) && c == '/' then (ctl.(state := TagClose, index := 0), Keep)
    else if c == ' ' then (ctl.(candidates := AtEdges(ctl.candidates)), Keep)
    else
      var left := Advance(ctl.candidates, c);
      if left == [] then (ctl.(state := InText, candidates := left), Collect) else (ctl.(candidates := left), Keep)
  }

  function NextInClose(cfg: Config, ctl: Control, c: char): (Control, Action) {
    var name := ClosingName(cfg, ctl);
    if c == '>' && ctl.index == |name| then
      var depth := ctl.depth - 1;
      (ctl.(state := InText, depth := depth, matched := depth > 0,
            active := if ctl.active != [] then ctl.active[..|ctl.active| - 1] else []),
       if depth > 0 then Keep else Clear)
    else if c == ' ' && (ctl.index == 0 || ctl.index == |name|) then (ctl, Keep)
    else if ctl.index < |name| && name[ctl.index] == c then (ctl.(index := ctl.index + 1), Keep)
    else (ctl.(state := InText), Collect)
  }

  function Next(cfg: Config, before: Control, c: char): (Control, Action) {
    var ctl := before.(pointer := before.pointer + 1);
    match ctl.state
    case InText => NextInText(cfg, ctl, c)
    case TagOpen => NextInOpen(ctl, c)
    case TagClose => NextInClose(cfg, ctl, c)
  }

  function Max0(d: int): nat {
    if d > 0 then d else 0
  }

  /** `matched` means inside a tag, and the stack is as high as that is deep. */
  predicate Sound(ctl: Control) {
    && (ctl.matched <==> ctl.depth > 0)
    && |ctl.active| == Max0(ctl.depth)
    && (ctl.depth < 0 ==> ctl.state != TagOpen || ctl.candidates == [])
  }

  /**
   A step keeps the automaton sound. The buffer is handed out exactly when the
   automaton falls back to text with the same depth; a change of depth ends a tag,
   whose text stays in the buffer only while inside another tag on both sides.
   */
  lemma NextIsSound(cfg: Config, ctl: Control, c: char)
    requires Sound(ctl)
    ensures var (ctl', action) := Next(cfg, ctl, c);
            && Sound(ctl')
            && (ctl'.state != InText ==> action == Keep && ctl'.depth == ctl.depth)
            && (ctl'.state == InText && ctl'.depth == ctl.depth ==> action == Collect)
            && (ctl'.depth != ctl.depth ==> action == if ctl.matched && ctl'.matched then Keep else Clear)
  {
  }

  lemma SoundStep(cfg: Config, ctl: Control, c: char)
    requires Sound(ctl)
    ensures Sound(Next(cfg, ctl, c).0)
  {
  }

  function ControlAfter(cfg: Config, input: string): (ctl: Control)
    ensures Sound(ctl)
  {
    if input == "" then Start()
    else
      var before := ControlAfter(cfg, input[..|input| - 1]);
      SoundStep(cfg, before, input[|input| - 1]);
      Next(cfg, before, input[|input| - 1]).0
  }
}

/** The matcher: the automaton with its buffer, fed in chunks. */
module TagMatching {
  import opened TagAutomaton

  /** A character of the output and the `matched` flag of the chunk it is in. */
  type Flagged = (char, bool)

  function Flag(s: string, matched: bool): (r: seq<Flagged>)
    ensures |r| == |s|
  {
    seq(|s|, i requires 0 <= i < |s| => (s[i], matched))
  }

  datatype Matcher = Matcher(ctl: Control, cached: string, out: seq<Flagged>)

  function Collected(m: Matcher): Matcher {
    Matcher(m.ctl, "", m.out + Flag(m.cached, m.ctl.matched))
  }

  function Push(cfg: Config, m: Matcher, c: char): Matcher {
    var (ctl, action) := Next(cfg, m.ctl, c);
    var cached := m.cached + [c];
    match action
    case Keep => Matcher(ctl, cached, m.out)
    case Collect => Matcher(ctl, "", m.out + Flag(cached, ctl.matched))
    case Clear => Matcher(ctl, "", m.out)
  }

  function PushAll(cfg: Config, m: Matcher, s: string): Matcher {
    if s == "" then m else Push(cfg, PushAll(cfg, m, s[..|s| - 1]), s[|s| - 1])
  }

  /** The end of `update`: the buffer is handed out unless a tag is under way. */
  function Boundary(m: Matcher): Matcher {
    if m.ctl.state == InText then Collected(m) else m
  }

  function Updates(cfg: Config, chunks: seq<string>): Matcher {
    if chunks == [] then Matcher(Start(), "", [])
    else Boundary(PushAll(cfg, Updates(cfg, chunks[..|chunks| - 1]), chunks[|chunks| - 1]))
  }

  /** Everything the calls return: one `update` per chunk, then `final`. */
  function Output(cfg: Config, chunks: seq<string>): seq<Flagged> {
    Collected(Updates(cfg, chunks)).out
  }

  function Concat(chunks: seq<string>): string {
    if chunks == [] then "" else Concat(chunks[..|chunks| - 1]) + chunks[|chunks| - 1]
  }

  // ------------------------------------------------- what the input consists of

  /**
   How a character of the input turned out: text at some flag, part of a tag that
   was still open at the end, or part of a recognised tag. A recognised tag is
   nested when it neither opens nor closes the outermost region.
   */
  datatype Mark = Plain(matched: bool) | Unfinished(matched: bool) | TagText(nested: bool)

  /**
   The automaton's view of the input, with no buffer in it. `pending` counts the
   characters of the tag under way; `afterNested` says that the text directly in
   front of it is a nested tag; `loses` that an outermost region was closed right
   behind a nested tag.
   */
  datatype Scan = Scan(ctl: Control, pending: nat, afterNested: bool, loses: bool, marks: seq<Mark>)

  function Repeat<T>(x: T, n: nat): seq<T> {
    seq(n, _ => x)
  }

  function ScanStep(cfg: Config, s: Scan, c: char): (s': Scan)
    requires s.pending <= |s.marks|
    ensures |s'.marks| == |s.marks| + 1 && s'.pending <= |s'.marks|
    ensures s'.ctl == Next(cfg, s.ctl, c).0
  {
    var (ctl, action) := Next(cfg, s.ctl, c);
    var settled := s.marks[..|s.marks| - s.pending];
    var count := s.pending + 1;
    if ctl.state != InText then Scan(ctl, count, s.afterNested, s.loses, settled + Repeat(Unfinished(ctl.matched), count))
    else if ctl.depth == s.ctl.depth then Scan(ctl, 0, false, s.loses, settled + Repeat(Plain(ctl.matched), count))
    else Scan(ctl, 0, action == Keep, s.loses || (action == Clear && s.afterNested),
              settled + Repeat(TagText(action == Keep), count))
  }

  function ScanOf(cfg: Config, input: string): (s: Scan)
    ensures |s.marks| == |input| && s.pending <= |input|
    ensures s.ctl == ControlAfter(cfg, input)
  {
    if input == "" then Scan(Start(), 0, false, false, [])
    else ScanStep(cfg, ScanOf(cfg, input[..|input| - 1]), input[|input| - 1])
  }

  function FlagOf(mark: Mark): bool {
    mark.TagText? || mark.matched
  }

  /** The kept characters, in order, each with its flag. */
  function Select(input: string, marks: seq<Mark>, kept: seq<bool>): seq<Flagged>
    requires |input| == |marks| == |kept|
  {
    if input == "" then []
    else
      var n := |input| - 1;
      Select(input[..n], marks[..n], kept[..n]) + (if kept[n] then [(input[n], FlagOf(marks[n]))] else [])
  }

  /** Of the characters decided on: all text is kept, no outermost tag is; nested tags may be. */
  predicate Keeps(marks: seq<Mark>, kept: seq<bool>) {
    && |kept| <= |marks|
    && (forall i | 0 <= i < |kept| && !marks[i].TagText? :: kept[i])
    && (forall i | 0 <= i < |kept| && marks[i] == TagText(false) :: !kept[i])
  }

  predicate KeepsNested(marks: seq<Mark>, kept: seq<bool>) {
    |kept| <= |marks| && forall i | 0 <= i < |kept| && marks[i] == TagText(true) :: kept[i]
  }

  // ------------------------------------------------------- the buffer invariant

  /** The buffer holds nested tags and then the tag under way; `a` characters are dealt with. */
  ghost predicate BufferedFrom(s: Scan, a: nat) {
    var n := |s.marks|;
    && s.pending <= n - a
    && Sound(s.ctl)
    && (forall i | a <= i < n - s.pending :: s.marks[i] == TagText(true))
    && (forall i | n - s.pending <= i < n :: s.marks[i] == Unfinished(s.ctl.matched))
    && (a < n - s.pending ==> s.afterNested && s.ctl.matched)
    && (s.ctl.state == InText <==> s.pending == 0)
  }

  /** What was handed out so far is what was kept of the characters dealt with. */
  ghost predicate Emitted(input: string, marks: seq<Mark>, out: seq<Flagged>, kept: seq<bool>) {
    && |kept| <= |input| == |marks|
    && out == Select(input[..|kept|], marks[..|kept|], kept)
    && Keeps(marks, kept)
  }

  ghost predicate Buffered(input: string, s: Scan, m: Matcher, kept: seq<bool>) {
    && |s.marks| == |input|
    && m.ctl == s.ctl
    && Emitted(input, s.marks, m.out, kept)
    && m.cached == input[|kept|..]
    && BufferedFrom(s, |kept|)
  }

  lemma EmittedAll(input: string, marks: seq<Mark>, out: seq<Flagged>, kept: seq<bool>)
    requires Emitted(input, marks, out, kept) && |kept| == |input|
    ensures out == Select(input, marks, kept) && Keeps(marks, kept)
  {
    assert input[..|kept|] == input && marks[..|kept|] == marks;
  }

  lemma {:induction false} SelectAppend(input: string, marks: seq<Mark>, kept: seq<bool>, input': string, marks': seq<Mark>, kept': seq<bool>)
    requires |input| == |marks| == |kept| && |input'| == |marks'| == |kept'|
    ensures Select(input + input', marks + marks', kept + kept') == Select(input, marks, kept) + Select(input', marks', kept')
  {
    if input' == "" {
      assert input + input' == input && marks + marks' == marks && kept + kept' == kept;
    } else {
      var n := |input'| - 1;
      var m := |input| + n;
      SelectAppend(input, marks, kept, input'[..n], marks'[..n], kept'[..n]);
      assert (input + input')[..m] == input + input'[..n];
      assert (marks + marks')[..m] == marks + marks'[..n];
      assert (kept + kept')[..m] == kept + kept'[..n];
    }
  }

  lemma {:induction false} SelectAll(input: string, marks: seq<Mark>, matched: bool)
    requires |input| == |marks| && forall i | 0 <= i < |marks| :: FlagOf(marks[i]) == matched
    ensures Select(input, marks, Repeat(true, |input|)) == Flag(input, matched)
  {
    if input != "" {
      var n := |input| - 1;
      SelectAll(input[..n], marks[..n], matched);
      assert Repeat(true, |input|)[..n] == Repeat(true, n);
      assert Flag(input, matched) == Flag(input[..n], matched) + [(input[n], matched)];
    }
  }

  lemma {:induction false} SelectNone(input: string, marks: seq<Mark>)
    requires |input| == |marks|
    ensures Select(input, marks, Repeat(false, |input|)) == []
  {
    if input != "" {
      var n := |input| - 1;
      SelectNone(input[..n], marks[..n]);
      assert Repeat(false, |input|)[..n] == Repeat(false, n);
    }
  }

  /** The buffer is handed out with one flag. */
  lemma EmitAll(input: string, marks: seq<Mark>, out: seq<Flagged>, kept: seq<bool>, matched: bool)
    requires Emitted(input, marks, out, kept)
    requires forall i | |kept| <= i < |marks| :: FlagOf(marks[i]) == matched && marks[i] != TagText(false)
    ensures Emitted(input, marks, out + Flag(input[|kept|..], matched), kept + Repeat(true, |input| - |kept|))
  {
    var a, rest := |kept|, Repeat(true, |input| - |kept|);
    SelectAll(input[a..], marks[a..], matched);
    SelectAppend(input[..a], marks[..a], kept, input[a..], marks[a..], rest);
    assert input[..a] + input[a..] == input[..|kept + rest|] && marks[..a] + marks[a..] == marks[..|kept + rest|];
  }

  /** The buffer is thrown away. */
  lemma EmitNone(input: string, marks: seq<Mark>, out: seq<Flagged>, kept: seq<bool>)
    requires Emitted(input, marks, out, kept)
    requires forall i | |kept| <= i < |marks| :: marks[i].TagText?
    ensures Emitted(input, marks, out, kept + Repeat(false, |input| - |kept|))
  {
    var a, rest := |kept|, Repeat(false, |input| - |kept|);
    SelectNone(input[a..], marks[a..]);
    SelectAppend(input[..a], marks[..a], kept, input[a..], marks[a..], rest);
    assert input[..a] + input[a..] == input[..|kept + rest|] && marks[..a] + marks[a..] == marks[..|kept + rest|];
  }

  // ------------------------------------------------------- each step keeps it

  /** What a step of the automaton does to the marks: the pending ones are overwritten. */
  lemma ScanStepMarks(cfg: Config, s: Scan, c: char)
    requires s.pending <= |s.marks|
    ensures var n, s' := |s.marks|, ScanStep(cfg, s, c);
            && |s'.marks| == n + 1
            && s'.ctl == Next(cfg, s.ctl, c).0
            && s'.marks[..n - s.pending] == s.marks[..n - s.pending]
            && (forall i | n - s.pending <= i <= n :: s'.marks[i] == s'.marks[n])
  {
  }

  /** What became of the buffered characters in a step. */
  function KeptAfter(action: Action, kept: seq<bool>, buffered: nat): seq<bool> {
    match action
    case Keep => kept
    case Collect => kept + Repeat(true, buffered)
    case Clear => kept + Repeat(false, buffered)
  }

  lemma PrefixKeepsEmitted(input: string, marks: seq<Mark>, input': string, marks': seq<Mark>, out: seq<Flagged>, kept: seq<bool>)
    requires Emitted(input, marks, out, kept)
    requires |input'| == |marks'| >= |kept|
    requires input'[..|kept|] == input[..|kept|] && marks'[..|kept|] == marks[..|kept|]
    ensures Emitted(input', marks', out, kept)
  {
  }

  /** The three things that can happen to the buffer, on the output side. */
  lemma ActionEmits(input: string, marks: seq<Mark>, out: seq<Flagged>, kept: seq<bool>, action: Action, matched: bool,
                    out': seq<Flagged>, kept': seq<bool>)
    requires Emitted(input, marks, out, kept)
    requires action == Collect ==> forall i | |kept| <= i < |marks| :: FlagOf(marks[i]) == matched && marks[i] != TagText(false)
    requires action == Clear ==> forall i | |kept| <= i < |marks| :: marks[i].TagText?
    requires out' == if action == Collect then out + Flag(input[|kept|..], matched) else out
    requires kept' == KeptAfter(action, kept, |input| - |kept|)
    ensures Emitted(input, marks, out', kept')
  {
    match action
    case Keep =>
    case Collect => EmitAll(input, marks, out, kept, matched);
    case Clear => EmitNone(input, marks, out, kept);
  }

  lemma PushIsBuffered(cfg: Config, input: string, s: Scan, m: Matcher, kept: seq<bool>, c: char,
                       s': Scan, m': Matcher, kept': seq<bool>)
    requires Buffered(input, s, m, kept)
    requires s' == ScanStep(cfg, s, c) && m' == Push(cfg, m, c)
    requires kept' == KeptAfter(Next(cfg, s.ctl, c).1, kept, |input| + 1 - |kept|)
    ensures Buffered(input + [c], s', m', kept')
  {
    var action, input', a := Next(cfg, s.ctl, c).1, input + [c], |kept|;
    ScanStepMarks(cfg, s, c);
    assert s'.marks[..a] == s'.marks[..|input| - s.pending][..a] == s.marks[..a];
    assert input'[..a] == input[..a] && input'[a..] == m.cached + [c];
    PrefixKeepsEmitted(input, s.marks, input', s'.marks, m.out, kept);
    MarksBuffered(cfg, s, c, a);
    PushParts(cfg, m, c);
    ActionEmits(input', s'.marks, m.out, kept, action, s'.ctl.matched, m'.out, kept');
    IsBuffered(input', s', m', kept');
  }

  lemma IsBuffered(input: string, s: Scan, m: Matcher, kept: seq<bool>)
    requires |s.marks| == |input| && m.ctl == s.ctl && Emitted(input, s.marks, m.out, kept)
    requires m.cached == if |kept| < |input| then input[|kept|..] else ""
    requires BufferedFrom(s, |kept|)
    ensures Buffered(input, s, m, kept)
  {
  }

  lemma PushParts(cfg: Config, m: Matcher, c: char)
    ensures var ((ctl, action), m') := (Next(cfg, m.ctl, c), Push(cfg, m, c));
            && m'.ctl == ctl
            && m'.cached == (if action == Keep then m.cached + [c] else "")
            && m'.out == (if action == Collect then m.out + Flag(m.cached + [c], ctl.matched) else m.out)
  {
  }

  lemma MarksBuffered(cfg: Config, s: Scan, c: char, a: nat)
    requires a <= |s.marks| && BufferedFrom(s, a)
    ensures var (s', action) := (ScanStep(cfg, s, c), Next(cfg, s.ctl, c).1);
            && |s'.marks| == |s.marks| + 1
            && BufferedFrom(s', if action == Keep then a else |s'.marks|)
            && (action == Collect ==> forall i | a <= i < |s'.marks| :: FlagOf(s'.marks[i]) == s'.ctl.matched && s'.marks[i] != TagText(false))
            && (action == Clear ==> forall i | a <= i < |s'.marks| :: s'.marks[i].TagText?)
  {
    NextIsSound(cfg, s.ctl, c);
    ScanStepMarks(cfg, s, c);
    var s', n := ScanStep(cfg, s, c), |s.marks|;
    forall i | a <= i < n - s.pending
      ensures s'.marks[i] == TagText(true)
    {
      assert s'.marks[i] == s'.marks[..n - s.pending][i] == s.marks[i];
    }
  }

  // ------------------------------------------------------- nested tags

  /** Without a loss every nested tag was kept. */
  ghost predicate NoneLost(s: Scan, kept: seq<bool>) {
    !s.loses ==> KeepsNested(s.marks, kept)
  }

  /** Fed in one piece, the buffer holds nested tags whenever it can, and a loss drops one. */
  ghost predicate Whole(s: Scan, kept: seq<bool>) {
    && s.pending <= |s.marks|
    && (s.afterNested <==> |kept| < |s.marks| - s.pending)
    && (s.loses ==> !KeepsNested(s.marks, kept))
  }

  /** Fed by single characters, the buffer holds the tag under way and nothing else. */
  ghost predicate Prompt(s: Scan, kept: seq<bool>) {
    s.pending <= |s.marks| && |kept| == |s.marks| - s.pending && KeepsNested(s.marks, kept)
  }

  lemma NoneLostAfterStep(cfg: Config, s: Scan, kept: seq<bool>, c: char, s': Scan, kept': seq<bool>)
    requires |kept| <= |s.marks| && BufferedFrom(s, |kept|)
    requires s' == ScanStep(cfg, s, c) && kept' == KeptAfter(Next(cfg, s.ctl, c).1, kept, |s.marks| + 1 - |kept|)
    requires NoneLost(s, kept)
    ensures NoneLost(s', kept')
  {
  }

  lemma PromptAfterStep(cfg: Config, s: Scan, kept: seq<bool>, c: char, s': Scan, kept': seq<bool>)
    requires |kept| <= |s.marks| && BufferedFrom(s, |kept|)
    requires s' == ScanStep(cfg, s, c) && kept' == KeptAfter(Next(cfg, s.ctl, c).1, kept, |s.marks| + 1 - |kept|)
    requires Prompt(s, kept)
    ensures KeepsNested(s'.marks, kept') && (s'.ctl.state != InText ==> Prompt(s', kept'))
  {
    NextIsSound(cfg, s.ctl, c);
  }

  lemma WholeAfterStep(cfg: Config, s: Scan, kept: seq<bool>, c: char, s': Scan, kept': seq<bool>)
    requires |kept| <= |s.marks| && BufferedFrom(s, |kept|)
    requires s' == ScanStep(cfg, s, c) && kept' == KeptAfter(Next(cfg, s.ctl, c).1, kept, |s.marks| + 1 - |kept|)
    requires Whole(s, kept)
    ensures Whole(s', kept')
  {
    ScanStepMarks(cfg, s, c);
    NextIsSound(cfg, s.ctl, c);
    var n := |s.marks| - s.pending;
    if s.loses {
      var i :| 0 <= i < |kept| && s.marks[i] == TagText(true) && !kept[i];
      assert s'.marks[i] == s'.marks[..n][i] == s.marks[i] && !kept'[i];
    } else if s'.loses {
      var a := |kept|;
      assert s'.marks[a] == s'.marks[..n][a] == s.marks[a] && !kept'[a];
    }
  }

  // ------------------------------------------------------- whole runs

  lemma ScanOfNext(cfg: Config, input: string, c: char)
    ensures ScanOf(cfg, input + [c]) == ScanStep(cfg, ScanOf(cfg, input), c)
  {
    assert (input + [c])[..|input|] == input;
  }

  lemma ScanOfAppend(cfg: Config, input: string, t: string)
    requires t != ""
    ensures var (init, last) := (t[..|t| - 1], t[|t| - 1]);
            && input + t == (input + init) + [last]
            && ScanOf(cfg, input + t) == ScanStep(cfg, ScanOf(cfg, input + init), last)
  {
    var init, last := t[..|t| - 1], t[|t| - 1];
    assert input + t == (input + init) + [last];
    ScanOfNext(cfg, input + init, last);
  }

  /** How the kept characters of two points of a run are related. */
  ghost predicate Carries(s: Scan, kept: seq<bool>, s': Scan, kept': seq<bool>) {
    && (NoneLost(s, kept) ==> NoneLost(s', kept'))
    && (Whole(s, kept) ==> Whole(s', kept'))
  }

  lemma PushStep(cfg: Config, input: string, s: Scan, m: Matcher, kept: seq<bool>, c: char, s': Scan, m': Matcher)
    returns (kept': seq<bool>)
    requires Buffered(input, s, m, kept)
    requires s' == ScanStep(cfg, s, c) && m' == Push(cfg, m, c)
    ensures Buffered(input + [c], s', m', kept') && Carries(s, kept, s', kept')
    ensures Prompt(s, kept) ==> KeepsNested(s'.marks, kept') && (s'.ctl.state != InText ==> Prompt(s', kept'))
  {
    kept' := KeptAfter(Next(cfg, s.ctl, c).1, kept, |input| + 1 - |kept|);
    PushIsBuffered(cfg, input, s, m, kept, c, s', m', kept');
    if NoneLost(s, kept) { NoneLostAfterStep(cfg, s, kept, c, s', kept'); }
    if Whole(s, kept) { WholeAfterStep(cfg, s, kept, c, s', kept'); }
    if Prompt(s, kept) { PromptAfterStep(cfg, s, kept, c, s', kept'); }
  }

  lemma {:induction false} PushAllSteps(cfg: Config, input: string, s: Scan, m: Matcher, kept: seq<bool>, t: string,
                                        s': Scan, m': Matcher)
    returns (kept': seq<bool>)
    requires s == ScanOf(cfg, input) && Buffered(input, s, m, kept)
    requires s' == ScanOf(cfg, input + t) && m' == PushAll(cfg, m, t)
    ensures Buffered(input + t, s', m', kept') && Carries(s, kept, s', kept')
  {
    if t == "" {
      assert input + t == input;
      kept' := kept;
    } else {
      var init, last := t[..|t| - 1], t[|t| - 1];
      var s1, m1 := ScanOf(cfg, input + init), PushAll(cfg, m, init);
      var k := PushAllSteps(cfg, input, s, m, kept, init, s1, m1);
      ScanOfAppend(cfg, input, t);
      kept' := PushStep(cfg, input + init, s1, m1, k, last, s', m');
      CarriesOn(s, kept, s1, k, s', kept');
    }
  }

  lemma CarriesOn(s: Scan, kept: seq<bool>, s1: Scan, kept1: seq<bool>, s2: Scan, kept2: seq<bool>)
    requires Carries(s, kept, s1, kept1) && Carries(s1, kept1, s2, kept2)
    ensures Carries(s, kept, s2, kept2)
  {
  }

  /** Handing out the whole buffer. */
  lemma CollectedEmits(input: string, s: Scan, m: Matcher, kept: seq<bool>) returns (kept': seq<bool>)
    requires Buffered(input, s, m, kept)
    ensures |kept'| == |input| && Emitted(input, s.marks, Collected(m).out, kept')
    ensures KeepsNested(s.marks, kept') <==> KeepsNested(s.marks, kept)
  {
    kept' := kept + Repeat(true, |input| - |kept|);
    EmitAll(input, s.marks, m.out, kept, s.ctl.matched);
    assert forall i | 0 <= i < |kept| :: kept'[i] == kept[i];
  }

  lemma BoundarySteps(input: string, s: Scan, m: Matcher, kept: seq<bool>) returns (kept': seq<bool>)
    requires Buffered(input, s, m, kept)
    ensures Buffered(input, s, Boundary(m), kept')
    ensures KeepsNested(s.marks, kept') <==> KeepsNested(s.marks, kept)
    ensures if s.ctl.state == InText then |kept'| == |input| else kept' == kept
  {
    if s.ctl.state == InText {
      kept' := CollectedEmits(input, s, m, kept);
    } else {
      kept' := kept;
    }
  }

  lemma {:induction false} UpdatesSteps(cfg: Config, chunks: seq<string>) returns (kept: seq<bool>)
    ensures Buffered(Concat(chunks), ScanOf(cfg, Concat(chunks)), Updates(cfg, chunks), kept)
    ensures NoneLost(ScanOf(cfg, Concat(chunks)), kept)
  {
    if chunks == [] {
      kept := [];
    } else {
      var init, last := chunks[..|chunks| - 1], chunks[|chunks| - 1];
      var s, s' := ScanOf(cfg, Concat(init)), ScanOf(cfg, Concat(chunks));
      var m := PushAll(cfg, Updates(cfg, init), last);
      var k := UpdatesSteps(cfg, init);
      var k' := PushAllSteps(cfg, Concat(init), s, Updates(cfg, init), k, last, s', m);
      kept := BoundarySteps(Concat(chunks), s', m, k');
    }
  }

  /**
   For every way of cutting the input, the matcher is in the state the whole input
   leads to, and what it emits is the input, in order, without all of the outermost
   tags and perhaps without some of the nested ones.
   */
  lemma EveryChunkingEmitsTheText(cfg: Config, chunks: seq<string>) returns (kept: seq<bool>)
    ensures var (input, s) := (Concat(chunks), ScanOf(cfg, Concat(chunks)));
            && Updates(cfg, chunks).ctl == ControlAfter(cfg, input)
            && |kept| == |input| && Keeps(s.marks, kept)
            && Output(cfg, chunks) == Select(input, s.marks, kept)
            && (!s.loses ==> KeepsNested(s.marks, kept))
  {
    var input, s := Concat(chunks), ScanOf(cfg, Concat(chunks));
    var k := UpdatesSteps(cfg, chunks);
    kept := CollectedEmits(input, s, Updates(cfg, chunks), k);
    EmittedAll(input, s.marks, Output(cfg, chunks), kept);
  }

  // ------------------------------------------------------- when cutting matters

  /** Everything but the outermost tags. */
  function Inside(marks: seq<Mark>): seq<bool> {
    seq(|marks|, i requires 0 <= i < |marks| => marks[i] != TagText(false))
  }

  lemma KeptIsInside(marks: seq<Mark>, kept: seq<bool>)
    requires |kept| == |marks| && Keeps(marks, kept) && KeepsNested(marks, kept)
    ensures kept == Inside(marks)
  {
    forall i | 0 <= i < |marks|
      ensures kept[i] == Inside(marks)[i]
    {
      assert marks[i] == TagText(true) || marks[i] == TagText(false) || !marks[i].TagText?;
    }
  }

  /** If no nested tag can be lost, the output does not depend on the cuts. */
  lemma LosslessOutput(cfg: Config, chunks: seq<string>)
    requires !ScanOf(cfg, Concat(chunks)).loses
    ensures var (input, marks) := (Concat(chunks), ScanOf(cfg, Concat(chunks)).marks);
            Output(cfg, chunks) == Select(input, marks, Inside(marks))
  {
    var kept := EveryChunkingEmitsTheText(cfg, chunks);
    KeptIsInside(ScanOf(cfg, Concat(chunks)).marks, kept);
  }

  function Chars(input: string): seq<string> {
    if input == "" then [] else Chars(input[..|input| - 1]) + [[input[|input| - 1]]]
  }

  lemma {:induction false} ConcatChars(input: string)
    ensures Concat(Chars(input)) == input
  {
    if input != "" {
      ConcatChars(input[..|input| - 1]);
    }
  }

  lemma PushOne(cfg: Config, m: Matcher, c: char)
    ensures PushAll(cfg, m, [c]) == Push(cfg, m, c)
  {
    assert [c][..0] == "";
  }

  lemma {:induction false} CharsSteps(cfg: Config, input: string, s: Scan, m: Matcher) returns (kept: seq<bool>)
    requires s == ScanOf(cfg, input) && m == Updates(cfg, Chars(input))
    ensures Buffered(input, s, m, kept) && Prompt(s, kept)
  {
    if input == "" {
      kept := [];
    } else {
      var init, last := input[..|input| - 1], input[|input| - 1];
      var s1, m1 := ScanOf(cfg, init), Updates(cfg, Chars(init));
      assert init + [last] == input;
      PushOne(cfg, m1, last);
      var m2 := Push(cfg, m1, last);
      var k1 := CharsSteps(cfg, init, s1, m1);
      var k2 := PushStep(cfg, init, s1, m1, k1, last, s, m2);
      assert m == Boundary(m2);
      kept := BoundarySteps(input, s, m2, k2);
    }
  }

  /** Fed by single characters, the matcher keeps every nested tag. */
  lemma CharsKeepNested(cfg: Config, input: string)
    ensures var marks := ScanOf(cfg, input).marks;
            Output(cfg, Chars(input)) == Select(input, marks, Inside(marks))
  {
    var s, m := ScanOf(cfg, input), Updates(cfg, Chars(input));
    var k := CharsSteps(cfg, input, s, m);
    var kept := CollectedEmits(input, s, m, k);
    KeptIsInside(s.marks, kept);
    EmittedAll(input, s.marks, Output(cfg, Chars(input)), kept);
  }

  lemma PushAllStart(cfg: Config, input: string)
    ensures Updates(cfg, [input]) == Boundary(PushAll(cfg, Matcher(Start(), "", []), input)) && Concat([input]) == input
  {
    assert [input][..0] == [] && Updates(cfg, []) == Matcher(Start(), "", []);
  }

  lemma OnePieceSteps(cfg: Config, input: string, s: Scan, m: Matcher) returns (kept: seq<bool>)
    requires s == ScanOf(cfg, input) && m == PushAll(cfg, Matcher(Start(), "", []), input)
    ensures Buffered(input, s, m, kept) && Whole(s, kept)
  {
    assert "" + input == input;
    kept := PushAllSteps(cfg, "", ScanOf(cfg, ""), Matcher(Start(), "", []), [], input, s, m);
  }

  /** Fed in one piece, the matcher drops a nested tag if it can. */
  lemma OnePieceDrops(cfg: Config, input: string, s: Scan) returns (kept: seq<bool>)
    requires s == ScanOf(cfg, input) && s.loses
    ensures |kept| == |input| && Keeps(s.marks, kept) && !KeepsNested(s.marks, kept)
    ensures Output(cfg, [input]) == Select(input, s.marks, kept)
  {
    var m := PushAll(cfg, Matcher(Start(), "", []), input);
    PushAllStart(cfg, input);
    var k := OnePieceSteps(cfg, input, s, m);
    var k' := BoundarySteps(input, s, m, k);
    kept := CollectedEmits(input, s, Boundary(m), k');
    EmittedAll(input, s.marks, Output(cfg, [input]), kept);
  }

  lemma {:induction false} KeepingLessIsShorter(input: string, marks: seq<Mark>, more: seq<bool>, less: seq<bool>)
    requires |input| == |marks| == |more| == |less|
    requires forall i | 0 <= i < |less| && less[i] :: more[i]
    ensures |Select(input, marks, less)| <= |Select(input, marks, more)|
    ensures less != more ==> |Select(input, marks, less)| < |Select(input, marks, more)|
  {
    if input != "" {
      var n := |input| - 1;
      KeepingLessIsShorter(input[..n], marks[..n], more[..n], less[..n]);
      assert less == less[..n] + [less[n]] && more == more[..n] + [more[n]];
    }
  }

  /** The output is the same for all cuts exactly when no outermost tag closes right behind a nested one. */
  lemma CuttingMattersIff(cfg: Config, input: string)
    ensures (forall chunks, chunks' | Concat(chunks) == input && Concat(chunks') == input ::
               Output(cfg, chunks) == Output(cfg, chunks'))
            <==> !ScanOf(cfg, input).loses
  {
    var s := ScanOf(cfg, input);
    if s.loses {
      var kept := OnePieceDrops(cfg, input, s);
      CharsKeepNested(cfg, input);
      ConcatChars(input);
      PushAllStart(cfg, input);
      KeepingLessIsShorter(input, s.marks, Inside(s.marks), kept);
      assert Output(cfg, [input]) != Output(cfg, Chars(input)) && Concat([input]) == Concat(Chars(input));
    } else {
      forall chunks, chunks' | Concat(chunks) == input && Concat(chunks') == input
        ensures Output(cfg, chunks) == Output(cfg, chunks')
      {
        LosslessOutput(cfg, chunks);
        LosslessOutput(cfg, chunks');
      }
    }
  }

  // ------------------------------------------------------- depth at most one

  predicate AtMostOneDeep(cfg: Config, input: string) {
    ControlAfter(cfg, input).depth <= 1
  }

  /** Along the run, no tag is opened inside another. */
  predicate Shallow(cfg: Config, input: string) {
    forall k | 0 <= k <= |input| :: AtMostOneDeep(cfg, input[..k])
  }

  lemma ShallowPrefix(cfg: Config, input: string)
    requires Shallow(cfg, input) && input != ""
    ensures Shallow(cfg, input[..|input| - 1])
    ensures AtMostOneDeep(cfg, input) && AtMostOneDeep(cfg, input[..|input| - 1])
  {
    var init := input[..|input| - 1];
    forall k | 0 <= k <= |init|
      ensures AtMostOneDeep(cfg, init[..k])
    {
      assert init[..k] == input[..k];
    }
    assert input[..|input|] == input && AtMostOneDeep(cfg, input[..|input|]);
  }

  lemma NestedIsDeep(cfg: Config, ctl: Control, c: char)
    requires Sound(ctl)
    requires Next(cfg, ctl, c).0.depth != ctl.depth && Next(cfg, ctl, c).1 == Keep
    ensures ctl.depth > 1 || Next(cfg, ctl, c).0.depth > 1
  {
  }

  lemma {:induction false} ShallowHasNoNested(cfg: Config, input: string)
    requires Shallow(cfg, input)
    ensures var s := ScanOf(cfg, input);
            !s.loses && !s.afterNested && forall i | 0 <= i < |input| :: s.marks[i] != TagText(true)
  {
    if input != "" {
      var init, c := input[..|input| - 1], input[|input| - 1];
      ShallowPrefix(cfg, input);
      ShallowHasNoNested(cfg, init);
      var s := ScanOf(cfg, init);
      NextIsSound(cfg, s.ctl, c);
      if Next(cfg, s.ctl, c).0.depth != s.ctl.depth && Next(cfg, s.ctl, c).1 == Keep {
        NestedIsDeep(cfg, s.ctl, c);
      }
      ShallowStep(cfg, s, c);
    }
  }

  lemma ShallowStep(cfg: Config, s: Scan, c: char)
    requires s.pending <= |s.marks| && Sound(s.ctl) && !s.loses && !s.afterNested
    requires forall i | 0 <= i < |s.marks| :: s.marks[i] != TagText(true)
    requires Next(cfg, s.ctl, c).0.depth != s.ctl.depth ==> Next(cfg, s.ctl, c).1 != Keep
    ensures var s' := ScanStep(cfg, s, c);
            !s'.loses && !s'.afterNested && forall i | 0 <= i < |s'.marks| :: s'.marks[i] != TagText(true)
  {
    NextIsSound(cfg, s.ctl, c);
  }

  /** At depth at most one, the buffer is empty whenever the automaton is in the text, in the middle of a chunk too. */
  lemma {:induction false} ShallowBufferIsEmpty(cfg: Config, chunks: seq<string>, t: string, m: Matcher)
    requires Shallow(cfg, Concat(chunks) + t) && m == PushAll(cfg, Updates(cfg, chunks), t)
    ensures m.ctl.state == InText ==> m.cached == ""
  {
    var input := Concat(chunks);
    var s := ScanOf(cfg, input + t);
    var k := UpdatesSteps(cfg, chunks);
    var kept := PushAllSteps(cfg, input, ScanOf(cfg, input), Updates(cfg, chunks), k, t, s, m);
    ShallowHasNoNested(cfg, input + t);
    NothingBuffered(input + t, s, m, kept);
  }

  lemma NothingBuffered(input: string, s: Scan, m: Matcher, kept: seq<bool>)
    requires Buffered(input, s, m, kept) && !s.afterNested
    ensures m.ctl.state == InText ==> m.cached == ""
  {
  }

  function TextOf(out: seq<Flagged>): (r: string)
    ensures |r| == |out|
  {
    seq(|out|, i requires 0 <= i < |out| => out[i].0)
  }

  function WithoutTags(input: string, marks: seq<Mark>): string
    requires |input| == |marks|
  {
    if input == "" then ""
    else
      var n := |input| - 1;
      WithoutTags(input[..n], marks[..n]) + (if marks[n].TagText? then "" else [input[n]])
  }

  lemma {:induction false} SelectedText(input: string, marks: seq<Mark>)
    requires |input| == |marks| && forall i | 0 <= i < |marks| :: marks[i] != TagText(true)
    ensures TextOf(Select(input, marks, Inside(marks))) == WithoutTags(input, marks)
  {
    if input != "" {
      var n := |input| - 1;
      SelectedText(input[..n], marks[..n]);
      assert Inside(marks)[..n] == Inside(marks[..n]);
      assert marks[n] == TagText(false) || !marks[n].TagText?;
    }
  }

  /** At depth at most one, the output is the input without the recognised tags, however it is cut. */
  lemma ShallowOutput(cfg: Config, chunks: seq<string>)
    requires Shallow(cfg, Concat(chunks))
    ensures var (input, marks) := (Concat(chunks), ScanOf(cfg, Concat(chunks)).marks);
            && Output(cfg, chunks) == Output(cfg, [input])
            && TextOf(Output(cfg, chunks)) == WithoutTags(input, marks)
  {
    var input := Concat(chunks);
    ShallowHasNoNested(cfg, input);
    PushAllStart(cfg, input);
    LosslessOutput(cfg, chunks);
    LosslessOutput(cfg, [input]);
    SelectedText(input, ScanOf(cfg, input).marks);
  }
}

/** The class, with its fields updated in place, held to the automaton and its buffer. */
module TagMatcherClass {
  import opened Text
  import opened TagAutomaton
  import opened TagMatching

  datatype Chunk = Chunk(data: string, matched: bool)

  function Flat(chunks: seq<Chunk>): seq<Flagged> {
    if chunks == [] then []
    else Flat(chunks[..|chunks| - 1]) + Flag(chunks[|chunks| - 1].data, chunks[|chunks| - 1].matched)
  }

  /** Chunks are not empty, and neighbours differ in their flag. */
  predicate Merged(chunks: seq<Chunk>) {
    && (forall i | 0 <= i < |chunks| :: chunks[i].data != "")
    && (forall i | 0 < i < |chunks| :: chunks[i].matched != chunks[i - 1].matched)
  }

  function AddChunk(chunks: seq<Chunk>, data: string, matched: bool): seq<Chunk> {
    if data == "" then chunks
    else if chunks != [] && chunks[|chunks| - 1].matched == matched
    then chunks[..|chunks| - 1] + [Chunk(chunks[|chunks| - 1].data + data, matched)]
    else chunks + [Chunk(data, matched)]
  }

  lemma FlagAppend(s: string, t: string, matched: bool)
    ensures Flag(s + t, matched) == Flag(s, matched) + Flag(t, matched)
  {
  }

  lemma FlatSnoc(chunks: seq<Chunk>, chunk: Chunk)
    ensures Flat(chunks + [chunk]) == Flat(chunks) + Flag(chunk.data, chunk.matched)
  {
    assert (chunks + [chunk])[..|chunks|] == chunks;
  }

  lemma AddChunkIsAppend(chunks: seq<Chunk>, data: string, matched: bool)
    ensures Flat(AddChunk(chunks, data, matched)) == Flat(chunks) + Flag(data, matched)
  {
    var n := |chunks| - 1;
    if data == "" {
      assert Flag(data, matched) == [];
    } else if chunks != [] && chunks[n].matched == matched {
      ExtendLast(chunks[..n], chunks[n], data);
    } else {
      FlatSnoc(chunks, Chunk(data, matched));
    }
  }

  lemma AddChunkMerges(chunks: seq<Chunk>, data: string, matched: bool)
    requires Merged(chunks)
    ensures Merged(AddChunk(chunks, data, matched))
  {
  }

  lemma ExtendLast(front: seq<Chunk>, last: Chunk, data: string)
    ensures Flat(front + [Chunk(last.data + data, last.matched)]) == Flat(front) + Flag(last.data, last.matched) + Flag(data, last.matched)
  {
    FlatSnoc(front, Chunk(last.data + data, last.matched));
    FlagAppend(last.data, data, last.matched);
    var a, b, c := Flat(front), Flag(last.data, last.matched), Flag(data, last.matched);
    assert a + (b + c) == a + b + c;
  }

  /** The chunk's text with its flag can follow `before` without being merged into it. */
  ghost predicate StartsRun(before: seq<Flagged>, x: Chunk) {
    x.data != "" && (before != [] ==> before[|before| - 1].1 != x.matched)
  }

  lemma NotShorter(before: seq<Flagged>, x: Chunk, before': seq<Flagged>, y: Chunk)
    requires StartsRun(before, x) && StartsRun(before', y)
    requires before + Flag(x.data, x.matched) == before' + Flag(y.data, y.matched)
    ensures x.matched == y.matched && |before| <= |before'|
  {
    var f := before + Flag(x.data, x.matched);
    assert f[|f| - 1].1 == x.matched && f[|f| - 1].1 == y.matched;
    assert forall k | |before'| <= k < |f| :: f[k].1 == y.matched;
    assert before != [] ==> f[|before| - 1] == before[|before| - 1];
  }

  lemma SameRun(before: seq<Flagged>, x: Chunk, before': seq<Flagged>, y: Chunk)
    requires StartsRun(before, x) && StartsRun(before', y)
    requires before + Flag(x.data, x.matched) == before' + Flag(y.data, y.matched)
    ensures before == before' && x == y
  {
    NotShorter(before, x, before', y);
    NotShorter(before', y, before, x);
    var f, n := before + Flag(x.data, x.matched), |before|;
    assert before == f[..n] && before' == f[..n];
    assert Flag(x.data, x.matched) == f[n..] && Flag(y.data, y.matched) == f[n..];
    SameText(x.data, y.data, x.matched);
  }

  lemma SameText(s: string, t: string, matched: bool)
    requires Flag(s, matched) == Flag(t, matched)
    ensures s == t
  {
    assert |Flag(s, matched)| == |Flag(t, matched)|;
    forall k | 0 <= k < |s|
      ensures s[k] == t[k]
    {
      assert Flag(s, matched)[k] == Flag(t, matched)[k];
    }
  }

  lemma LastStartsRun(a: seq<Chunk>)
    requires Merged(a) && a != []
    ensures StartsRun(Flat(a[..|a| - 1]), a[|a| - 1])
  {
    var a' := a[..|a| - 1];
    if a' != [] {
      var y := a'[|a'| - 1];
      assert Flat(a') == Flat(a'[..|a'| - 1]) + Flag(y.data, y.matched);
      assert y == a[|a| - 2] && Flag(y.data, y.matched)[|y.data| - 1].1 == y.matched;
    }
  }

  /** Two merged chunk lists with the same text and flags are the same list. */
  lemma {:induction false} MergedIsCanonical(a: seq<Chunk>, b: seq<Chunk>)
    requires Merged(a) && Merged(b) && Flat(a) == Flat(b)
    ensures a == b
  {
    if a != [] && b != [] {
      var a', x, b', y := a[..|a| - 1], a[|a| - 1], b[..|b| - 1], b[|b| - 1];
      LastStartsRun(a);
      LastStartsRun(b);
      SameRun(Flat(a'), x, Flat(b'), y);
      MergedIsCanonical(a', b');
      assert a == a' + [x] && b == b' + [y];
    }
  }

  class TagMatcher {
    const tagNames: seq<string>
    const position: nat
    var index: nat
    var chunks: seq<Chunk>
    var cached: string
    var matched: bool
    var state: TagState
    var depth: int
    var pointer: nat
    var activeTagNames: seq<string>
    var candidates: seq<Candidate>
    /** What was handed out, and the pieces that came in. */
    ghost var handedOut: seq<Flagged>
    ghost var fed: seq<string>

    function Cfg(): Config {
      Config(tagNames, position)
    }

    function Ctl(): Control
      reads this
    {
      Control(state, depth, matched, activeTagNames, candidates, index, pointer)
    }

    ghost function Now(): Matcher
      reads this
    {
      Matcher(Ctl(), cached, handedOut + Flat(chunks))
    }

    ghost predicate Valid()
      reads this
    {
      chunks == [] && Now() == Updates(Cfg(), fed)
    }

    constructor (names: seq<string>, startAt: nat)
      ensures tagNames == names && position == startAt
      ensures Valid() && fed == [] && handedOut == []
    {
      tagNames, position := names, startAt;
      index, chunks, cached, matched, state, depth, pointer := 0, [], "", false, InText, 0, 0;
      activeTagNames, candidates := [], [];
      handedOut, fed := [], [];
    }

    method Collect()
      requires Merged(chunks)
      modifies this`chunks, this`cached
      ensures Now() == Collected(old(Now())) && Merged(chunks)
    {
      ghost var was, flagged := Flat(chunks), Flag(cached, matched);
      AddChunkIsAppend(chunks, cached, matched);
      AddChunkMerges(chunks, cached, matched);
      assert handedOut + (was + flagged) == handedOut + was + flagged;
      if cached == "" {
        return;
      }
      if chunks != [] && chunks[|chunks| - 1].matched == matched {
        chunks := chunks[..|chunks| - 1] + [Chunk(chunks[|chunks| - 1].data + cached, matched)];
      } else {
        chunks := chunks + [Chunk(cached, matched)];
      }
      cached := "";
    }

    method Pop() returns (r: seq<Chunk>)
      modifies this`chunks, this`handedOut
      ensures r == old(chunks) && chunks == []
      ensures handedOut == old(handedOut) + Flat(r) && Now() == old(Now())
    {
      r := chunks;
      chunks := [];
      handedOut := handedOut + Flat(r);
    }

    /** `candidates` moves past the character. */
    method AdvanceCandidates(c: char)
      modifies this`candidates
      ensures candidates == Advance(old(candidates), c)
    {
      var left: seq<Candidate> := [];
      for i := 0 to |candidates|
        invariant candidates == old(candidates)
        invariant left == Advance(candidates[..i], c)
      {
        assert candidates[..i + 1][..i] == candidates[..i];
        var candidate := candidates[i];
        if candidate.index < |candidate.name| && candidate.name[candidate.index] == c {
          left := left + [candidate.(index := candidate.index + 1)];
        }
      }
      assert candidates[..|candidates|] == candidates;
      candidates := left;
    }

    method OpenTag(c: char)
      requires state == TagOpen && Merged(chunks)
      modifies this`state, this`activeTagNames, this`cached, this`chunks, this`depth, this`matched, this`candidates, this`index
      ensures Now() == Settled(old(Now()), NextInOpen(old(Ctl()), c)) && Merged(chunks)
    {
      if c == '>' {
        var complete := FindComplete(candidates);
        if complete.Some? {
          state := InText;
          activeTagNames := activeTagNames + [complete.value];
          if !matched {
            cached := "";
          }
          depth := depth + 1;
          matched := true;
        } else {
          state := InText;
          Collect();
        }
      } else if AllAtStart(candidates) && c == '/' {
        state := TagClose;
        index := 0;
      } else if c == ' ' {
        candidates := AtEdges(candidates);
      } else {
        AdvanceCandidates(c);
        if candidates == [] {
          state := InText;
          Collect();
        }
      }
    }

    method CloseTag(c: char)
      requires state == TagClose && Merged(chunks)
      modifies this`state, this`activeTagNames, this`cached, this`chunks, this`depth, this`matched, this`index
      ensures Now() == Settled(old(Now()), NextInClose(Cfg(), old(Ctl()), c)) && Merged(chunks)
    {
      var tagName := ClosingName(Cfg(), Ctl());
      if c == '>' && index == |tagName| {
        state := InText;
        depth := depth - 1;
        if activeTagNames != [] {
          activeTagNames := activeTagNames[..|activeTagNames| - 1];
        }
        matched := depth > 0;
        if !matched {
          cached := "";
        }
      } else if c == ' ' && (index == 0 || index == |tagName|) {
      } else if index < |tagName| && tagName[index] == c {
        index := index + 1;
      } else {
        state := InText;
        Collect();
      }
    }

    method PlainText(c: char)
      requires state == InText && Merged(chunks)
      modifies this`state, this`candidates, this`cached, this`chunks
      ensures Now() == Settled(old(Now()), NextInText(Cfg(), old(Ctl()), c)) && Merged(chunks)
    {
      if c == '<' && (pointer <= position + 1 || matched) {
        state := TagOpen;
        candidates := Opening(Cfg(), Ctl().(state := InText));
      } else {
        Collect();
      }
    }

    method ReadOne(c: char)
      requires Merged(chunks)
      modifies this`index, this`chunks, this`cached, this`matched, this`state, this`depth, this`pointer, this`activeTagNames, this`candidates
      ensures Now() == Push(Cfg(), old(Now()), c) && Merged(chunks)
    {
      SettledIsPush(Cfg(), Now(), c);
      cached := cached + [c];
      pointer := pointer + 1;
      if state == InText {
        PlainText(c);
      } else if state == TagOpen {
        OpenTag(c);
      } else {
        CloseTag(c);
      }
    }

    /** The private update: every character of a piece, in order. */
    method Read(chunk: string)
      requires Merged(chunks)
      modifies this`index, this`chunks, this`cached, this`matched, this`state, this`depth, this`pointer, this`activeTagNames, this`candidates
      ensures Now() == PushAll(Cfg(), old(Now()), chunk) && Merged(chunks)
    {
      ghost var before := Now();
      for i := 0 to |chunk|
        invariant Now() == PushAll(Cfg(), before, chunk[..i]) && Merged(chunks)
      {
        PushAllNext(Cfg(), before, chunk, i);
        ReadOne(chunk[i]);
      }
      assert chunk[..|chunk|] == chunk;
    }

    method Update(chunk: string) returns (r: seq<Chunk>)
      requires Valid()
      modifies this
      ensures Valid() && fed == old(fed) + [chunk]
      ensures Merged(r) && handedOut == old(handedOut) + Flat(r)
    {
      Read(chunk);
      if state == InText {
        Collect();
      }
      r := Pop();
      fed := fed + [chunk];
      assert fed[..|fed| - 1] == old(fed);
    }

    /** The last call: everything ever handed out is what the pieces give together. */
    method Final(chunk: Option<string>) returns (r: seq<Chunk>)
      requires Valid()
      modifies this
      ensures Merged(r) && handedOut == old(handedOut) + Flat(r)
      ensures handedOut == Output(Cfg(), old(fed) + if chunk.Some? then [chunk.value] else [])
    {
      FinalOutput(Cfg(), fed, chunk);
      if chunk.Some? && chunk.value != "" {
        Read(chunk.value);
      }
      Collect();
      candidates := [];
      activeTagNames := [];
      r := Pop();
    }
  }

  /** The buffer after an action, the character being in it already. */
  ghost function Settled(m: Matcher, next: (Control, Action)): Matcher {
    match next.1
    case Keep => Matcher(next.0, m.cached, m.out)
    case Collect => Collected(Matcher(next.0, m.cached, m.out))
    case Clear => Matcher(next.0, "", m.out)
  }

  lemma SettledIsPush(cfg: Config, m: Matcher, c: char)
    ensures var read := Matcher(m.ctl.(pointer := m.ctl.pointer + 1), m.cached + [c], m.out);
            Push(cfg, m, c) == Settled(read, Next(cfg, m.ctl, c))
  {
  }

  /** `final` reads its piece and hands everything out, which is an update in between. */
  lemma FinalOutput(cfg: Config, fed: seq<string>, last: Option<string>)
    ensures var m := Updates(cfg, fed);
            Output(cfg, fed + if last.Some? then [last.value] else [])
            == Collected(if last.Some? && last.value != "" then PushAll(cfg, m, last.value) else m).out
  {
    if last.Some? {
      var all := fed + [last.value];
      assert all[..|all| - 1] == fed;
      var m := PushAll(cfg, Updates(cfg, fed), last.value);
      assert Updates(cfg, all) == Boundary(m);
      assert Collected(Boundary(m)).out == Collected(m).out by { assert Flag("", m.ctl.matched) == []; }
    } else {
      assert fed + [] == fed;
    }
  }

  lemma PushAllNext(cfg: Config, m: Matcher, chunk: string, i: nat)
    requires i < |chunk|
    ensures PushAll(cfg, m, chunk[..i + 1]) == Push(cfg, PushAll(cfg, m, chunk[..i]), chunk[i])
  {
    assert chunk[..i + 1][..i] == chunk[..i];
  }
}
