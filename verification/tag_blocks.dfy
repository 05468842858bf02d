/**
 Streams that begin with an opening tag, as reasoning models emit them: which part
 of the stream comes out flagged, and when that is what stands between the tags.
 */
module TagBlocks {
  import opened Text
  import opened TagAutomaton
  import opened TagMatching

  /** A tag name that is read as a name: no `>` or space, and no leading `/`. */
  predicate PlainName(w: string) {
    w != "" && w[0] != '/' && forall i | 0 <= i < |w| :: w[i] != '>' && w[i] != ' '
  }

  /** The matcher looks for this tag, among others, and only at the start of the stream. */
  predicate Matches(cfg: Config, w: string) {
    cfg.position == 0 && w in cfg.names && PlainName(w)
  }

  /** What the automaton has read of any text. */
  type Scanner = string -> Scan

  /** All that is needed of `ScanOf`: it reads one character after the other. */
  ghost predicate Scans(cfg: Config, scan: Scanner) {
    && scan("") == Scan(Start(), 0, false, false, [])
    && (forall x :: |scan(x).marks| == |x| && scan(x).pending <= |x| && Sound(scan(x).ctl))
    && (forall x, c :: scan(x + [c]) == ScanStep(cfg, scan(x), c))
  }

  function Scanned(cfg: Config): (scan: Scanner) {
    x => ScanOf(cfg, x)
  }

  lemma ScanOfScans(cfg: Config)
    ensures Scans(cfg, Scanned(cfg))
  {
    forall x, c ensures Scanned(cfg)(x + [c]) == ScanStep(cfg, Scanned(cfg)(x), c) {
      ScanOfNext(cfg, x, c);
    }
  }

  function Opened(w: string, body: string): string {
    "<" + w + ">" + body
  }

  lemma OpenedText(w: string, body: string, c: char)
    ensures Opened(w, body + [c]) == Opened(w, body) + [c]
  {
  }

  /** A whole stream: the opening tag, the body, the closing tag, and what follows. */
  function Block(w: string, body: string, rest: string): string {
    Opened(w, body + ("</" + w + ">" + rest))
  }

  // ------------------------------------------------------- inside and behind the block

  /** Text or a nested tag, with this flag. */
  predicate Counts(mark: Mark, matched: bool) {
    mark != TagText(false) && FlagOf(mark) == matched
  }

  predicate OnlyNamed(w: string, ctl: Control) {
    && (forall i | 0 <= i < |ctl.active| :: ctl.active[i] == w)
    && (ctl.state == TagOpen ==> forall i | 0 <= i < |ctl.candidates| :: ctl.candidates[i].name == w)
  }

  /** Behind the opening tag, and still inside it. */
  predicate Within(w: string, s: Scan) {
    var o := |w| + 2;
    && Sound(s.ctl) && s.ctl.depth >= 1 && OnlyNamed(w, s.ctl) && !s.loses
    && o + s.pending <= |s.marks|
    && (forall i | 0 <= i < o :: s.marks[i] == TagText(false))
    && (forall i | o <= i < |s.marks| :: Counts(s.marks[i], true))
  }

  /** Behind the closing tag, which covers the characters from `p` to `q`. */
  predicate Behind(w: string, s: Scan, p: nat, q: nat) {
    var o := |w| + 2;
    && s.ctl.state == InText && s.ctl.depth == 0 && !s.ctl.matched && s.ctl.pointer >= 1 && s.pending == 0
    && o <= p < q <= |s.marks|
    && (forall i | 0 <= i < o :: s.marks[i] == TagText(false))
    && (forall i | o <= i < p :: Counts(s.marks[i], true))
    && (forall i | p <= i < q :: s.marks[i] == TagText(false))
    && (forall i | q <= i < |s.marks| :: Counts(s.marks[i], false))
  }

  lemma {:induction false} AtEdgesNames(w: string, candidates: seq<Candidate>)
    requires forall i | 0 <= i < |candidates| :: candidates[i].name == w
    ensures forall i | 0 <= i < |AtEdges(candidates)| :: AtEdges(candidates)[i].name == w
  {
    if candidates != [] {
      AtEdgesNames(w, candidates[..|candidates| - 1]);
    }
  }

  lemma {:induction false} AdvanceNames(w: string, candidates: seq<Candidate>, c: char)
    requires forall i | 0 <= i < |candidates| :: candidates[i].name == w
    ensures forall i | 0 <= i < |Advance(candidates, c)| :: Advance(candidates, c)[i].name == w
  {
    if candidates != [] {
      AdvanceNames(w, candidates[..|candidates| - 1], c);
    }
  }

  lemma {:induction false} CompleteName(w: string, candidates: seq<Candidate>)
    requires forall i | 0 <= i < |candidates| :: candidates[i].name == w
    ensures FindComplete(candidates).Some? ==> FindComplete(candidates).value == w
  {
    if candidates != [] {
      CompleteName(w, candidates[1..]);
    }
  }

  /** Inside the block only its own name is on the stack or a candidate, and one tag at a time opens or closes. */
  lemma WithinControl(cfg: Config, w: string, ctl: Control, c: char, ctl': Control, action: Action)
    requires Sound(ctl) && ctl.depth >= 1 && OnlyNamed(w, ctl)
    requires (ctl', action) == Next(cfg, ctl, c)
    ensures ctl'.depth >= 0 && OnlyNamed(w, ctl') && ctl'.pointer >= 1
    ensures ctl'.depth == 0 ==> ctl.depth == 1 && ctl'.state == InText
  {
    if ctl.state == TagOpen {
      AtEdgesNames(w, ctl.candidates);
      AdvanceNames(w, ctl.candidates, c);
      CompleteName(w, ctl.candidates);
    }
  }

  /** Inside the block a step stays inside, or reads the end of the closing tag. */
  lemma WithinStep(cfg: Config, w: string, s: Scan, c: char, s': Scan)
    requires Within(w, s) && s' == ScanStep(cfg, s, c)
    ensures s'.ctl.depth >= 0
    ensures s'.ctl.depth >= 1 ==> Within(w, s')
    ensures s'.ctl.depth == 0 ==> s.ctl.depth == 1 && s'.loses == s.afterNested && Behind(w, s', |s.marks| - s.pending, |s'.marks|)
  {
    var (ctl', action) := Next(cfg, s.ctl, c);
    WithinControl(cfg, w, s.ctl, c, ctl', action);
    NextIsSound(cfg, s.ctl, c);
    WithinMarks(cfg, w, s, c, s');
  }

  lemma WithinMarks(cfg: Config, w: string, s: Scan, c: char, s': Scan)
    requires Within(w, s) && s' == ScanStep(cfg, s, c)
    ensures |s'.marks| == |s.marks| + 1
    ensures forall i | 0 <= i < |s.marks| - s.pending :: s'.marks[i] == s.marks[i]
    ensures forall i | |s.marks| - s.pending <= i < |s'.marks| :: s'.marks[i] == s'.marks[|s.marks|]
  {
    ScanStepMarks(cfg, s, c);
    var n := |s.marks| - s.pending;
    forall i | 0 <= i < n ensures s'.marks[i] == s.marks[i] {
      assert s'.marks[i] == s'.marks[..n][i] == s.marks[..n][i];
    }
  }

  /** Behind the block nothing opens any more: everything is text. */
  lemma BehindStep(cfg: Config, w: string, s: Scan, p: nat, q: nat, c: char, s': Scan)
    requires cfg.position == 0
    requires Behind(w, s, p, q) && s' == ScanStep(cfg, s, c)
    ensures Behind(w, s', p, q) && s'.loses == s.loses
  {
    assert s'.marks == s.marks + [Plain(false)];
  }

  /** How far directly inside the block the closing tag was read. */
  datatype Stage = Elsewhere | AtText(afterNested: bool) | InClosing(index: nat, afterNested: bool)

  function StageOf(w: string, s: Scan): Stage {
    if !Within(w, s) || s.ctl.depth != 1 then Elsewhere
    else if s.ctl.state == InText && s.pending == 0 then AtText(s.afterNested)
    else if s.ctl.state == TagClose && s.pending == 2 + s.ctl.index then InClosing(s.ctl.index, s.afterNested)
    else Elsewhere
  }

  // ------------------------------------------------------- reading the opening tag

  /** The candidates left after `i` characters of the name: it is among them, and they all begin like it. */
  predicate OnPath(w: string, i: nat, candidates: seq<Candidate>) {
    && i <= |w| && Candidate(w, i) in candidates
    && forall c | c in candidates :: c.index == i <= |c.name| && c.name[..i] == w[..i]
  }

  lemma {:induction false} AllOnPath(names: seq<string>, c: Candidate)
    ensures c in AllCandidates(names) <==> c.index == 0 && c.name in names
  {
    if names != [] {
      AllOnPath(names[..|names| - 1], c);
      assert names == names[..|names| - 1] + [names[|names| - 1]];
    }
  }

  lemma {:induction false} AdvanceMembers(candidates: seq<Candidate>, c: char, x: Candidate)
    ensures x in Advance(candidates, c) <==>
            x.index > 0 && x.index <= |x.name| && x.name[x.index - 1] == c && Candidate(x.name, x.index - 1) in candidates
  {
    if candidates != [] {
      var front, last := candidates[..|candidates| - 1], candidates[|candidates| - 1];
      AdvanceMembers(front, c, x);
      assert candidates == front + [last];
      assert last == Candidate(last.name, last.index);
    }
  }

  lemma AdvanceOnPath(w: string, i: nat, candidates: seq<Candidate>)
    requires OnPath(w, i, candidates) && i < |w|
    ensures OnPath(w, i + 1, Advance(candidates, w[i]))
  {
    AdvanceMembers(candidates, w[i], Candidate(w, i + 1));
    forall x | x in Advance(candidates, w[i]) ensures x.index == i + 1 <= |x.name| && x.name[..i + 1] == w[..i + 1] {
      AdvanceMembers(candidates, w[i], x);
      assert x.name[..i + 1] == x.name[..i] + [x.name[i]] && w[..i + 1] == w[..i] + [w[i]];
    }
  }

  lemma {:induction false} CompleteOnPath(w: string, candidates: seq<Candidate>)
    requires OnPath(w, |w|, candidates)
    ensures FindComplete(candidates) == Some(w)
  {
    var first := candidates[0];
    if Complete(first) {
      assert first.name[..|w|] == first.name && w[..|w|] == w;
    } else {
      assert candidates == [first] + candidates[1..];
      CompleteOnPath(w, candidates[1..]);
    }
  }

  /** The opening tag was read up to `i` characters of its name. */
  predicate InOpening(w: string, s: Scan, i: nat) {
    && s.ctl.state == TagOpen && s.ctl.depth == 0 && !s.ctl.matched && s.ctl.active == []
    && s.pending == |s.marks| == 1 + i && !s.loses && !s.afterNested
    && OnPath(w, i, s.ctl.candidates)
  }

  lemma OpeningBegins(cfg: Config, w: string, s: Scan, s': Scan)
    requires Matches(cfg, w) && s == Scan(Start(), 0, false, false, []) && s' == ScanStep(cfg, s, '<')
    ensures InOpening(w, s', 0)
  {
    AllOnPath(cfg.names, Candidate(w, 0));
    forall c | c in AllCandidates(cfg.names) ensures c.index == 0 && c.name[..0] == w[..0] {
      AllOnPath(cfg.names, c);
    }
  }

  lemma OpeningGoesOn(cfg: Config, w: string, s: Scan, i: nat, s': Scan)
    requires PlainName(w) && i < |w| && InOpening(w, s, i) && s' == ScanStep(cfg, s, w[i])
    ensures InOpening(w, s', i + 1)
  {
    AdvanceOnPath(w, i, s.ctl.candidates);
    NotAtStart(w, i, s.ctl.candidates);
  }

  lemma NotAtStart(w: string, i: nat, candidates: seq<Candidate>)
    requires OnPath(w, i, candidates)
    ensures AllAtStart(candidates) <==> i == 0
  {
    var k :| 0 <= k < |candidates| && candidates[k] == Candidate(w, i);
    assert forall j | 0 <= j < |candidates| :: candidates[j] in candidates;
  }

  lemma OpeningEnds(cfg: Config, w: string, s: Scan, s': Scan)
    requires PlainName(w) && InOpening(w, s, |w|) && s' == ScanStep(cfg, s, '>')
    ensures StageOf(w, s') == AtText(false)
  {
    CompleteOnPath(w, s.ctl.candidates);
  }

  lemma LastOf(x: string, t: string, init: string, c: char)
    requires t != "" && init == t[..|t| - 1] && c == t[|t| - 1]
    ensures t == init + [c] && x + t == (x + init) + [c]
  {
  }

  /** The characters of a name, read one by one. */
  lemma {:induction false} ReadOpening(cfg: Config, scan: Scanner, w: string, t: string)
    requires Scans(cfg, scan) && PlainName(w) && t <= w && InOpening(w, scan("<"), 0)
    ensures InOpening(w, scan("<" + t), |t|)
  {
    if t == "" {
      assert "<" + t == "<";
    } else {
      var init, c := t[..|t| - 1], t[|t| - 1];
      LastOf("<", t, init, c);
      ReadOpening(cfg, scan, w, init);
      OpeningGoesOn(cfg, w, scan("<" + init), |init|, scan("<" + t));
    }
  }

  /** Behind the opening tag the matcher is in the text directly inside it. */
  lemma ReadOpened(cfg: Config, scan: Scanner, w: string)
    requires Scans(cfg, scan) && Matches(cfg, w)
    ensures StageOf(w, scan(Opened(w, ""))) == AtText(false)
  {
    assert "<" == "" + ['<'] && Opened(w, "") == ("<" + w) + ['>'];
    OpeningBegins(cfg, w, scan(""), scan("<"));
    ReadOpening(cfg, scan, w, w);
    OpeningEnds(cfg, w, scan("<" + w), scan(Opened(w, "")));
  }

  lemma TextGoesOn(cfg: Config, w: string, s: Scan, c: char, s': Scan)
    requires StageOf(w, s).AtText? && c != '<' && s' == ScanStep(cfg, s, c)
    ensures StageOf(w, s') == AtText(false)
  {
    WithinStep(cfg, w, s, c, s');
  }

  /** Text without `<` stays text. */
  lemma {:induction false} ReadText(cfg: Config, scan: Scanner, w: string, x: string, t: string)
    requires Scans(cfg, scan) && '<' !in t && StageOf(w, scan(x)) == AtText(false)
    ensures StageOf(w, scan(x + t)) == AtText(false)
  {
    if t == "" {
      assert x + t == x;
    } else {
      var init, c := t[..|t| - 1], t[|t| - 1];
      LastOf(x, t, init, c);
      ReadText(cfg, scan, w, x, init);
      TextGoesOn(cfg, w, scan(x + init), c, scan(x + t));
    }
  }

  // ------------------------------------------------------- where the closing tag began

  /** `before` is where the tag under way began, or `s` itself. */
  predicate BeganAt(s: Scan, before: Scan) {
    && (s.pending == 0 <==> s.ctl.state == InText)
    && before.ctl.state == InText && before.ctl.depth == s.ctl.depth && before.afterNested == s.afterNested
  }

  lemma PendingStep(cfg: Config, s: Scan, before: Scan, c: char, s': Scan)
    requires s.pending <= |s.marks| && Sound(s.ctl) && BeganAt(s, before) && s' == ScanStep(cfg, s, c)
    ensures if s'.pending == 0 then BeganAt(s', s') else s'.pending == s.pending + 1 && BeganAt(s', before)
  {
    NextIsSound(cfg, s.ctl, c);
  }

  /** While a tag is under way, nothing changed since it began. */
  lemma {:induction false} PendingBegan(cfg: Config, scan: Scanner, input: string) returns (front: string)
    requires Scans(cfg, scan)
    ensures front <= input && |front| == |input| - scan(input).pending && BeganAt(scan(input), scan(front))
  {
    front := input;
    if input != "" {
      var init, c := input[..|input| - 1], input[|input| - 1];
      assert input == init + [c];
      var earlier := PendingBegan(cfg, scan, init);
      PendingStep(cfg, scan(init), scan(earlier), c, scan(input));
      if scan(input).pending > 0 {
        front := earlier;
      }
    }
  }

  /** In the text directly inside the outermost tag. */
  predicate DirectlyInside(s: Scan) {
    s.ctl.state == InText && s.ctl.depth == 1
  }

  /**
   Reading the body behind the opening tag ends in the text at depth one, and not
   right behind a nested tag. It was inside the block all along then (ContainedNeverLeaves).
   */
  predicate Contained(cfg: Config, w: string, body: string) {
    var s := ScanOf(cfg, Opened(w, body));
    DirectlyInside(s) && !s.afterNested
  }

  /** The block was closed by a tag that began behind `front`, in the text directly inside it. */
  predicate ClosedAt(scan: Scanner, w: string, front: string, s: Scan, q: nat) {
    && Behind(w, s, |front|, q)
    && DirectlyInside(scan(front))
    && s.loses == scan(front).afterNested
  }

  /** Every stream behind an opening tag is inside the block, or behind its closing tag. */
  ghost predicate Explained(scan: Scanner, w: string, input: string) {
    Within(w, scan(input)) || exists front: string, q: nat :: front <= input && ClosedAt(scan, w, front, scan(input), q)
  }

  lemma ClosingStep(cfg: Config, w: string, s: Scan, before: Scan, c: char, s': Scan)
    requires Within(w, s) && BeganAt(s, before) && s' == ScanStep(cfg, s, c)
    ensures Within(w, s') || (Behind(w, s', |s.marks| - s.pending, |s'.marks|) && DirectlyInside(before) && s'.loses == before.afterNested)
  {
    WithinStep(cfg, w, s, c, s');
  }

  lemma ExplainedInside(cfg: Config, scan: Scanner, w: string, input: string, c: char)
    requires Scans(cfg, scan) && Within(w, scan(input))
    ensures Explained(scan, w, input + [c])
  {
    var front := PendingBegan(cfg, scan, input);
    ClosingStep(cfg, w, scan(input), scan(front), c, scan(input + [c]));
    assert front <= input <= input + [c];
    assert Within(w, scan(input + [c])) || ClosedAt(scan, w, front, scan(input + [c]), |input| + 1);
  }

  lemma ExplainedBehind(cfg: Config, scan: Scanner, w: string, input: string, front: string, c: char, q: nat)
    requires Scans(cfg, scan) && cfg.position == 0
    requires front <= input && ClosedAt(scan, w, front, scan(input), q)
    ensures Explained(scan, w, input + [c])
  {
    BehindStep(cfg, w, scan(input), |front|, q, c, scan(input + [c]));
    assert front <= input <= input + [c];
    assert ClosedAt(scan, w, front, scan(input + [c]), q);
  }

  lemma ExplainedStep(cfg: Config, scan: Scanner, w: string, input: string, c: char)
    requires Scans(cfg, scan) && cfg.position == 0 && Explained(scan, w, input)
    ensures Explained(scan, w, input + [c])
  {
    if Within(w, scan(input)) {
      ExplainedInside(cfg, scan, w, input, c);
    } else {
      var front: string, q: nat :| front <= input && ClosedAt(scan, w, front, scan(input), q);
      ExplainedBehind(cfg, scan, w, input, front, c, q);
    }
  }

  lemma {:induction false} StreamIsExplained(cfg: Config, scan: Scanner, w: string, t: string)
    requires Scans(cfg, scan) && Matches(cfg, w)
    ensures Explained(scan, w, Opened(w, t))
  {
    if t == "" {
      ReadOpened(cfg, scan, w);
    } else {
      var init, c := t[..|t| - 1], t[|t| - 1];
      StreamIsExplained(cfg, scan, w, init);
      LastOf("", t, init, c);
      OpenedText(w, init, c);
      ExplainedStep(cfg, scan, w, Opened(w, init), c);
    }
  }

  // ------------------------------------------------------- what comes out

  lemma InsideOfSum(marks: seq<Mark>, marks': seq<Mark>)
    ensures Inside(marks + marks') == Inside(marks) + Inside(marks')
  {
  }

  lemma {:induction false} InsideAppend(input: string, marks: seq<Mark>, input': string, marks': seq<Mark>)
    requires |input| == |marks| && |input'| == |marks'|
    ensures Select(input + input', marks + marks', Inside(marks + marks'))
         == Select(input, marks, Inside(marks)) + Select(input', marks', Inside(marks'))
  {
    InsideOfSum(marks, marks');
    SelectAppend(input, marks, Inside(marks), input', marks', Inside(marks'));
  }

  /** An outermost tag and then `text` with one flag. */
  lemma {:induction false} SelectTagged(tag: string, text: string, marks: seq<Mark>, matched: bool)
    requires |marks| == |tag| + |text|
    requires forall i | 0 <= i < |tag| :: marks[i] == TagText(false)
    requires forall i | |tag| <= i < |marks| :: Counts(marks[i], matched)
    ensures Select(tag + text, marks, Inside(marks)) == Flag(text, matched)
  {
    var m, m' := marks[..|tag|], marks[|tag|..];
    SelectNone(tag, m);
    SelectAll(text, m', matched);
    assert Inside(m) == Repeat(false, |tag|) && Inside(m') == Repeat(true, |text|);
    InsideAppend(tag, m, text, m');
    assert marks == m + m';
  }

  lemma {:induction false} SelectWithin(w: string, t: string, s: Scan)
    requires Within(w, s) && |s.marks| == |Opened(w, t)|
    ensures Select(Opened(w, t), s.marks, Inside(s.marks)) == Flag(t, true)
  {
    SelectTagged("<" + w + ">", t, s.marks, true);
  }

  lemma StreamParts(w: string, t: string, i: nat, j: nat)
    requires i <= j <= |t|
    ensures Opened(w, t) == (("<" + w + ">") + t[..i]) + (t[i..j] + t[j..])
  {
    assert t == t[..i] + (t[i..j] + t[j..]);
  }

  lemma {:induction false} SelectBehind(w: string, t: string, s: Scan, i: nat, j: nat)
    requires i <= j <= |t| && Behind(w, s, |w| + 2 + i, |w| + 2 + j) && |s.marks| == |Opened(w, t)|
    ensures Select(Opened(w, t), s.marks, Inside(s.marks)) == Flag(t[..i], true) + Flag(t[j..], false)
  {
    var p, open := |w| + 2 + i, "<" + w + ">";
    SelectTwice(open, t[..i], t[i..j], t[j..], s.marks, s.marks[..p], s.marks[p..]);
    StreamParts(w, t, i, j);
  }

  lemma {:induction false} SelectTwice(open: string, text: string, close: string, rest: string, marks: seq<Mark>, m: seq<Mark>, m': seq<Mark>)
    requires marks == m + m' && |m| == |open| + |text| && |m'| == |close| + |rest|
    requires (forall i | 0 <= i < |open| :: m[i] == TagText(false)) && (forall i | |open| <= i < |m| :: Counts(m[i], true))
    requires (forall i | 0 <= i < |close| :: m'[i] == TagText(false)) && (forall i | |close| <= i < |m'| :: Counts(m'[i], false))
    ensures Select((open + text) + (close + rest), marks, Inside(marks)) == Flag(text, true) + Flag(rest, false)
  {
    SelectTagged(open, text, m, true);
    SelectTagged(close, rest, m', false);
    InsideAppend(open + text, m, close + rest, m');
  }

  lemma BlockShape(cfg: Config, scan: Scanner, w: string, t: string, s: Scan) returns (i: nat, j: nat)
    requires Scans(cfg, scan) && Matches(cfg, w) && s == scan(Opened(w, t))
    ensures i <= j <= |t|
    ensures s.ctl.depth >= 1 ==> Select(Opened(w, t), s.marks, Inside(s.marks)) == Flag(t, true)
    ensures s.ctl.depth < 1 ==>
              && i < j && DirectlyInside(scan(Opened(w, t[..i]))) && s.loses == scan(Opened(w, t[..i])).afterNested
              && Select(Opened(w, t), s.marks, Inside(s.marks)) == Flag(t[..i], true) + Flag(t[j..], false)
  {
    StreamIsExplained(cfg, scan, w, t);
    i, j := 0, 0;
    if Within(w, s) {
      SelectWithin(w, t, s);
    } else {
      var front: string, q: nat :| front <= Opened(w, t) && ClosedAt(scan, w, front, s, q);
      i, j := |front| - (|w| + 2), q - (|w| + 2);
      SelectBehind(w, t, s, i, j);
      OpenedFront(w, t, i, front);
    }
  }

  /**
   Any stream behind an opening tag, for every cut, unless the closing tag stands
   right behind a nested one: all of it comes out flagged when the block is not
   closed, and otherwise what stands in front of the closing tag flagged, what
   stands behind it unflagged, and the two tags not at all. The closing tag is the
   first one with a contained text in front.
   */
  lemma {:induction false} BlockStream(cfg: Config, w: string, t: string, chunks: seq<string>) returns (i: nat, j: nat)
    requires Matches(cfg, w) && Concat(chunks) == Opened(w, t) && !ScanOf(cfg, Opened(w, t)).loses
    ensures i <= j <= |t|
    ensures ScanOf(cfg, Opened(w, t)).ctl.depth >= 1 ==> Output(cfg, chunks) == Flag(t, true)
    ensures ScanOf(cfg, Opened(w, t)).ctl.depth < 1 ==>
              i < j && Contained(cfg, w, t[..i]) && Output(cfg, chunks) == Flag(t[..i], true) + Flag(t[j..], false)
  {
    LosslessOutput(cfg, chunks);
    ScanOfScans(cfg);
    i, j := BlockShape(cfg, Scanned(cfg), w, t, ScanOf(cfg, Opened(w, t)));
  }

  lemma OpenedFront(w: string, t: string, i: nat, front: string)
    requires i <= |t| && |front| == |w| + 2 + i && front <= Opened(w, t)
    ensures front == Opened(w, t[..i])
  {
    assert Opened(w, t) == Opened(w, t[..i]) + t[i..];
  }

  // ------------------------------------------------------- reading the closing tag

  lemma ClosingBegins(cfg: Config, w: string, s: Scan, afterNested: bool, s1: Scan, s2: Scan)
    requires PlainName(w) && StageOf(w, s) == AtText(afterNested)
    requires s1 == ScanStep(cfg, s, '<') && s2 == ScanStep(cfg, s1, '/')
    ensures StageOf(w, s2) == InClosing(0, afterNested)
  {
    WithinStep(cfg, w, s, '<', s1);
    assert s1.ctl.candidates == [Candidate(w, 0)];
    WithinStep(cfg, w, s1, '/', s2);
  }

  lemma ClosingGoesOn(cfg: Config, w: string, s: Scan, i: nat, afterNested: bool, s': Scan)
    requires PlainName(w) && i < |w| && StageOf(w, s) == InClosing(i, afterNested) && s' == ScanStep(cfg, s, w[i])
    ensures StageOf(w, s') == InClosing(i + 1, afterNested)
  {
    WithinStep(cfg, w, s, w[i], s');
  }

  lemma ClosingEnds(cfg: Config, w: string, s: Scan, afterNested: bool, s': Scan)
    requires PlainName(w) && StageOf(w, s) == InClosing(|w|, afterNested) && s' == ScanStep(cfg, s, '>')
    ensures Behind(w, s', |s.marks| - (2 + |w|), |s'.marks|) && s'.loses == afterNested
  {
    WithinStep(cfg, w, s, '>', s');
  }

  lemma ReadSlash(cfg: Config, scan: Scanner, w: string, input: string, afterNested: bool)
    requires Scans(cfg, scan) && PlainName(w) && StageOf(w, scan(input)) == AtText(afterNested)
    ensures StageOf(w, scan(input + "</")) == InClosing(0, afterNested)
  {
    assert input + "</" == (input + ['<']) + ['/'];
    ClosingBegins(cfg, w, scan(input), afterNested, scan(input + ['<']), scan(input + "</"));
  }

  lemma {:induction false} ReadClosing(cfg: Config, scan: Scanner, w: string, x: string, t: string, afterNested: bool)
    requires Scans(cfg, scan) && PlainName(w) && t <= w && StageOf(w, scan(x)) == InClosing(0, afterNested)
    ensures StageOf(w, scan(x + t)) == InClosing(|t|, afterNested)
  {
    if t == "" {
      assert x + t == x;
    } else {
      var init, c := t[..|t| - 1], t[|t| - 1];
      LastOf(x, t, init, c);
      ReadClosing(cfg, scan, w, x, init, afterNested);
      ClosingGoesOn(cfg, w, scan(x + init), |init|, afterNested, scan(x + t));
    }
  }

  lemma {:induction false} StaysBehind(cfg: Config, scan: Scanner, w: string, input: string, rest: string, p: nat, q: nat)
    requires Scans(cfg, scan) && cfg.position == 0 && Behind(w, scan(input), p, q)
    ensures Behind(w, scan(input + rest), p, q) && scan(input + rest).loses == scan(input).loses
  {
    if rest == "" {
      assert input + rest == input;
    } else {
      var init, c := rest[..|rest| - 1], rest[|rest| - 1];
      LastOf(input, rest, init, c);
      StaysBehind(cfg, scan, w, input, init, p, q);
      BehindStep(cfg, w, scan(input + init), p, q, c, scan(input + rest));
    }
  }

  /** In the text directly inside the block the closing tag is recognised. */
  lemma ReadWholeClosing(cfg: Config, scan: Scanner, w: string, input: string, afterNested: bool, s: Scan)
    requires Scans(cfg, scan) && PlainName(w) && StageOf(w, scan(input)) == AtText(afterNested)
    requires s == scan(input + "</" + w + ">")
    ensures Behind(w, s, |input|, |input| + |w| + 3) && s.loses == afterNested
  {
    var slash := input + "</";
    ReadSlash(cfg, scan, w, input, afterNested);
    ReadClosing(cfg, scan, w, slash, w, afterNested);
    assert slash + w + ">" == (slash + w) + ['>'];
    ClosingEnds(cfg, w, scan(slash + w), afterNested, s);
  }

  lemma ContainedStage(cfg: Config, scan: Scanner, w: string, body: string)
    requires Scans(cfg, scan) && Matches(cfg, w) && DirectlyInside(scan(Opened(w, body)))
    ensures StageOf(w, scan(Opened(w, body))) == AtText(scan(Opened(w, body)).afterNested)
  {
    StreamIsExplained(cfg, scan, w, body);
    var _ := PendingBegan(cfg, scan, Opened(w, body));
  }

  /** Behind a contained body the closing tag is recognised. */
  lemma BlockIsClosed(cfg: Config, scan: Scanner, w: string, body: string, rest: string, s: Scan)
    requires Scans(cfg, scan) && Matches(cfg, w) && DirectlyInside(scan(Opened(w, body)))
    requires s == scan(Opened(w, body) + "</" + w + ">" + rest)
    ensures Behind(w, s, |w| + 2 + |body|, |w| + 2 + |body| + (|w| + 3))
    ensures s.loses == scan(Opened(w, body)).afterNested
  {
    var closed := Opened(w, body) + "</" + w + ">";
    ContainedStage(cfg, scan, w, body);
    ReadWholeClosing(cfg, scan, w, Opened(w, body), scan(Opened(w, body)).afterNested, scan(closed));
    StaysBehind(cfg, scan, w, closed, rest, |w| + 2 + |body|, |w| + 2 + |body| + (|w| + 3));
  }

  // ------------------------------------------------------- the block as it was meant

  lemma BlockText(w: string, body: string, rest: string, t: string)
    requires t == body + ("</" + w + ">" + rest)
    ensures Opened(w, t) == Block(w, body, rest) == Opened(w, body) + "</" + w + ">" + rest
    ensures |t| == |body| + |w| + 3 + |rest| && body <= t && t[..|body|] == body && t[|body| + (|w| + 3)..] == rest
  {
  }

  lemma FlagsTell(a: string, b: string, c: string, d: string)
    requires |a| < |c|
    ensures Flag(a, true) + Flag(b, false) != Flag(c, true) + Flag(d, false)
  {
    var x, y := Flag(a, true) + Flag(b, false), Flag(c, true) + Flag(d, false);
    assert y[|a|].1;
    assert |a| < |x| ==> !x[|a|].1;
  }

  /** For every cut, the body comes out flagged, the rest unflagged, the tags not at all. */
  ghost predicate ComesOut(cfg: Config, w: string, body: string, rest: string) {
    forall chunks | Concat(chunks) == Block(w, body, rest) ::
      Output(cfg, chunks) == Flag(body, true) + Flag(rest, false)
  }

  lemma {:induction false} SelectBlock(w: string, body: string, rest: string, t: string, s: Scan)
    requires t == body + ("</" + w + ">" + rest) && |s.marks| == |Opened(w, t)|
    requires Behind(w, s, |w| + 2 + |body|, |w| + 2 + |body| + (|w| + 3))
    ensures Select(Opened(w, t), s.marks, Inside(s.marks)) == Flag(body, true) + Flag(rest, false)
  {
    BlockText(w, body, rest, t);
    SelectBehind(w, t, s, |body|, |body| + (|w| + 3));
  }

  lemma {:induction false} ContainedComesOut(cfg: Config, w: string, body: string, rest: string)
    requires Matches(cfg, w) && Contained(cfg, w, body)
    ensures ComesOut(cfg, w, body, rest)
  {
    var t := body + ("</" + w + ">" + rest);
    BlockText(w, body, rest, t);
    ScanOfScans(cfg);
    BlockIsClosed(cfg, Scanned(cfg), w, body, rest, ScanOf(cfg, Opened(w, t)));
    SelectBlock(w, body, rest, t, ScanOf(cfg, Opened(w, t)));
    forall chunks | Concat(chunks) == Block(w, body, rest)
      ensures Output(cfg, chunks) == Flag(body, true) + Flag(rest, false)
    {
      LosslessOutput(cfg, chunks);
    }
  }

  lemma {:induction false} OnlyContainedComesOut(cfg: Config, w: string, body: string, rest: string)
    requires Matches(cfg, w) && ComesOut(cfg, w, body, rest)
    ensures Contained(cfg, w, body)
  {
    var t := body + ("</" + w + ">" + rest);
    CuttingMattersIff(cfg, Opened(w, t));
    PushAllStart(cfg, Opened(w, t));
    assert Output(cfg, [Opened(w, t)]) == Flag(body, true) + Flag(rest, false);
    var i, j := BlockStream(cfg, w, t, [Opened(w, t)]);
    BlockText(w, body, rest, t);
    PartsTell(t, i, j, body, rest, Output(cfg, [Opened(w, t)]), ScanOf(cfg, Opened(w, t)).ctl.depth >= 1);
  }

  /** Where the block ends can be read off what comes out. */
  lemma PartsTell(t: string, i: nat, j: nat, body: string, rest: string, out: seq<Flagged>, open: bool)
    requires i <= j <= |t| && |t| > |body| + |rest| && body <= t && out == Flag(body, true) + Flag(rest, false)
    requires out == if open then Flag(t, true) else Flag(t[..i], true) + Flag(t[j..], false)
    ensures !open && t[..i] == body
  {
    assert |out| < |t|;
    if i < |body| {
      FlagsTell(t[..i], t[j..], body, rest);
    } else if |body| < i {
      FlagsTell(body, rest, t[..i], t[j..]);
    }
  }

  /** A block at the start of a stream comes out as it was meant exactly when its body is contained. */
  lemma {:induction false} ReasoningBlockIff(cfg: Config, w: string, body: string, rest: string)
    requires Matches(cfg, w)
    ensures ComesOut(cfg, w, body, rest) <==> Contained(cfg, w, body)
  {
    if Contained(cfg, w, body) {
      ContainedComesOut(cfg, w, body, rest);
    }
    if ComesOut(cfg, w, body, rest) {
      OnlyContainedComesOut(cfg, w, body, rest);
    }
  }

  lemma OpenedSplit(w: string, front: string, tail: string)
    ensures Opened(w, front + tail) == Opened(w, front) + tail
  {
  }

  lemma NeverLeaves(cfg: Config, scan: Scanner, w: string, front: string, tail: string)
    requires Scans(cfg, scan) && Matches(cfg, w) && DirectlyInside(scan(Opened(w, front + tail)))
    ensures scan(Opened(w, front)).ctl.depth >= 1
  {
    StreamIsExplained(cfg, scan, w, front);
    if !Within(w, scan(Opened(w, front))) {
      var closed: string, q: nat :| closed <= Opened(w, front) && ClosedAt(scan, w, closed, scan(Opened(w, front)), q);
      OpenedSplit(w, front, tail);
      StaysBehind(cfg, scan, w, Opened(w, front), tail, |closed|, q);
    }
  }

  /** A contained body is inside the block all along. */
  lemma {:induction false} ContainedNeverLeaves(cfg: Config, w: string, front: string, tail: string)
    requires Matches(cfg, w) && Contained(cfg, w, front + tail)
    ensures ControlAfter(cfg, Opened(w, front)).depth >= 1
  {
    ScanOfScans(cfg);
    NeverLeaves(cfg, Scanned(cfg), w, front, tail);
    assert Scanned(cfg)(Opened(w, front)).ctl == ControlAfter(cfg, Opened(w, front));
  }

  lemma OpenedBody(w: string, body: string)
    ensures Opened(w, body) == Opened(w, "") + body
  {
  }

  lemma PlainBody(cfg: Config, scan: Scanner, w: string, x: string, body: string, s: Scan)
    requires Scans(cfg, scan) && Matches(cfg, w) && '<' !in body && x == Opened(w, "") && s == scan(x + body)
    ensures DirectlyInside(s) && !s.afterNested
  {
    ReadOpened(cfg, scan, w);
    ReadText(cfg, scan, w, x, body);
  }

  lemma {:induction false} PlainIsContained(cfg: Config, w: string, body: string)
    requires Matches(cfg, w) && '<' !in body
    ensures Contained(cfg, w, body)
  {
    ScanOfScans(cfg);
    OpenedBody(w, body);
    PlainBody(cfg, Scanned(cfg), w, Opened(w, ""), body, ScanOf(cfg, Opened(w, body)));
  }

  /** A body without `<` is contained. */
  lemma {:induction false} ReasoningBlock(cfg: Config, w: string, body: string, rest: string, chunks: seq<string>)
    requires Matches(cfg, w) && '<' !in body
    requires Concat(chunks) == Block(w, body, rest)
    ensures Output(cfg, chunks) == Flag(body, true) + Flag(rest, false)
  {
    PlainIsContained(cfg, w, body);
    ContainedComesOut(cfg, w, body, rest);
  }

  lemma FallsBack(s: Scan, s1: Scan, s2: Scan)
    requires StageOf("t", s) == AtText(false) && s1 == ScanStep(T, s, '<') && s2 == ScanStep(T, s1, '<')
    ensures s1.ctl.state == TagOpen && StageOf("t", s2) == AtText(false)
  {
    WithinStep(T, "t", s, '<', s1);
    assert s1.ctl.candidates == [Candidate("t", 0)];
    assert [Candidate("t", 0)][..0] == [];
    WithinStep(T, "t", s1, '<', s2);
  }

  lemma ReadHidden(scan: Scanner, x: string, x1: string, x2: string)
    requires Scans(T, scan) && x == Opened("t", "") && x1 == x + ['<'] && x2 == x1 + ['<']
    ensures scan(x1).ctl.state == TagOpen && StageOf("t", scan(x2 + "/t>")) == AtText(false)
  {
    ReadOpened(T, scan, "t");
    FallsBack(scan(x), scan(x1), scan(x2));
    ReadText(T, scan, "t", x2, "/t>");
  }

  lemma HiddenText(x: string, x1: string, x2: string)
    requires x == Opened("t", "") && x1 == x + ['<'] && x2 == x1 + ['<']
    ensures x1 == Opened("t", "<") && x2 + "/t>" == Opened("t", "<</t>") == Block("t", "<", "")
  {
    assert "<" + ("</" + "t" + ">" + "") == "<</t>" == "<<" + "/t>";
  }

  lemma {:induction false} NotContained(x: string, x1: string, x2: string)
    requires x == Opened("t", "") && x1 == x + ['<'] && x2 == x1 + ['<'] && x1 == Opened("t", "<")
    ensures !Contained(T, "t", "<") && StageOf("t", ScanOf(T, x2 + "/t>")) == AtText(false)
  {
    ScanOfScans(T);
    ReadHidden(Scanned(T), x, x1, x2);
    assert Scanned(T)(x1) == ScanOf(T, x1);
  }

  /** A body that ends in `<` hides the closing tag: the whole stream comes out flagged, closing tag and all. */
  lemma {:induction false} AngleBracketHidesClosing(chunks: seq<string>)
    requires Concat(chunks) == Block("t", "<", "")
    ensures !Contained(T, "t", "<") && Output(T, chunks) == Flag("<</t>", true) != Flag("<", true) + Flag("", false)
  {
    var x := Opened("t", "");
    HiddenText(x, x + ['<'], x + ['<'] + ['<']);
    NotContained(x, x + ['<'], x + ['<'] + ['<']);
    var _, _ := BlockStream(T, "t", "<</t>", chunks);
    assert |Flag("<</t>", true)| == 5;
  }

  // ------------------------------------------------------- an input whose output depends on the cuts

  /** In the text inside these tags. */
  predicate InTags(s: Scan, tags: seq<string>) {
    && s.pending <= |s.marks|
    && s.ctl.state == InText && s.ctl.depth == |tags| && s.ctl.matched == (tags != []) && s.ctl.active == tags
  }

  const T := Config(["t"], 0)

  lemma NestedOpen(s: Scan, s1: Scan, s2: Scan, s3: Scan)
    requires InTags(s, ["t"])
    requires s1 == ScanStep(T, s, '<') && s2 == ScanStep(T, s1, 't') && s3 == ScanStep(T, s2, '>')
    ensures InTags(s3, ["t", "t"])
  {
    assert [Candidate("t", 0)][..0] == [];
    assert s1.ctl.state == TagOpen && s1.ctl.candidates == [Candidate("t", 0)];
    assert s1.ctl.candidates[0].index == 0;
    assert s2.ctl.state == TagOpen && s2.ctl.candidates == [Candidate("t", 1)];
    assert s3.ctl.active == ["t"] + ["t"];
  }

  lemma CloseOne(s: Scan, tags: seq<string>, s1: Scan, s2: Scan, s3: Scan, s4: Scan)
    requires InTags(s, tags + ["t"])
    requires s1 == ScanStep(T, s, '<') && s2 == ScanStep(T, s1, '/') && s3 == ScanStep(T, s2, 't') && s4 == ScanStep(T, s3, '>')
    ensures InTags(s4, tags) && s4.afterNested == (tags != []) && s4.loses == (s.loses || (tags == [] && s.afterNested))
  {
    assert s1.ctl.state == TagOpen && s1.ctl.candidates == [Candidate("t", 0)] && s1.afterNested == s.afterNested && s1.loses == s.loses;
    assert s2.ctl.state == TagClose && s2.ctl.index == 0 && s2.afterNested == s.afterNested && s2.loses == s.loses;
    assert s3.ctl.state == TagClose && s3.ctl.index == 1 && s3.afterNested == s.afterNested && s3.loses == s.loses;
    assert (tags + ["t"])[..|tags|] == tags;
  }

  lemma TagChars(x: string)
    ensures x + "</t>" == x + ['<'] + ['/'] + ['t'] + ['>'] && x + "<t>" == x + ['<'] + ['t'] + ['>']
  {
  }

  lemma TwoSteps(scan: Scanner, x: string, a: char, b: char, after: string) returns (s: Scan)
    requires Scans(T, scan) && after == x + [a] + [b]
    ensures s == ScanStep(T, scan(x), a) && scan(after) == ScanStep(T, s, b)
  {
    s := scan(x + [a]);
  }

  lemma CloseText(scan: Scanner, x: string, tags: seq<string>, after: string)
    requires Scans(T, scan) && InTags(scan(x), tags + ["t"]) && after == x + ['<'] + ['/'] + ['t'] + ['>']
    ensures InTags(scan(after), tags) && scan(after).afterNested == (tags != [])
    ensures scan(after).loses == (scan(x).loses || (tags == [] && scan(x).afterNested))
  {
    var slash := x + ['<'] + ['/'];
    var s1 := TwoSteps(scan, x, '<', '/', slash);
    var s3 := TwoSteps(scan, slash, 't', '>', after);
    CloseOne(scan(x), tags, s1, scan(slash), s3, scan(after));
  }

  lemma OpenText(scan: Scanner, x: string, after: string)
    requires Scans(T, scan) && InTags(scan(x), ["t"]) && after == x + ['<'] + ['t'] + ['>']
    ensures InTags(scan(after), ["t", "t"])
  {
    var x2 := x + ['<'] + ['t'];
    NestedOpen(scan(x), scan(x + ['<']), scan(x2), scan(after));
  }

  /** A tag nested at the very end of the outermost one. */
  const NESTED := Opened("t", "") + "<t>" + "</t>" + "</t>"

  lemma NestedLoses(scan: Scanner)
    requires Scans(T, scan)
    ensures scan(NESTED).loses
  {
    var x := Opened("t", "");
    ReadOpened(T, scan, "t");
    assert scan(x).ctl.active == ["t"];
    assert ["t", "t"] == ["t"] + ["t"] && ["t"] == [] + ["t"];
    TagChars(x);
    OpenText(scan, x, x + "<t>");
    TagChars(x + "<t>");
    CloseText(scan, x + "<t>", ["t"], x + "<t>" + "</t>");
    TagChars(x + "<t>" + "</t>");
    CloseText(scan, x + "<t>" + "</t>", [], NESTED);
  }

  lemma {:induction false} CutsMatterExample()
    ensures exists chunks, chunks' ::
      Concat(chunks) == Concat(chunks') == NESTED && Output(T, chunks) != Output(T, chunks')
  {
    ScanOfScans(T);
    NestedLoses(Scanned(T));
    CuttingMattersIff(T, NESTED);
  }
}

