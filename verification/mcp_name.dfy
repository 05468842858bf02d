/** Names of MCP tools: sanitizing, building, and fuzzy parsing. */
module McpName {
  import opened Text

  const SEPARATOR := "--"
  const MAX_LENGTH := 64

  // ------------------------------------------------------- sanitizing

  predicate IsAllowed(c: char) {
    IsLetter(c) || IsDigit(c) || c == '_' || c == '-'
  }

  /** Every run of white space becomes one underscore. */
  function SpacesToUnderscore(s: string): string {
    if s == "" then ""
    else
      var front, last := s[..|s| - 1], s[|s| - 1];
      if !IsSpace(last) then SpacesToUnderscore(front) + [last]
      else if front != "" && IsSpace(front[|front| - 1]) then SpacesToUnderscore(front)
      else SpacesToUnderscore(front) + "_"
  }

  function KeepAllowed(s: string): (r: string)
    ensures forall i | 0 <= i < |r| :: IsAllowed(r[i])
  {
    if s == "" then ""
    else KeepAllowed(s[..|s| - 1]) + if IsAllowed(s[|s| - 1]) then [s[|s| - 1]] else ""
  }

  predicate HyphensAt(s: string, i: nat) {
    i + 1 < |s| && s[i] == '-' && s[i + 1] == '-'
  }

  lemma NoHyphensSnoc(front: string, last: char)
    requires forall i: nat :: !HyphensAt(front, i)
    requires !(last == '-' && front != "" && front[|front| - 1] == '-')
    ensures forall i: nat :: !HyphensAt(front + [last], i)
  {
    forall i: nat
      ensures !HyphensAt(front + [last], i)
    {
      assert !HyphensAt(front, i);
    }
  }

  /** Every run of hyphens becomes one hyphen. */
  function CollapseHyphens(s: string): (r: string)
    ensures r == "" <==> s == ""
    ensures s != "" ==> r[|r| - 1] == s[|s| - 1]
    ensures forall c | c in r :: c in s
    ensures forall i: nat :: !HyphensAt(r, i)
  {
    if s == "" then ""
    else
      var front, last := CollapseHyphens(s[..|s| - 1]), s[|s| - 1];
      if last == '-' && front != "" && front[|front| - 1] == '-' then front
      else
        NoHyphensSnoc(front, last);
        front + [last]
  }

  function Sanitize(name: string): string {
    if name == "" then "_"
    else
      var kept := CollapseHyphens(KeepAllowed(SpacesToUnderscore(name)));
      if kept == "" then "_unnamed"
      else if IsLetter(kept[0]) || kept[0] == '_' then kept
      else "_" + kept
  }

  /** What an API accepts as a name, without a separator inside. */
  predicate IsSanitized(s: string) {
    && s != "" && (IsLetter(s[0]) || s[0] == '_')
    && (forall i | 0 <= i < |s| :: IsAllowed(s[i]))
    && (forall i | 0 <= i < |s| :: !HyphensAt(s, i))
  }

  lemma UnderscoreInFront(kept: string)
    requires (forall i | 0 <= i < |kept| :: IsAllowed(kept[i])) && (forall i: nat :: !HyphensAt(kept, i))
    ensures IsSanitized("_" + kept)
  {
    forall i: nat
      ensures !HyphensAt("_" + kept, i)
    {
      assert i > 0 ==> !HyphensAt(kept, i - 1);
    }
  }

  lemma {:induction false} KeptIsAllowed(allowed: string)
    requires forall i | 0 <= i < |allowed| :: IsAllowed(allowed[i])
    ensures forall i | 0 <= i < |CollapseHyphens(allowed)| :: IsAllowed(CollapseHyphens(allowed)[i])
  {
    var kept := CollapseHyphens(allowed);
    forall i | 0 <= i < |kept|
      ensures IsAllowed(kept[i])
    {
      assert kept[i] in kept;
    }
  }

  lemma {:induction false} SanitizeIsSanitized(name: string)
    ensures IsSanitized(Sanitize(name))
  {
    if name != "" {
      var allowed := KeepAllowed(SpacesToUnderscore(name));
      KeptIsAllowed(allowed);
      UnderscoreInFront(CollapseHyphens(allowed));
      assert IsSanitized("_unnamed");
    }
  }

  lemma {:induction false} AllowedIsKept(s: string)
    requires forall i | 0 <= i < |s| :: IsAllowed(s[i])
    ensures SpacesToUnderscore(s) == s && KeepAllowed(s) == s
  {
    if s != "" {
      var n := |s| - 1;
      assert IsAllowed(s[n]);
      AllowedIsKept(s[..n]);
      assert s == s[..n] + [s[n]];
    }
  }

  lemma {:induction false} SingleHyphensAreKept(s: string)
    requires forall i: nat :: !HyphensAt(s, i)
    ensures CollapseHyphens(s) == s
  {
    if s != "" {
      var n := |s| - 1;
      assert forall i: nat | HyphensAt(s[..n], i) :: HyphensAt(s, i);
      SingleHyphensAreKept(s[..n]);
      assert n > 0 ==> !HyphensAt(s, n - 1);
      assert s == s[..n] + [s[n]];
    }
  }

  lemma CleanIsKept(s: string)
    requires IsSanitized(s)
    ensures Sanitize(s) == s
  {
    AllowedIsKept(s);
    SingleHyphensAreKept(s);
  }

  /** Sanitizing leaves exactly the sanitized names alone; in particular it is idempotent. */
  lemma SanitizeIsIdempotent(name: string)
    ensures Sanitize(name) == name <==> IsSanitized(name)
    ensures Sanitize(Sanitize(name)) == Sanitize(name)
  {
    SanitizeIsSanitized(name);
    CleanIsKept(Sanitize(name));
    if IsSanitized(name) {
      CleanIsKept(name);
    }
  }

  // ------------------------------------------------------- what sanitizing does, piece by piece

  /** A run of white space becomes one underscore, wherever it stands. */
  lemma {:induction false} RunOfSpaces(front: string, spaces: string)
    requires spaces != "" && AllSpace(spaces) && (front != "" ==> !IsSpace(front[|front| - 1]))
    ensures SpacesToUnderscore(front + spaces) == SpacesToUnderscore(front) + "_"
  {
    var s, n := front + spaces, |spaces| - 1;
    assert s[..|s| - 1] == front + spaces[..n] && s[|s| - 1] == spaces[n];
    if n == 0 {
      assert front + spaces[..0] == front;
    } else {
      RunOfSpaces(front, spaces[..n]);
    }
  }

  lemma {:induction false} SpacesSnoc(front: string, c: char)
    ensures SpacesToUnderscore(front + [c]) == SpacesToUnderscore(front) +
      if !IsSpace(c) then [c] else if front != "" && IsSpace(front[|front| - 1]) then "" else "_"
  {
    assert (front + [c])[..|front|] == front;
  }

  lemma {:induction false} SpacesBehind(x: string, y: string, init: string, last: char)
    requires SpacesToUnderscore(x) == y + SpacesToUnderscore(init)
    requires IsSpace(last) ==> ((x != "" && IsSpace(x[|x| - 1])) <==> (init != "" && IsSpace(init[|init| - 1])))
    ensures SpacesToUnderscore(x + [last]) == y + SpacesToUnderscore(init + [last])
  {
    SpacesSnoc(x, last);
    SpacesSnoc(init, last);
  }

  lemma {:induction false} SpacesInFront(front: string, spaces: string, rest: string, all: string)
    requires spaces != "" && AllSpace(spaces) && all == front + spaces + rest
    requires (front != "" ==> !IsSpace(front[|front| - 1])) && (rest != "" ==> !IsSpace(rest[0]))
    ensures SpacesToUnderscore(all) == SpacesToUnderscore(front) + "_" + SpacesToUnderscore(rest)
  {
    if rest == "" {
      RunOfSpaces(front, spaces);
      assert all == front + spaces;
    } else {
      var init, last := rest[..|rest| - 1], rest[|rest| - 1];
      var x := front + spaces + init;
      LastBehind(front + spaces, init, last, rest);
      SpacesInFront(front, spaces, init, x);
      SpacesBehind(x, SpacesToUnderscore(front) + "_", init, last);
    }
  }

  lemma LastBehind(front: string, init: string, last: char, rest: string)
    requires rest != "" && init == rest[..|rest| - 1] && last == rest[|rest| - 1]
    ensures front + rest == (front + init) + [last] && rest == init + [last]
    ensures init != "" ==> (front + init)[|front + init| - 1] == init[|init| - 1]
    ensures init == "" ==> last == rest[0]
  {
  }

  lemma {:induction false} KeepSnoc(front: string, c: char)
    ensures KeepAllowed(front + [c]) == KeepAllowed(front) + if IsAllowed(c) then [c] else ""
  {
    assert (front + [c])[..|front|] == front;
  }

  /** Letters, digits, underscores and hyphens stay; every other character goes. */
  lemma {:induction false} KeptCharacter(c: char)
    ensures KeepAllowed([c]) == if 'a' <= c <= 'z' || 'A' <= c <= 'Z' || '0' <= c <= '9' || c == '_' || c == '-' then [c] else ""
  {
    KeepSnoc("", c);
    assert "" + [c] == [c];
  }

  /** Each character by itself. */
  lemma {:induction false} KeepAllowedAppend(a: string, b: string)
    ensures KeepAllowed(a + b) == KeepAllowed(a) + KeepAllowed(b)
  {
    if b == "" {
      assert a + b == a;
    } else {
      var init, last := b[..|b| - 1], b[|b| - 1];
      KeepAllowedAppend(a, init);
      KeepSnoc(a + init, last);
      KeepSnoc(init, last);
      LastBehind(a, init, last, b);
    }
  }

  lemma {:induction false} RunOfHyphens(front: string, hyphens: string)
    requires hyphens != "" && (forall i | 0 <= i < |hyphens| :: hyphens[i] == '-') && (front != "" ==> front[|front| - 1] != '-')
    ensures CollapseHyphens(front + hyphens) == CollapseHyphens(front) + "-"
  {
    var s, n := front + hyphens, |hyphens| - 1;
    assert s[..|s| - 1] == front + hyphens[..n] && s[|s| - 1] == '-';
    if n == 0 {
      assert front + hyphens[..0] == front;
    } else {
      RunOfHyphens(front, hyphens[..n]);
    }
  }

  /** A run of hyphens becomes one, and what is around it collapses by itself. */
  lemma {:induction false} CollapseSnoc(front: string, c: char)
    ensures CollapseHyphens(front + [c]) ==
      if c == '-' && front != "" && front[|front| - 1] == '-' then CollapseHyphens(front) else CollapseHyphens(front) + [c]
  {
    assert (front + [c])[..|front|] == front;
  }

  lemma {:induction false} CollapseBehind(x: string, y: string, init: string, last: char)
    requires CollapseHyphens(x) == y + CollapseHyphens(init)
    requires last == '-' ==> ((x != "" && x[|x| - 1] == '-') <==> (init != "" && init[|init| - 1] == '-'))
    ensures CollapseHyphens(x + [last]) == y + CollapseHyphens(init + [last])
  {
    CollapseSnoc(x, last);
    CollapseSnoc(init, last);
  }

  lemma {:induction false} HyphensInFront(front: string, hyphens: string, rest: string, all: string)
    requires hyphens != "" && (forall i | 0 <= i < |hyphens| :: hyphens[i] == '-') && all == front + hyphens + rest
    requires (front != "" ==> front[|front| - 1] != '-') && (rest != "" ==> rest[0] != '-')
    ensures CollapseHyphens(all) == CollapseHyphens(front) + "-" + CollapseHyphens(rest)
  {
    if rest == "" {
      RunOfHyphens(front, hyphens);
      assert all == front + hyphens;
    } else {
      var init, last := rest[..|rest| - 1], rest[|rest| - 1];
      var x := front + hyphens + init;
      LastBehind(front + hyphens, init, last, rest);
      HyphensInFront(front, hyphens, init, x);
      CollapseBehind(x, CollapseHyphens(front) + "-", init, last);
    }
  }

  lemma AllowedAround(a: string, b: string)
    requires (forall i | 0 <= i < |a| :: IsAllowed(a[i])) && (forall i | 0 <= i < |b| :: IsAllowed(b[i]))
    ensures forall i | 0 <= i < |a + "_" + b| :: IsAllowed((a + "_" + b)[i])
  {
  }

  lemma NoHyphensAround(a: string, b: string)
    requires (forall i: nat :: !HyphensAt(a, i)) && (forall i: nat :: !HyphensAt(b, i))
    ensures forall i: nat :: !HyphensAt(a + "_" + b, i)
  {
    forall i: nat ensures !HyphensAt(a + "_" + b, i) {
      if i < |a| {
        assert !HyphensAt(a, i);
      } else if i > |a| {
        assert !HyphensAt(b, i - |a| - 1);
      }
    }
  }

  /** White space between two words is one underscore in the sanitized name. */
  lemma SpacesSanitize(a: string, spaces: string, b: string)
    requires IsSanitized(a) && IsSanitized(b) && spaces != "" && AllSpace(spaces)
    ensures Sanitize(a + spaces + b) == a + "_" + b
  {
    assert IsAllowed(a[|a| - 1]) && IsAllowed(b[0]);
    SpacesInFront(a, spaces, b, a + spaces + b);
    AllowedIsKept(a);
    AllowedIsKept(b);
    AllowedAround(a, b);
    AllowedIsKept(a + "_" + b);
    NoHyphensAround(a, b);
    SingleHyphensAreKept(a + "_" + b);
  }

  /** A name nothing is kept of has a stand-in, and one that would begin with a digit or a hyphen an underscore in front. */
  lemma SanitizeFirst(name: string, kept: string)
    requires name != "" && kept == CollapseHyphens(KeepAllowed(SpacesToUnderscore(name)))
    ensures Sanitize("") == "_"
    ensures kept == "" ==> Sanitize(name) == "_unnamed"
    ensures kept != "" && (kept[0] == '-' || '0' <= kept[0] <= '9') ==> Sanitize(name) == "_" + kept
    ensures kept != "" && kept[0] != '-' && !('0' <= kept[0] <= '9') ==> Sanitize(name) == kept
  {
    if kept != "" {
      assert kept[0] in kept && kept[0] in KeepAllowed(SpacesToUnderscore(name));
    }
  }

  // ------------------------------------------------------- building and parsing

  function Build(server: string, tool: string): (r: string)
    ensures |r| <= MAX_LENGTH
  {
    var full := "mcp" + SEPARATOR + Sanitize(server) + SEPARATOR + Sanitize(tool);
    if |full| > MAX_LENGTH then full[..MAX_LENGTH] else full
  }

  /** Hyphens become underscores, as models like to write them. */
  function Underscored(s: string): (r: string)
    ensures |r| == |s|
  {
    seq(|s|, i requires 0 <= i < |s| => if s[i] == '-' then '_' else s[i])
  }

  predicate NamesMatch(a: string, b: string) {
    Underscored(a) == Underscored(b)
  }

  /** Names match when they differ in hyphens against underscores only, character by character. */
  lemma NamesMatchMeans(a: string, b: string)
    ensures NamesMatch(a, b) <==>
      |a| == |b| && forall i | 0 <= i < |a| :: a[i] == b[i] || (a[i] == '-' && b[i] == '_') || (a[i] == '_' && b[i] == '-')
  {
    if NamesMatch(a, b) {
      assert |Underscored(a)| == |Underscored(b)|;
      forall i | 0 <= i < |a|
        ensures a[i] == b[i] || (a[i] == '-' && b[i] == '_') || (a[i] == '_' && b[i] == '-')
      {
        assert Underscored(a)[i] == Underscored(b)[i];
      }
    }
  }

  predicate SeparatorAt(s: string, i: nat) {
    i + 1 < |s| && s[i] == s[i + 1] && (s[i] == '-' || s[i] == '_')
  }

  function FirstSeparator(s: string, from: nat): (r: Option<nat>)
    ensures r.Some? ==> from <= r.value && SeparatorAt(s, r.value) && forall k: nat | from <= k < r.value :: !SeparatorAt(s, k)
    ensures r.None? ==> forall k: nat | from <= k :: !SeparatorAt(s, k)
    decreases |s| - from
  {
    if SeparatorAt(s, from) then Some(from)
    else if from >= |s| then None
    else FirstSeparator(s, from + 1)
  }

  /** Splitting at double hyphens and double underscores, left to right. */
  function SplitNames(s: string): (parts: seq<string>)
    ensures parts != []
    decreases |s|
  {
    match FirstSeparator(s, 0)
    case None => [s]
    case Some(i) => [s[..i]] + SplitNames(s[i + 2..])
  }

  function Normalize(name: string): string {
    var parts := SplitNames(name);
    if "mcp__" <= Underscored(name) && |parts| >= 3 && parts[0] == "mcp"
    then "mcp" + SEPARATOR + parts[1] + SEPARATOR + Join(parts[2..], SEPARATOR)
    else name
  }

  datatype ToolName = ToolName(server: string, tool: string)

  function Parse(name: string): Option<ToolName> {
    var normalized, prefix := Normalize(name), "mcp" + SEPARATOR;
    if !(prefix <= normalized) then None
    else
      var remainder := normalized[|prefix|..];
      match IndexOf(remainder, SEPARATOR, 0)
      case None => None
      case Some(i) =>
        var server, tool := remainder[..i], remainder[i + |SEPARATOR|..];
        if server == "" || tool == "" then None else Some(ToolName(server, tool))
  }

  // ------------------------------------------------------- splitting and joining

  lemma {:induction false} JoinFirst(part: string, rest: seq<string>)
    requires rest != []
    ensures Join([part] + rest, SEPARATOR) == part + SEPARATOR + Join(rest, SEPARATOR)
  {
    var all := [part] + rest;
    var n := |rest| - 1;
    if n == 0 {
      assert all[..1] == [part];
    } else {
      JoinFirst(part, rest[..n]);
      assert all[..|all| - 1] == [part] + rest[..n];
      assert Join(all, SEPARATOR) == Join([part] + rest[..n], SEPARATOR) + SEPARATOR + rest[n];
    }
  }

  lemma UnderscoredAppend(a: string, b: string)
    ensures Underscored(a + b) == Underscored(a) + Underscored(b)
  {
  }

  lemma MatchingRest(front: string, cut: string, rest: string, joined: string)
    requires Underscored(cut) == "__" && NamesMatch(joined, rest)
    ensures NamesMatch(front + SEPARATOR + joined, front + cut + rest)
  {
    UnderscoredAppend(front + SEPARATOR, joined);
    UnderscoredAppend(front, SEPARATOR);
    UnderscoredAppend(front + cut, rest);
    UnderscoredAppend(front, cut);
    assert Underscored(SEPARATOR) == "__";
  }

  /** Splitting and joining with hyphens may change separators, but nothing else. */
  lemma {:induction false} JoinSplitMatches(s: string)
    ensures NamesMatch(Join(SplitNames(s), SEPARATOR), s)
    decreases |s|
  {
    match FirstSeparator(s, 0)
    case None =>
    case Some(i) =>
      var front, cut, rest := s[..i], s[i..i + 2], s[i + 2..];
      assert cut == [s[i], s[i]] && Underscored(cut) == "__";
      JoinSplitMatches(rest);
      JoinFirst(front, SplitNames(rest));
      MatchingRest(front, cut, rest, Join(SplitNames(rest), SEPARATOR));
      assert s == front + cut + rest;
  }

  lemma MatchesHaveSameLength(a: string, b: string)
    requires NamesMatch(a, b)
    ensures |a| == |b|
  {
    assert |Underscored(a)| == |Underscored(b)|;
  }

  // ------------------------------------------------------- what parsing means

  lemma {:induction false} NormalizeMatches(name: string)
    ensures NamesMatch(Normalize(name), name)
  {
    var parts := SplitNames(name);
    if "mcp__" <= Underscored(name) && |parts| >= 3 && parts[0] == "mcp" {
      JoinSplitMatches(name);
      assert parts == [parts[0]] + parts[1..] && parts[1..] == [parts[1]] + parts[2..];
      JoinFirst(parts[0], parts[1..]);
      JoinFirst(parts[1], parts[2..]);
      var rest := Join(parts[2..], SEPARATOR);
      assert "mcp" + SEPARATOR + (parts[1] + SEPARATOR + rest) == Normalize(name);
    }
  }

  /** A name is parsed only as a name built like it, up to hyphens and underscores. */
  lemma ParseMeans(name: string)
    requires Parse(name).Some?
    ensures var r := Parse(name).value;
            NamesMatch("mcp" + SEPARATOR + r.server + SEPARATOR + r.tool, name)
  {
    NormalizeMatches(name);
    var r := Parse(name).value;
    var remainder := Normalize(name)[5..];
    CutAtSeparator(remainder);
    assert Normalize(name) == ("mcp" + SEPARATOR) + remainder;
    Concat5("mcp", SEPARATOR, r.server, r.tool);
  }

  lemma CutAtSeparator(s: string)
    requires IndexOf(s, SEPARATOR, 0).Some?
    ensures var i := IndexOf(s, SEPARATOR, 0).value; s == s[..i] + SEPARATOR + s[i + 2..]
  {
    var i := IndexOf(s, SEPARATOR, 0).value;
    IndexOfIsFirst(s, SEPARATOR, 0);
    OccursIsSlice(s, SEPARATOR, i);
  }

  /** The first separator of a name `a`, separator, `b` is at the latest behind `a`. */
  lemma SeparatorBehind(a: string, h: char, b: string)
    requires h == '-' || h == '_'
    ensures var first := FirstSeparator(a + [h, h] + b, 0);
            && first.Some? && first.value <= |a|
            && (first.value == |a| <==> (forall k: nat :: !SeparatorAt(a, k)) && (a == "" || a[|a| - 1] != h))
  {
    var s := a + [h, h] + b;
    assert SeparatorAt(s, |a|);
    assert forall k: nat | k + 1 < |a| :: SeparatorAt(a, k) <==> SeparatorAt(s, k);
    assert a != "" ==> (SeparatorAt(s, |a| - 1) <==> a[|a| - 1] == h);
  }

  lemma SplitPrefix(h: char, rest: string)
    requires h == '-' || h == '_'
    ensures SplitNames("mcp" + [h, h] + rest) == ["mcp"] + SplitNames(rest)
    ensures "mcp__" <= Underscored("mcp" + [h, h] + rest)
  {
    SeparatorBehind("mcp", h, rest);
    var s := "mcp" + [h, h] + rest;
    assert s[..3] == "mcp" && s[5..] == rest;
    assert Underscored(s)[..5] == "mcp__";
  }

  /** Everything in front of the first separator is the server, unless it ends in a hyphen. */
  lemma ParseBuilt(h: char, rest: string, i: nat, name: string)
    requires h == '-' || h == '_'
    requires FirstSeparator(rest, 0) == Some(i) && name == "mcp" + [h, h] + rest
    ensures Parse(name).Some? ==> |Parse(name).value.server| <= i
    ensures i > 0 && rest[i - 1] != '-' && i + 2 < |rest| ==>
              var r := Parse(name); r.Some? && r.value.server == rest[..i] && NamesMatch(r.value.tool, rest[i + 2..])
  {
    var server, tool := rest[..i], Join(SplitNames(rest[i + 2..]), SEPARATOR);
    NormalizeBuilt(h, rest, name, i, server + SEPARATOR + tool);
    JoinSplitMatches(rest[i + 2..]);
    MatchesHaveSameLength(tool, rest[i + 2..]);
    assert forall k: nat | SeparatorAt(server, k) :: SeparatorAt(rest, k);
    ParseParts(name, server, tool);
  }

  lemma ParseParts(name: string, server: string, tool: string)
    requires Normalize(name) == "mcp" + SEPARATOR + (server + SEPARATOR + tool)
    ensures Parse(name).Some? ==> |Parse(name).value.server| <= |server|
    ensures (forall k: nat :: !SeparatorAt(server, k)) && server != "" && server[|server| - 1] != '-' && tool != "" ==>
              Parse(name) == Some(ToolName(server, tool))
  {
    var remainder := server + SEPARATOR + tool;
    FirstHyphens(server, tool);
    NormalizedParse(name, remainder);
    assert remainder[..|server|] == server && remainder[|server| + 2..] == tool;
  }

  lemma NormalizeBuilt(h: char, rest: string, name: string, i: nat, remainder: string)
    requires h == '-' || h == '_'
    requires FirstSeparator(rest, 0) == Some(i) && name == "mcp" + [h, h] + rest
    requires remainder == rest[..i] + SEPARATOR + Join(SplitNames(rest[i + 2..]), SEPARATOR)
    ensures Normalize(name) == "mcp" + SEPARATOR + remainder
  {
    SplitPrefix(h, rest);
    assert SplitNames(rest) == [rest[..i]] + SplitNames(rest[i + 2..]);
    NormalizeParts(name, rest[..i], SplitNames(rest[i + 2..]));
  }

  lemma NormalizeParts(name: string, server: string, more: seq<string>)
    requires "mcp__" <= Underscored(name) && more != [] && SplitNames(name) == ["mcp"] + ([server] + more)
    ensures Normalize(name) == "mcp" + SEPARATOR + (server + SEPARATOR + Join(more, SEPARATOR))
  {
    var parts, tool := SplitNames(name), Join(more, SEPARATOR);
    assert parts[0] == "mcp" && parts[1] == server && parts[2..] == more;
    Concat5("mcp", SEPARATOR, server, tool);
  }

  lemma Concat5(a: string, s: string, b: string, c: string)
    ensures a + s + b + s + c == a + s + (b + s + c)
  {
  }

  lemma NormalizedParse(name: string, remainder: string)
    requires Normalize(name) == "mcp" + SEPARATOR + remainder
    ensures Parse(name) ==
      match IndexOf(remainder, SEPARATOR, 0)
      case None => None
      case Some(i) => if i == 0 || i + 2 == |remainder| then None else Some(ToolName(remainder[..i], remainder[i + 2..]))
  {
    assert Normalize(name)[5..] == remainder;
  }

  lemma FirstHyphens(a: string, b: string)
    ensures var first := IndexOf(a + SEPARATOR + b, SEPARATOR, 0);
            && first.Some? && first.value <= |a|
            && ((forall k: nat :: !SeparatorAt(a, k)) && a != "" && a[|a| - 1] != '-' ==> first.value == |a|)
  {
    var s := a + SEPARATOR + b;
    IndexOfIsFirst(s, SEPARATOR, 0);
    OccursIsSlice(s, SEPARATOR, |a|);
    assert s[|a|..|a| + 2] == SEPARATOR;
    var i := IndexOf(s, SEPARATOR, 0).value;
    OccursIsSlice(s, SEPARATOR, i);
    assert s[i..i + 2][0] == '-' && s[i..i + 2][1] == '-';
    if i < |a| - 1 {
      assert SeparatorAt(a, i);
    }
  }

  // ------------------------------------------------------- round trips

  /** The names the builder could use in full. */
  predicate Fits(server: string, tool: string) {
    |Sanitize(server)| + |Sanitize(tool)| + 7 <= 64
  }

  lemma BuiltInFull(server: string, tool: string)
    requires Fits(server, tool)
    ensures Build(server, tool) == "mcp" + ['-', '-'] + (Sanitize(server) + ['-', '-'] + Sanitize(tool))
  {
    var s, t := Sanitize(server), Sanitize(tool);
    Concat5("mcp", SEPARATOR, s, t);
    assert SEPARATOR == ['-', '-'];
  }

  predicate AllAllowed(s: string) {
    forall i | 0 <= i < |s| :: IsAllowed(s[i])
  }

  lemma AllowedAppend(a: string, b: string)
    requires AllAllowed(a) && AllAllowed(b)
    ensures AllAllowed(a + b)
  {
  }

  lemma AllowedInFull(s: string, t: string)
    requires AllAllowed(s) && AllAllowed(t)
    ensures AllAllowed("mcp--" + s + "--" + t)
  {
    AllowedAppend("mcp--", s);
    AllowedAppend("mcp--" + s, "--");
    AllowedAppend("mcp--" + s + "--", t);
  }

  lemma CutIsPrefix(full: string, r: string)
    requires AllAllowed(full) && "mcp--" <= full
    requires r == if |full| > MAX_LENGTH then full[..MAX_LENGTH] else full
    ensures AllAllowed(r) && "mcp--" <= r <= full
    ensures |r| == (if |full| > MAX_LENGTH then MAX_LENGTH else |full|) && (r == full <==> |full| <= MAX_LENGTH)
  {
  }

  lemma FullName(s: string, t: string, full: string)
    requires full == "mcp--" + s + "--" + t
    ensures full == "mcp" + SEPARATOR + s + SEPARATOR + t && "mcp--" <= full && |full| == |s| + |t| + 7
  {
    assert "mcp" + SEPARATOR == "mcp--" == full[..5];
  }

  /**
   What an API gets: at most 64 allowed characters behind the prefix, both
   sanitized names in full when they fit, else the first 64 characters of that.
   */
  lemma BuildIsApiName(server: string, tool: string, full: string)
    requires full == "mcp--" + Sanitize(server) + "--" + Sanitize(tool)
    ensures AllAllowed(Build(server, tool)) && "mcp--" <= Build(server, tool) <= full
    ensures |Build(server, tool)| == if Fits(server, tool) then |full| else 64
    ensures Build(server, tool) == full <==> Fits(server, tool)
  {
    SanitizeIsSanitized(server);
    SanitizeIsSanitized(tool);
    AllowedInFull(Sanitize(server), Sanitize(tool));
    FullName(Sanitize(server), Sanitize(tool), full);
    CutIsPrefix(full, Build(server, tool));
  }

  /** A shortened name cannot give a tool of the right length back. */
  lemma ShortenedLosesTool(server: string, tool: string, name: string)
    requires !Fits(server, tool) && |name| == |Build(server, tool)|
    ensures var r := Parse(name);
            !(r.Some? && |r.value.server| == |Sanitize(server)| && |r.value.tool| == |Sanitize(tool)|)
  {
    if Parse(name).Some? {
      ParseMeans(name);
      var r := Parse(name).value;
      MatchesHaveSameLength("mcp" + SEPARATOR + r.server + SEPARATOR + r.tool, name);
    }
  }

  /** Double underscores are the only separators left in a sanitized name. */
  lemma SanitizedSeparators(s: string)
    requires IsSanitized(s)
    ensures IndexOf(s, "__", 0).None? <==> forall k: nat :: !SeparatorAt(s, k)
  {
    IndexOfIsFirst(s, "__", 0);
    forall k: nat
      ensures SeparatorAt(s, k) <==> OccursAt(s, "__", k)
    {
      OccursIsSlice(s, "__", k);
      if k + 2 <= |s| {
        assert s[k..k + 2] == [s[k], s[k + 1]];
        assert !HyphensAt(s, k);
      }
    }
  }

  /** A server name that ends where its separator begins, and not before. */
  ghost predicate Delimited(s: string, h: char) {
    (forall k: nat :: !SeparatorAt(s, k)) && s != "" && s[|s| - 1] != h
  }

  /** The server comes back exactly if it is delimited. */
  lemma ParsesBack(h: char, s: string, t: string, name: string)
    requires h == '-' || (h == '_' && '-' !in s)
    requires s != "" && t != "" && name == "mcp" + [h, h] + (s + [h, h] + t)
    ensures var r := Parse(name);
            if Delimited(s, h) then r.Some? && r.value.server == s && NamesMatch(r.value.tool, t)
            else r.Some? ==> |r.value.server| < |s|
  {
    var rest := s + [h, h] + t;
    SeparatorBehind(s, h, t);
    var i := FirstSeparator(rest, 0).value;
    ParseBuilt(h, rest, i, name);
    if i == |s| {
      SplitAt(s, h, t);
    }
  }

  lemma SplitAt(s: string, h: char, t: string)
    ensures var rest := s + [h, h] + t;
            rest[..|s|] == s && rest[|s| + 2..] == t && (s != "" ==> rest[|s| - 1] == s[|s| - 1])
  {
  }

  /** Building and parsing gives the sanitized server and a matching tool exactly under this condition. */
  lemma RoundTripIff(server: string, tool: string)
    ensures var (s, t, r) := (Sanitize(server), Sanitize(tool), Parse(Build(server, tool)));
            && s != ""
            && (r.Some? && r.value.server == s && NamesMatch(r.value.tool, t)
                <==> Fits(server, tool) && IndexOf(s, "__", 0).None? && s[|s| - 1] != '-')
  {
    var s, t, name := Sanitize(server), Sanitize(tool), Build(server, tool);
    SanitizeIsSanitized(server);
    SanitizeIsSanitized(tool);
    SanitizedSeparators(s);
    if Fits(server, tool) {
      BuiltInFull(server, tool);
      ParsesBack('-', s, t, name);
    } else {
      ShortenedLosesTool(server, tool, name);
      if Parse(name).Some? && NamesMatch(Parse(name).value.tool, t) {
        MatchesHaveSameLength(Parse(name).value.tool, t);
      }
    }
  }

  /** Tools of delimited servers that fit never share a name, unless both names sanitize alike. */
  lemma BuildIsInjective(server: string, tool: string, server': string, tool': string)
    requires Fits(server, tool) && Fits(server', tool')
    requires IndexOf(Sanitize(server), "__", 0).None? && Sanitize(server)[|Sanitize(server)| - 1] != '-'
    requires IndexOf(Sanitize(server'), "__", 0).None? && Sanitize(server')[|Sanitize(server')| - 1] != '-'
    ensures Build(server, tool) == Build(server', tool') <==> Sanitize(server) == Sanitize(server') && Sanitize(tool) == Sanitize(tool')
  {
    RoundTripIff(server, tool);
    RoundTripIff(server', tool');
    BuiltInFull(server, tool);
    BuiltInFull(server', tool');
    if Build(server, tool) == Build(server', tool') {
      var s := Sanitize(server);
      SameFront("mcp" + ['-', '-'], s + ['-', '-'] + Sanitize(tool), s + ['-', '-'] + Sanitize(tool'));
      SameFront(s + ['-', '-'], Sanitize(tool), Sanitize(tool'));
    }
  }

  lemma SameFront(front: string, a: string, b: string)
    requires front + a == front + b
    ensures a == b
  {
    assert (front + a)[|front|..] == a && (front + b)[|front|..] == b;
  }

  lemma UndelimitedFails(server: string, tool: string)
    requires IsSanitized(server) && IsSanitized(tool) && Fits(server, tool) && !Delimited(server, '-')
    ensures var r := Parse(Build(server, tool)); r.None? || r.value.server != server
  {
    CleanIsKept(server);
    CleanIsKept(tool);
    BuiltInFull(server, tool);
    ParsesBack('-', server, tool, Build(server, tool));
  }

  lemma ExampleIsSanitized(server: string, tool: string)
    requires server == "a__b" && tool == "t"
    ensures IsSanitized(server) && IsSanitized(tool) && SeparatorAt(server, 1)
  {
  }

  /** A short and valid server name that does not come back. */
  lemma DoubleUnderscoreFails()
    ensures var (server, tool) := ("a__b", "t");
            IsSanitized(server) && Fits(server, tool) && (var r := Parse(Build(server, tool)); r.None? || r.value.server != server)
  {
    ExampleIsSanitized("a__b", "t");
    CleanIsKept("a__b");
    CleanIsKept("t");
    UndelimitedFails("a__b", "t");
  }

  lemma UnderscoredBuilt(server: string, tool: string)
    requires Fits(server, tool)
    ensures Underscored(Build(server, tool)) ==
            "mcp" + ['_', '_'] + (Underscored(Sanitize(server)) + ['_', '_'] + Underscored(Sanitize(tool)))
  {
    var s, t := Sanitize(server), Sanitize(tool);
    BuiltInFull(server, tool);
    UnderscoredAppend("mcp" + ['-', '-'], s + ['-', '-'] + t);
    UnderscoredAppend(s + ['-', '-'], t);
    UnderscoredAppend(s, ['-', '-']);
    assert Underscored("mcp" + ['-', '-']) == "mcp" + ['_', '_'] && Underscored(['-', '-']) == ['_', '_'];
  }

  lemma UnderscoredTwice(s: string)
    ensures Underscored(Underscored(s)) == Underscored(s) && '-' !in Underscored(s)
  {
  }

  lemma UnderscoreSeparators(s: string)
    requires '-' !in s
    ensures IndexOf(s, "__", 0).None? <==> forall k: nat :: !SeparatorAt(s, k)
  {
    IndexOfIsFirst(s, "__", 0);
    forall k: nat
      ensures SeparatorAt(s, k) <==> OccursAt(s, "__", k)
    {
      OccursIsSlice(s, "__", k);
      if k + 2 <= |s| {
        assert s[k..k + 2] == [s[k], s[k + 1]];
      }
    }
  }

  /** The same after a model wrote every hyphen as an underscore; both names then match. */
  lemma FuzzyRoundTripIff(server: string, tool: string)
    ensures var (s, t, r) := (Sanitize(server), Sanitize(tool), Parse(Underscored(Build(server, tool))));
            && s != ""
            && (r.Some? && NamesMatch(r.value.server, s) && NamesMatch(r.value.tool, t)
                <==> Fits(server, tool) && IndexOf(Underscored(s), "__", 0).None? && Underscored(s)[|s| - 1] != '_')
  {
    var s, t, name := Sanitize(server), Sanitize(tool), Underscored(Build(server, tool));
    SanitizeIsSanitized(server);
    SanitizeIsSanitized(tool);
    UnderscoredTwice(s);
    UnderscoredTwice(t);
    UnderscoreSeparators(Underscored(s));
    if Fits(server, tool) {
      UnderscoredBuilt(server, tool);
      ParsesBack('_', Underscored(s), Underscored(t), name);
    } else {
      ShortenedLosesTool(server, tool, name);
    }
    if Parse(name).Some? && NamesMatch(Parse(name).value.server, s) && NamesMatch(Parse(name).value.tool, t) {
      MatchesHaveSameLength(Parse(name).value.server, s);
      MatchesHaveSameLength(Parse(name).value.tool, t);
    }
  }
}
