/** The pieces of JavaScript's string library that the modelled code leans on. */
module Text {

  datatype Option<+T> = None | Some(value: T)

  /** What `\s` and `trim` accept. */
  predicate IsSpace(c: char) {
    || '\t' <= c <= '\r'
    || c == ' ' || c == '\U{A0}' || c == '\U{1680}'
    || '\U{2000}' <= c <= '\U{200A}'
    || c == '\U{2028}' || c == '\U{2029}' || c == '\U{202F}'
    || c == '\U{205F}' || c == '\U{3000}' || c == '\U{FEFF}'
  }

  predicate IsDigit(c: char) {
    '0' <= c <= '9'
  }

  predicate IsLetter(c: char) {
    'a' <= c <= 'z' || 'A' <= c <= 'Z'
  }

  function TrimEnd(s: string): (r: string)
    ensures r <= s
    ensures r == "" || !IsSpace(r[|r| - 1])
  {
    if s != "" && IsSpace(s[|s| - 1]) then TrimEnd(s[..|s| - 1]) else s
  }

  function TrimStart(s: string): (r: string)
    ensures r == "" || !IsSpace(r[0])
  {
    if s != "" && IsSpace(s[0]) then TrimStart(s[1..]) else s
  }

  function Trim(s: string): string {
    TrimEnd(TrimStart(s))
  }

  predicate AllSpace(s: string) {
    forall i | 0 <= i < |s| :: IsSpace(s[i])
  }

  /** No white space at either end. */
  predicate IsTrimmed(s: string) {
    s != "" ==> !IsSpace(s[0]) && !IsSpace(s[|s| - 1])
  }

  lemma {:induction false} TrimEndSplits(s: string)
    ensures s == TrimEnd(s) + s[|TrimEnd(s)|..] && AllSpace(s[|TrimEnd(s)|..])
  {
    if s != "" && IsSpace(s[|s| - 1]) {
      TrimEndSplits(s[..|s| - 1]);
      assert s[|TrimEnd(s)|..] == s[..|s| - 1][|TrimEnd(s)|..] + [s[|s| - 1]];
    }
  }

  lemma {:induction false} TrimStartSplits(s: string) returns (front: string)
    ensures s == front + TrimStart(s) && AllSpace(front)
  {
    front := "";
    if s != "" && IsSpace(s[0]) {
      var rest := TrimStartSplits(s[1..]);
      front := [s[0]] + rest;
      assert s == [s[0]] + s[1..];
    }
  }

  /** Trimming gives the middle of the text: white space in front of it and behind it, none at its ends. */
  lemma TrimSplits(s: string) returns (front: string, back: string)
    ensures s == front + Trim(s) + back && AllSpace(front) && AllSpace(back) && IsTrimmed(Trim(s))
  {
    var mid := TrimStart(s);
    front := TrimStartSplits(s);
    TrimEndSplits(mid);
    back := mid[|TrimEnd(mid)|..];
    assert mid == TrimEnd(mid) + back;
  }

  lemma {:induction false} TrimStartDrops(front: string, s: string)
    requires AllSpace(front) && (s == "" || !IsSpace(s[0]))
    ensures TrimStart(front + s) == s
  {
    if front == "" {
      assert front + s == s;
    } else {
      assert (front + s)[1..] == front[1..] + s;
      TrimStartDrops(front[1..], s);
    }
  }

  lemma {:induction false} TrimEndDrops(s: string, back: string)
    requires AllSpace(back) && (s == "" || !IsSpace(s[|s| - 1]))
    ensures TrimEnd(s + back) == s
  {
    if back == "" {
      assert s + back == s;
    } else {
      assert (s + back)[..|s + back| - 1] == s + back[..|back| - 1];
      TrimEndDrops(s, back[..|back| - 1]);
    }
  }

  /** And only that part of the text is so. */
  lemma TrimIsTheMiddle(front: string, s: string, back: string)
    requires AllSpace(front) && AllSpace(back) && IsTrimmed(s)
    ensures Trim(front + s + back) == s
  {
    assert front + s + back == front + (s + back);
    if s == "" {
      TrimStartDrops(front + back, "");
      assert front + back + "" == front + s + back;
    } else {
      TrimStartDrops(front, s + back);
      TrimEndDrops(s, back);
    }
  }

  /** From its `k`th character on, `p` is what `s` has at position `i`. */
  predicate AgreesFrom(s: string, p: string, i: nat, k: nat)
    requires i + |p| <= |s| && k <= |p|
    decreases |p| - k
  {
    k == |p| || (s[i + k] == p[k] && AgreesFrom(s, p, i, k + 1))
  }

  /** `p` occurs in `s` at position `i`. */
  predicate OccursAt(s: string, p: string, i: nat) {
    i + |p| <= |s| && AgreesFrom(s, p, i, 0)
  }

  lemma {:induction false} AgreesIsSlice(s: string, p: string, i: nat, k: nat)
    requires i + |p| <= |s| && k <= |p|
    ensures AgreesFrom(s, p, i, k) <==> s[i + k..i + |p|] == p[k..]
    decreases |p| - k
  {
    if k < |p| {
      AgreesIsSlice(s, p, i, k + 1);
      assert s[i + k..i + |p|] == [s[i + k]] + s[i + k + 1..i + |p|] && p[k..] == [p[k]] + p[k + 1..];
    }
  }

  lemma OccursIsSlice(s: string, p: string, i: nat)
    ensures OccursAt(s, p, i) <==> i + |p| <= |s| && s[i..i + |p|] == p
  {
    if i + |p| <= |s| {
      AgreesIsSlice(s, p, i, 0);
      assert p[0..] == p;
    }
  }

  /** `s.indexOf(p, from)`. */
  function IndexOf(s: string, p: string, from: nat): (r: Option<nat>)
    ensures r.Some? ==> from <= r.value && r.value + |p| <= |s|
    decreases |s| - from
  {
    if OccursAt(s, p, from) then Some(from)
    else if from >= |s| then None
    else IndexOf(s, p, from + 1)
  }

  /** It is the first occurrence at or after `from`, if there is one. */
  lemma {:induction false} IndexOfIsFirst(s: string, p: string, from: nat)
    ensures var r := IndexOf(s, p, from);
            && (r.Some? ==> OccursAt(s, p, r.value))
            && forall k: nat | from <= k && (r.Some? ==> k < r.value) :: !OccursAt(s, p, k)
    decreases |s| - from
  {
    if !OccursAt(s, p, from) && from < |s| {
      IndexOfIsFirst(s, p, from + 1);
    }
  }

  /** `parts.join(separator)`. */
  function Join(parts: seq<string>, separator: string): string {
    if parts == [] then ""
    else if |parts| == 1 then parts[0]
    else Join(parts[..|parts| - 1], separator) + separator + parts[|parts| - 1]
  }

  /** `s.split(separator)` on a one-character separator. */
  function Split(s: string, separator: char): (parts: seq<string>)
    ensures parts != []
    ensures forall p | p in parts :: separator !in p
  {
    if s == "" then [""]
    else
      var parts := Split(s[..|s| - 1], separator);
      var c := s[|s| - 1];
      if c == separator then parts + [""]
      else parts[..|parts| - 1] + [parts[|parts| - 1] + [c]]
  }

  lemma {:induction false} SplitAppend(s: string, part: string, separator: char)
    requires separator !in part
    ensures Split(s + [separator] + part, separator) == Split(s, separator) + [part]
  {
    var whole := s + [separator] + part;
    if part == "" {
      assert whole[..|whole| - 1] == s;
    } else {
      SplitAppend(s, part[..|part| - 1], separator);
      assert whole[..|whole| - 1] == s + [separator] + part[..|part| - 1];
      assert part == part[..|part| - 1] + [part[|part| - 1]];
    }
  }

  lemma {:induction false} SplitOne(part: string, separator: char)
    requires separator !in part
    ensures Split(part, separator) == [part]
  {
    if part != "" {
      var front, last := part[..|part| - 1], part[|part| - 1];
      assert last in part;
      SplitOne(front, separator);
      assert part == front + [last];
    }
  }

  /** Splitting undoes joining when no part contains the separator. */
  lemma {:induction false} SplitJoin(parts: seq<string>, separator: char)
    requires parts != [] && forall i | 0 <= i < |parts| :: separator !in parts[i]
    ensures Split(Join(parts, [separator]), separator) == parts
  {
    if |parts| == 1 {
      SplitOne(parts[0], separator);
    } else {
      var front, last := parts[..|parts| - 1], parts[|parts| - 1];
      SplitJoin(front, separator);
      SplitAppend(Join(front, [separator]), last, separator);
      assert Join(parts, [separator]) == Join(front, [separator]) + [separator] + last;
      assert parts == front + [last];
    }
  }

  lemma TrimEndKeepsPrefix(a: string, b: string)
    requires b != "" && !IsSpace(b[0])
    ensures TrimEnd(a + b) == a + TrimEnd(b)
    ensures TrimEnd(b) != ""
    decreases |b|
  {
    var s := a + b;
    if IsSpace(s[|s| - 1]) {
      assert |b| > 1;
      assert s[..|s| - 1] == a + b[..|b| - 1];
      TrimEndKeepsPrefix(a, b[..|b| - 1]);
    }
  }
}

/** Decimal numerals, as `String(n)` and `padStart(width, "0")` print them. */
module Decimal {
  import opened Text

  function Pow10(k: nat): (r: nat)
    ensures r >= 1
  {
    if k == 0 then 1 else 10 * Pow10(k - 1)
  }

  function Digit(d: nat): (c: char)
    requires d < 10
    ensures IsDigit(c)
  {
    '0' + d as char
  }

  function DigitValue(c: char): (d: nat)
    requires IsDigit(c)
    ensures d < 10
  {
    (c - '0') as nat
  }

  predicate AllDigits(s: string) {
    forall i | 0 <= i < |s| :: IsDigit(s[i])
  }

  function Print(n: nat): (s: string)
    ensures s != "" && AllDigits(s)
  {
    if n < 10 then [Digit(n)] else Print(n / 10) + [Digit(n % 10)]
  }

  function Value(s: string): nat
    requires AllDigits(s)
  {
    if s == "" then 0 else 10 * Value(s[..|s| - 1]) + DigitValue(s[|s| - 1])
  }

  function Pad(s: string, width: nat): (r: string)
    ensures AllDigits(s) ==> AllDigits(r)
    ensures |r| == if |s| < width then width else |s|
    decreases width - |s|
  {
    if |s| < width then Pad("0" + s, width) else s
  }

  lemma {:induction false} ValuePrint(n: nat)
    ensures Value(Print(n)) == n
  {
    if n >= 10 {
      ValuePrint(n / 10);
      assert Print(n)[..|Print(n)| - 1] == Print(n / 10);
    }
  }

  lemma {:induction false} ValueLeadingZero(s: string)
    requires AllDigits(s)
    ensures AllDigits("0" + s) && Value("0" + s) == Value(s)
  {
    if s != "" {
      ValueLeadingZero(s[..|s| - 1]);
      assert ("0" + s)[..|s|] == "0" + s[..|s| - 1];
    }
  }

  lemma {:induction false} ValuePad(s: string, width: nat)
    requires AllDigits(s)
    ensures Value(Pad(s, width)) == Value(s)
    decreases width - |s|
  {
    if |s| < width {
      ValueLeadingZero(s);
      ValuePad("0" + s, width);
    }
  }

  /** A numeral has at most `k` digits exactly when the number is below ten to the `k`. */
  lemma {:induction false} PrintLength(n: nat, k: nat)
    requires k >= 1
    ensures |Print(n)| <= k <==> n < Pow10(k)
  {
    if n < 10 {
      assert Pow10(k) == 10 * Pow10(k - 1);
    } else if k == 1 {
      assert |Print(n / 10)| >= 1;
      assert Pow10(1) == 10 * Pow10(0);
    } else {
      PrintLength(n / 10, k - 1);
      assert n < 10 * Pow10(k - 1) <==> n / 10 < Pow10(k - 1);
    }
  }

  /** The value is positional: a digit counts ten to the number of digits behind it. */
  lemma {:induction false} ValueAppend(a: string, b: string)
    requires AllDigits(a) && AllDigits(b)
    ensures AllDigits(a + b) && Value(a + b) == Value(a) * Pow10(|b|) + Value(b)
  {
    if b == "" {
      assert a + b == a;
    } else {
      var n := |b| - 1;
      ValueAppend(a, b[..n]);
      assert (a + b)[..|a + b| - 1] == a + b[..n];
      assert Value(a) * Pow10(|b|) == 10 * (Value(a) * Pow10(n));
    }
  }
}
