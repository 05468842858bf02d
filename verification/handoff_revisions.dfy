/**
 Revisions of a handoff: `v2-<16 digits>-<uuid>`, ordered by their Lamport
 counter, with older free-form revisions and the empty register below them.
 */
module Revisions {
  import Decimal

  /** `a.localeCompare(b)`. */
  type Locale = (string, string) -> int

  ghost predicate TotalOrder(locale: Locale) {
    && (forall a, b :: locale(a, b) == 0 <==> a == b)
    && (forall a, b :: locale(a, b) < 0 <==> locale(b, a) > 0)
    && (forall a, b, c :: locale(a, b) < 0 && locale(b, c) < 0 ==> locale(a, c) < 0)
  }

  const WIDTH := 16

  /** The counter of `/^v2-(\d{16})(?:-|$)/`, else 0. */
  function RevisionCounter(revision: string): nat {
    if |revision| >= 3 + WIDTH && revision[..3] == "v2-" && Decimal.AllDigits(revision[3..3 + WIDTH])
       && (|revision| == 3 + WIDTH || revision[3 + WIDTH] == '-')
    then Decimal.Value(revision[3..3 + WIDTH])
    else 0
  }

  /** The name of the claim file of a counter, without its extension. */
  function Prefix(counter: nat): string {
    "v2-" + Decimal.Pad(Decimal.Print(counter), WIDTH)
  }

  function RevisionFor(counter: nat, suffix: string): string {
    Prefix(counter) + "-" + suffix
  }

  function Compare(locale: Locale, left: string, right: string): int {
    var leftCounter := RevisionCounter(left);
    var rightCounter := RevisionCounter(right);
    if leftCounter != rightCounter then leftCounter - rightCounter
    else if leftCounter > 0 then locale(left, right)
    else if right == "" then (if left == "" then 0 else 1)
    else if left == "" then -1
    else locale(left, right)
  }

  lemma CounterOfDigits(digits: string, tail: string)
    requires |digits| >= WIDTH && Decimal.AllDigits(digits)
    requires tail == "" || tail[0] == '-'
    ensures RevisionCounter("v2-" + digits + tail) == if |digits| == WIDTH then Decimal.Value(digits) else 0
  {
    var revision := "v2-" + digits + tail;
    assert revision[..3] == "v2-";
    if |digits| == WIDTH {
      assert revision[3..3 + WIDTH] == digits;
    } else {
      assert revision[3 + WIDTH] == digits[WIDTH];
    }
  }

  lemma PrefixShape(counter: nat, tail: string)
    requires tail == "" || tail[0] == '-'
    ensures RevisionCounter(Prefix(counter) + tail) == if counter < Decimal.Pow10(WIDTH) then counter else 0
  {
    Decimal.PrintLength(counter, WIDTH);
    Decimal.ValuePrint(counter);
    Decimal.ValuePad(Decimal.Print(counter), WIDTH);
    CounterOfDigits(Decimal.Pad(Decimal.Print(counter), WIDTH), tail);
  }

  /**
   A reserved revision gives its counter back exactly while the counter fits the
   sixteen digits; beyond that it counts as zero and reservations would repeat.
   */
  lemma ReservedCounter(counter: nat, suffix: string)
    ensures RevisionCounter(RevisionFor(counter, suffix)) == counter <==> counter < Decimal.Pow10(WIDTH)
    ensures RevisionCounter(Prefix(counter)) == counter <==> counter < Decimal.Pow10(WIDTH)
  {
    RevisionShape(counter, suffix);
    PrefixShape(counter, "-" + suffix);
    PrefixShape(counter, "");
  }

  lemma RevisionShape(counter: nat, suffix: string)
    ensures Prefix(counter) + "" == Prefix(counter) && RevisionFor(counter, suffix) == Prefix(counter) + ("-" + suffix)
    ensures ("-" + suffix)[0] == '-'
  {
  }

  /** `compareRevisions` is a strict total order with the empty register at the bottom. */
  lemma CompareIsTotalOrder(locale: Locale, a: string, b: string, c: string)
    requires TotalOrder(locale)
    ensures Compare(locale, a, b) == 0 <==> a == b
    ensures Compare(locale, a, b) < 0 <==> Compare(locale, b, a) > 0
    ensures Compare(locale, a, b) < 0 && Compare(locale, b, c) < 0 ==> Compare(locale, a, c) < 0
    ensures a != "" ==> Compare(locale, a, "") > 0
  {
    assert locale(a, b) < 0 <==> locale(b, a) > 0;
    assert locale(b, a) < 0 <==> locale(a, b) > 0;
    assert locale(a, b) == 0 <==> a == b;
  }

  /**
   The sign of `compareRevisions`: the smaller counter first, then the empty
   register, then the order of the locale.
   */
  lemma CompareIsLexicographic(locale: Locale, a: string, b: string)
    requires TotalOrder(locale)
    ensures Compare(locale, a, b) < 0 <==>
            || RevisionCounter(a) < RevisionCounter(b)
            || (RevisionCounter(a) == RevisionCounter(b) && b != "" && (a == "" || locale(a, b) < 0))
  {
    assert locale(a, b) == 0 <==> a == b;
  }

  /** A revision has a counter when it is `v2-`, sixteen digits, and nothing more or a hyphen. */
  ghost predicate HasDigits(revision: string, digits: string, tail: string) {
    && revision == "v2-" + digits + tail && (tail == "" || tail[0] == '-')
    && |digits| == WIDTH && Decimal.AllDigits(digits)
  }

  lemma CounterIsReadOff(revision: string)
    ensures forall digits, tail | HasDigits(revision, digits, tail) :: RevisionCounter(revision) == Decimal.Value(digits)
    ensures (forall digits, tail :: !HasDigits(revision, digits, tail)) ==> RevisionCounter(revision) == 0
  {
    forall digits, tail | HasDigits(revision, digits, tail)
      ensures RevisionCounter(revision) == Decimal.Value(digits)
    {
      CounterOfDigits(digits, tail);
    }
    if |revision| >= 3 + WIDTH {
      assert revision == revision[..3] + revision[3..3 + WIDTH] + revision[3 + WIDTH..];
      if RevisionCounter(revision) != 0 {
        assert HasDigits(revision, revision[3..3 + WIDTH], revision[3 + WIDTH..]);
      }
    }
  }
}
