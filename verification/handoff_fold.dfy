/**
 Folding update operations into a handoff document. Every mutable field is a
 last-writer-wins register; the log is appended to the body.
 */
module HandoffFold {
  import opened Text
  import opened Revisions

  datatype Status = Open | PickedUp | Done | Abandoned
  datatype Agent = ClaudeCode | TumbleCode

  datatype Operation = Operation(
    revision: string,
    created: string,
    status: Option<Status>,
    pickedUpBy: Option<Agent>,
    pickedUpSessionId: Option<string>,
    note: Option<string>)

  datatype Handoff = Handoff(
    id: string,
    title: string,
    from: Agent,
    to: Agent,
    sourceSessionId: string,
    cwd: Option<string>,
    gitBranch: Option<string>,
    status: Status,
    created: string,
    updated: string,
    pickedUpBy: Option<Agent>,
    pickedUpSessionId: Option<string>,
    body: string)

  /** Revision that last set each field; "" when the base document set it. */
  datatype Registers = Registers(status: string, pickedUpBy: string, pickedUpSessionId: string)

  datatype Document = Document(handoff: Handoff, registers: Registers)

  function StatusName(status: Status): string {
    match status
    case Open => "open"
    case PickedUp => "picked-up"
    case Done => "done"
    case Abandoned => "abandoned"
  }

  /** An absent string and an empty one are the same to the code. */
  predicate Truthy(value: Option<string>) {
    value.Some? && value.value != ""
  }

  // ---------------------------------------------------------------- the log

  const MARKER := "### Log"

  predicate HasMarker(body: string) {
    exists i: nat | i <= |body| :: OccursAt(body, MARKER, i)
  }

  function AppendToLog(body: string, entry: string): string {
    if HasMarker(body)
    then TrimEnd(body) + "\n" + entry + "\n"
    else TrimEnd(body) + "\n\n### Log\n\n" + entry + "\n"
  }

  predicate AreEntries(entries: seq<string>) {
    forall i | 0 <= i < |entries| :: entries[i] != "" && entries[i][0] == '-'
  }

  function LogEntry(op: Operation): (entries: seq<string>)
    ensures |entries| <= 1 && AreEntries(entries)
  {
    if Truthy(op.note) then ["- " + op.created + " \U{2014} " + op.note.value]
    else if op.status.Some? then ["- " + op.created + " \U{2014} status \U{2192} " + StatusName(op.status.value)]
    else []
  }

  function LogEntries(ops: seq<Operation>): (entries: seq<string>)
    ensures AreEntries(entries)
  {
    if ops == [] then [] else LogEntries(ops[..|ops| - 1]) + LogEntry(ops[|ops| - 1])
  }

  function AppendAll(body: string, entries: seq<string>): string {
    if entries == [] then body
    else AppendToLog(AppendAll(body, entries[..|entries| - 1]), entries[|entries| - 1])
  }

  // ---------------------------------------------------------- the registers

  /** JavaScript's `<` on strings. */
  predicate Before(a: string, b: string) {
    b != "" && (a == "" || a[0] < b[0] || (a[0] == b[0] && Before(a[1..], b[1..])))
  }

  function Later(updated: string, created: string): string {
    if Before(updated, created) then created else updated
  }

  datatype Register<T> = Register(value: T, revision: string)

  function Assign<T>(locale: Locale, register: Register<T>, value: Option<T>, revision: string): Register<T> {
    if value.Some? && Compare(locale, revision, register.revision) > 0 then Register(value.value, revision) else register
  }

  function StatusRegister(doc: Document): Register<Status> {
    Register(doc.handoff.status, doc.registers.status)
  }

  function AgentRegister(doc: Document): Register<Option<Agent>> {
    Register(doc.handoff.pickedUpBy, doc.registers.pickedUpBy)
  }

  function SessionRegister(doc: Document): Register<Option<string>> {
    Register(doc.handoff.pickedUpSessionId, doc.registers.pickedUpSessionId)
  }

  function StatusSet(op: Operation): Option<Status> {
    op.status
  }

  function AgentSet(op: Operation): Option<Option<Agent>> {
    if op.pickedUpBy.Some? then Some(op.pickedUpBy) else None
  }

  function SessionSet(op: Operation): Option<Option<string>> {
    if op.pickedUpSessionId.Some? then Some(op.pickedUpSessionId) else None
  }

  function Apply(locale: Locale, doc: Document, op: Operation): Document {
    var status := Assign(locale, StatusRegister(doc), StatusSet(op), op.revision);
    var agent := Assign(locale, AgentRegister(doc), AgentSet(op), op.revision);
    var session := Assign(locale, SessionRegister(doc), SessionSet(op), op.revision);
    Document(
      doc.handoff.(status := status.value,
                   pickedUpBy := agent.value,
                   pickedUpSessionId := session.value,
                   updated := Later(doc.handoff.updated, op.created),
                   body := AppendAll(doc.handoff.body, LogEntry(op))),
      Registers(status.revision, agent.revision, session.revision))
  }

  function Fold(locale: Locale, doc: Document, ops: seq<Operation>): Document {
    if ops == [] then doc
    else Apply(locale, Fold(locale, doc, ops[..|ops| - 1]), ops[|ops| - 1])
  }

  /** `foldOperations`, as the loop over local variables that it is. */
  method FoldOperations(locale: Locale, base: Handoff, operations: seq<Operation>, baseRegisters: Registers)
    returns (handoff: Handoff, registers: Registers)
    ensures Document(handoff, registers) == Fold(locale, Document(base, baseRegisters), operations)
  {
    var status, pickedUpBy, pickedUpSessionId := base.status, base.pickedUpBy, base.pickedUpSessionId;
    var updated, body := base.updated, base.body;
    registers := baseRegisters;
    for i := 0 to |operations|
      invariant Fold(locale, Document(base, baseRegisters), operations[..i]) ==
                Document(base.(status := status, pickedUpBy := pickedUpBy, pickedUpSessionId := pickedUpSessionId,
                               updated := updated, body := body),
                         registers)
    {
      var operation := operations[i];
      assert operations[..i + 1][..i] == operations[..i];
      if operation.status.Some? && Compare(locale, operation.revision, registers.status) > 0 {
        status := operation.status.value;
        registers := registers.(status := operation.revision);
      }
      if operation.pickedUpBy.Some? && Compare(locale, operation.revision, registers.pickedUpBy) > 0 {
        pickedUpBy := operation.pickedUpBy;
        registers := registers.(pickedUpBy := operation.revision);
      }
      if operation.pickedUpSessionId.Some? && Compare(locale, operation.revision, registers.pickedUpSessionId) > 0 {
        pickedUpSessionId := operation.pickedUpSessionId;
        registers := registers.(pickedUpSessionId := operation.revision);
      }
      updated := if Before(updated, operation.created) then operation.created else updated;
      var entry := LogEntry(operation);
      ghost var before := body;
      if entry != [] {
        assert entry[..|entry| - 1] == [];
        body := AppendToLog(body, entry[0]);
      }
      assert body == AppendAll(before, entry);
    }
    assert operations[..|operations|] == operations;
    handoff := base.(status := status, pickedUpBy := pickedUpBy, pickedUpSessionId := pickedUpSessionId,
    updated := updated, body := body);
  }

  // ------------------------------------------- what the registers end up as

  /**
   `out` is the register after `ops` reached it: the value of the greatest
   revision that sets the field and beats `register`, or `register` itself.
   */
  ghost predicate LastWriterWins<T(!new)>(
    locale: Locale, ops: seq<Operation>, field: Operation -> Option<T>, register: Register<T>, out: Register<T>)
  {
    && Compare(locale, out.revision, register.revision) >= 0
    && (forall op | op in ops && field(op).Some? :: Compare(locale, op.revision, out.revision) <= 0)
    && (out == register
        || exists op :: op in ops && field(op) == Some(out.value) && op.revision == out.revision
                        && Compare(locale, op.revision, register.revision) > 0)
  }

  /** Dictionary order: the shorter of a string and its continuation, or the smaller first difference. */
  ghost predicate Precedes(a: string, b: string) {
    (a < b) || exists k: nat :: SmallerAt(a, b, k)
  }

  predicate SmallerAt(a: string, b: string, k: nat) {
    k < |a| && k < |b| && a[..k] == b[..k] && a[k] < b[k]
  }

  /** `updated` is the latest of the base's time and the operations' times. */
  ghost predicate IsLatest(ops: seq<Operation>, base: string, out: string) {
    && !Precedes(out, base)
    && (forall op | op in ops :: !Precedes(out, op.created))
    && (out == base || exists op :: op in ops && op.created == out)
  }

  /** A revision names one operation. */
  ghost predicate RevisionsAreNames(ops: seq<Operation>) {
    forall a, b | a in ops && b in ops && a.revision == b.revision :: a == b
  }

  ghost predicate SameOperations(ops: seq<Operation>, ops': seq<Operation>) {
    forall op :: op in ops <==> op in ops'
  }

  /** Equal but for the prose of the body. */
  predicate SameState(a: Document, b: Document) {
    a.registers == b.registers && a.handoff.(body := "") == b.handoff.(body := "")
  }

  lemma {:induction false} BeforeIsTotalOrder(a: string, b: string, c: string)
    ensures !Before(a, a)
    ensures Before(a, b) ==> !Before(b, a)
    ensures a == b || Before(a, b) || Before(b, a)
    ensures Before(a, b) && Before(b, c) ==> Before(a, c)
  {
    if a != "" {
      if b != "" && c != "" {
        BeforeIsTotalOrder(a[1..], b[1..], c[1..]);
      } else if b != "" {
        BeforeIsTotalOrder(a[1..], b[1..], "");
      } else {
        BeforeIsTotalOrder(a[1..], "", "");
      }
      if b != "" && a[0] == b[0] && a[1..] == b[1..] {
        assert a == [a[0]] + a[1..] && b == [b[0]] + b[1..];
      }
    }
  }

  lemma SmallerBehind(a: string, b: string, k: nat)
    requires a != "" && b != "" && a[0] == b[0]
    ensures SmallerAt(a[1..], b[1..], k) <==> SmallerAt(a, b, k + 1)
  {
    if k < |a[1..]| && k < |b[1..]| {
      assert a[..k + 1] == [a[0]] + a[1..][..k] && b[..k + 1] == [b[0]] + b[1..][..k];
    }
  }

  /** The comparison of strings is dictionary order. */
  lemma {:induction false} BeforeIsDictionaryOrder(a: string, b: string)
    ensures Before(a, b) <==> Precedes(a, b)
  {
    if a != "" && b != "" {
      if a[0] == b[0] {
        BeforeIsDictionaryOrder(a[1..], b[1..]);
        assert a == [a[0]] + a[1..] && b == [b[0]] + b[1..];
        assert a < b <==> a[1..] < b[1..];
        forall k: nat ensures SmallerAt(a[1..], b[1..], k) <==> SmallerAt(a, b, k + 1) {
          SmallerBehind(a, b, k);
        }
        assert forall k: nat | SmallerAt(a, b, k) :: k > 0 && SmallerAt(a[1..], b[1..], k - 1);
      } else {
        assert a[0] < b[0] ==> SmallerAt(a, b, 0);
        assert forall k: nat | k > 0 && SmallerAt(a, b, k) :: a[..k][0] == b[..k][0];
      }
    }
  }

  lemma AssignWins<T(!new)>(
    locale: Locale, ops: seq<Operation>, field: Operation -> Option<T>, register: Register<T>, mid: Register<T>, op: Operation)
    requires TotalOrder(locale)
    requires LastWriterWins(locale, ops, field, register, mid)
    ensures LastWriterWins(locale, ops + [op], field, register, Assign(locale, mid, field(op), op.revision))
  {
    var out := Assign(locale, mid, field(op), op.revision);
    var all := ops + [op];
    CompareIsTotalOrder(locale, register.revision, mid.revision, op.revision);
    CompareIsTotalOrder(locale, op.revision, mid.revision, register.revision);
    forall o | o in all && field(o).Some? ensures Compare(locale, o.revision, out.revision) <= 0 {
      CompareIsTotalOrder(locale, o.revision, mid.revision, op.revision);
      CompareIsTotalOrder(locale, op.revision, op.revision, mid.revision);
      CompareIsTotalOrder(locale, op.revision, o.revision, mid.revision);
    }
    if out != register {
      if out == mid {
        var o :| o in ops && field(o) == Some(mid.value) && o.revision == mid.revision
                 && Compare(locale, o.revision, register.revision) > 0;
        assert o in all;
      } else {
        assert op in all;
      }
    }
  }

  /** Every register and `updated` after a fold, described without the fold. */
  lemma {:induction false} FoldMeaning(locale: Locale, doc: Document, ops: seq<Operation>)
    requires TotalOrder(locale)
    ensures var out := Fold(locale, doc, ops);
            && LastWriterWins(locale, ops, StatusSet, StatusRegister(doc), StatusRegister(out))
            && LastWriterWins(locale, ops, AgentSet, AgentRegister(doc), AgentRegister(out))
            && LastWriterWins(locale, ops, SessionSet, SessionRegister(doc), SessionRegister(out))
            && IsLatest(ops, doc.handoff.updated, out.handoff.updated)
            && out.handoff.body == AppendAll(doc.handoff.body, LogEntries(ops))
  {
    var out := Fold(locale, doc, ops);
    if ops == [] {
      CompareIsTotalOrder(locale, StatusRegister(doc).revision, StatusRegister(doc).revision, "");
      CompareIsTotalOrder(locale, AgentRegister(doc).revision, AgentRegister(doc).revision, "");
      CompareIsTotalOrder(locale, SessionRegister(doc).revision, SessionRegister(doc).revision, "");
      BeforeIsTotalOrder(doc.handoff.updated, "", "");
      BeforeIsDictionaryOrder(doc.handoff.updated, doc.handoff.updated);
    } else {
      var rest, op := ops[..|ops| - 1], ops[|ops| - 1];
      assert ops == rest + [op];
      var mid := Fold(locale, doc, rest);
      FoldMeaning(locale, doc, rest);
      AssignWins(locale, rest, StatusSet, StatusRegister(doc), StatusRegister(mid), op);
      AssignWins(locale, rest, AgentSet, AgentRegister(doc), AgentRegister(mid), op);
      AssignWins(locale, rest, SessionSet, SessionRegister(doc), SessionRegister(mid), op);
      LaterIsLatest(rest, doc.handoff.updated, mid.handoff.updated, op);
      AppendAllConcat(doc.handoff.body, LogEntries(rest), LogEntry(op));
    }
  }

  lemma LaterIsLatest(ops: seq<Operation>, base: string, mid: string, op: Operation)
    requires IsLatest(ops, base, mid)
    ensures IsLatest(ops + [op], base, Later(mid, op.created))
  {
    var out := Later(mid, op.created);
    var all := ops + [op];
    assert !Precedes(mid, base);
    NotEarlier(mid, op.created, base);
    forall o | o in all ensures !Precedes(out, o.created) {
      NotEarlier(mid, op.created, o.created);
    }
    if out != base {
      if out == op.created {
        assert op in all;
      } else {
        var o :| o in ops && o.created == mid;
        assert o in all;
      }
    }
  }

  lemma NotEarlier(mid: string, created: string, other: string)
    requires other == created || !Precedes(mid, other)
    ensures !Precedes(Later(mid, created), other)
  {
    BeforeIsTotalOrder(mid, created, other);
    BeforeIsTotalOrder(created, other, mid);
    BeforeIsTotalOrder(mid, other, created);
    BeforeIsDictionaryOrder(mid, other);
    BeforeIsDictionaryOrder(created, other);
  }

  lemma {:induction false} AppendAllConcat(body: string, a: seq<string>, b: seq<string>)
    ensures AppendAll(body, a + b) == AppendAll(AppendAll(body, a), b)
  {
    if b == [] {
      assert a + b == a;
    } else {
      assert (a + b)[..|a + b| - 1] == a + b[..|b| - 1];
      AppendAllConcat(body, a, b[..|b| - 1]);
    }
  }

  lemma WinnerIsUnique<T(!new)>(
    locale: Locale, ops: seq<Operation>, ops': seq<Operation>, field: Operation -> Option<T>,
    register: Register<T>, out: Register<T>, out': Register<T>)
    requires TotalOrder(locale) && RevisionsAreNames(ops) && SameOperations(ops, ops')
    requires LastWriterWins(locale, ops, field, register, out)
    requires LastWriterWins(locale, ops', field, register, out')
    ensures out == out'
  {
    CompareIsTotalOrder(locale, out.revision, out'.revision, register.revision);
    CompareIsTotalOrder(locale, out'.revision, out.revision, register.revision);
    CompareIsTotalOrder(locale, out.revision, register.revision, register.revision);
    CompareIsTotalOrder(locale, out'.revision, register.revision, register.revision);
    if out != register && out' != register {
      var o :| o in ops && field(o) == Some(out.value) && o.revision == out.revision
               && Compare(locale, o.revision, register.revision) > 0;
      var o' :| o' in ops' && field(o') == Some(out'.value) && o'.revision == out'.revision
                && Compare(locale, o'.revision, register.revision) > 0;
      assert o in ops' && o' in ops;
      assert o == o';
    }
  }

  lemma LatestIsUnique(ops: seq<Operation>, ops': seq<Operation>, base: string, out: string, out': string)
    requires SameOperations(ops, ops') && IsLatest(ops, base, out) && IsLatest(ops', base, out')
    ensures out == out'
  {
    BeforeIsTotalOrder(out, out', "");
    BeforeIsDictionaryOrder(out, out');
    BeforeIsDictionaryOrder(out', out);
  }

  /** Folding the same operations in any order, with any repeats, gives the same state. */
  lemma FoldIgnoresOrder(locale: Locale, doc: Document, ops: seq<Operation>, ops': seq<Operation>)
    requires TotalOrder(locale) && RevisionsAreNames(ops) && SameOperations(ops, ops')
    ensures SameState(Fold(locale, doc, ops), Fold(locale, doc, ops'))
  {
    var out, out' := Fold(locale, doc, ops), Fold(locale, doc, ops');
    FoldMeaning(locale, doc, ops);
    FoldMeaning(locale, doc, ops');
    WinnerIsUnique(locale, ops, ops', StatusSet, StatusRegister(doc), StatusRegister(out), StatusRegister(out'));
    WinnerIsUnique(locale, ops, ops', AgentSet, AgentRegister(doc), AgentRegister(out), AgentRegister(out'));
    WinnerIsUnique(locale, ops, ops', SessionSet, SessionRegister(doc), SessionRegister(out), SessionRegister(out'));
    LatestIsUnique(ops, ops', doc.handoff.updated, out.handoff.updated, out'.handoff.updated);
    FoldKeepsIdentity(locale, doc, ops);
    FoldKeepsIdentity(locale, doc, ops');
  }

  /** The fields a fold never touches. */
  lemma {:induction false} FoldKeepsIdentity(locale: Locale, doc: Document, ops: seq<Operation>)
    ensures var h := Fold(locale, doc, ops).handoff;
            h == doc.handoff.(status := h.status, pickedUpBy := h.pickedUpBy,
                              pickedUpSessionId := h.pickedUpSessionId, updated := h.updated, body := h.body)
  {
    if ops != [] {
      FoldKeepsIdentity(locale, doc, ops[..|ops| - 1]);
    }
  }

  /** Splitting a fold into batches through an intermediate base changes nothing, body included. */
  lemma {:induction false} FoldInBatches(locale: Locale, doc: Document, a: seq<Operation>, b: seq<Operation>)
    ensures Fold(locale, doc, a + b) == Fold(locale, Fold(locale, doc, a), b)
  {
    if b == [] {
      assert a + b == a;
    } else {
      assert (a + b)[..|a + b| - 1] == a + b[..|b| - 1];
      FoldInBatches(locale, doc, a, b[..|b| - 1]);
    }
  }

  /**
   An operation of the fold owns a field's register exactly when no folded
   operation with a greater revision sets that field.
   */
  lemma OwnerIff<T(!new)>(
    locale: Locale, ops: seq<Operation>, field: Operation -> Option<T>, register: Register<T>, out: Register<T>, own: Operation)
    requires TotalOrder(locale)
    requires LastWriterWins(locale, ops, field, register, out)
    requires own in ops && field(own).Some? && Compare(locale, own.revision, register.revision) > 0
    ensures out.revision == own.revision <==>
            !exists op :: op in ops && field(op).Some? && Compare(locale, op.revision, own.revision) > 0
  {
    CompareIsTotalOrder(locale, own.revision, out.revision, register.revision);
    if out.revision != own.revision {
      CompareIsTotalOrder(locale, out.revision, own.revision, register.revision);
      CompareIsTotalOrder(locale, register.revision, own.revision, out.revision);
      assert out != register;
      var op :| op in ops && field(op) == Some(out.value) && op.revision == out.revision
                && Compare(locale, op.revision, register.revision) > 0;
      assert Compare(locale, op.revision, own.revision) > 0;
    }
  }

  // ------------------------------------------------- what the body ends up as

  /** The line an operation adds to the log: its note, or else the status it sets. */
  predicate IsLogLine(op: Operation, line: string) {
    if op.note.Some? && op.note.value != "" then line == "- " + op.created + " \U{2014} " + op.note.value
    else match op.status
      case Some(Open) => line == "- " + op.created + " \U{2014} status \U{2192} open"
      case Some(PickedUp) => line == "- " + op.created + " \U{2014} status \U{2192} picked-up"
      case Some(Done) => line == "- " + op.created + " \U{2014} status \U{2192} done"
      case Some(Abandoned) => line == "- " + op.created + " \U{2014} status \U{2192} abandoned"
      case None => false
  }

  /** Nothing to say about it in the log. */
  predicate IsSilent(op: Operation) {
    (op.note.None? || op.note.value == "") && op.status.None?
  }

  lemma EntryIsLogLine(op: Operation)
    ensures if IsSilent(op) then LogEntry(op) == [] else |LogEntry(op)| == 1 && IsLogLine(op, LogEntry(op)[0])
  {
    if op.status.Some? && !Truthy(op.note) {
      var front := "- " + op.created + " \U{2014} status \U{2192} ";
      assert front + "open" == "- " + op.created + " \U{2014} status \U{2192} open";
      assert front + "picked-up" == "- " + op.created + " \U{2014} status \U{2192} picked-up";
      assert front + "done" == "- " + op.created + " \U{2014} status \U{2192} done";
      assert front + "abandoned" == "- " + op.created + " \U{2014} status \U{2192} abandoned";
    }
  }

  /** One line for each operation that is not silent, in order; `from` says whose. */
  ghost predicate IsLogOf(ops: seq<Operation>, lines: seq<string>, from: seq<nat>) {
    && |from| == |lines|
    && (forall k | 0 <= k < |from| :: from[k] < |ops| && IsLogLine(ops[from[k]], lines[k]))
    && (forall k, l | 0 <= k < l < |from| :: from[k] < from[l])
    && (forall i: nat | i < |ops| && !IsSilent(ops[i]) :: i in from)
  }

  lemma LogMore(ops: seq<Operation>, lines: seq<string>, from: seq<nat>, op: Operation, line: string)
    requires IsLogOf(ops, lines, from)
    ensures IsSilent(op) ==> IsLogOf(ops + [op], lines, from)
    ensures !IsSilent(op) && IsLogLine(op, line) ==> IsLogOf(ops + [op], lines + [line], from + [|ops|])
  {
    var all := ops + [op];
    assert forall i: nat | i < |ops| :: all[i] == ops[i];
    if !IsSilent(op) && IsLogLine(op, line) {
      var from' := from + [|ops|];
      assert from'[|from|] == |ops|;
      forall i: nat | i < |all| && !IsSilent(all[i]) ensures i in from' {
      }
    }
  }

  /** What a fold writes to the log. */
  lemma {:induction false} LogEntriesMean(ops: seq<Operation>) returns (from: seq<nat>)
    ensures IsLogOf(ops, LogEntries(ops), from)
  {
    from := [];
    if ops != [] {
      var n := |ops| - 1;
      from := LogEntriesMean(ops[..n]);
      EntryIsLogLine(ops[n]);
      assert ops[..n] + [ops[n]] == ops;
      if IsSilent(ops[n]) {
        LogMore(ops[..n], LogEntries(ops[..n]), from, ops[n], "");
      } else {
        LogMore(ops[..n], LogEntries(ops[..n]), from, ops[n], LogEntry(ops[n])[0]);
        from := from + [n];
      }
    }
  }

  /** The part of the body in front of the appended entries. */
  function Heading(body: string): string {
    if HasMarker(body) then TrimEnd(body) else TrimEnd(body) + "\n\n### Log\n"
  }

  function LogText(entries: seq<string>): string {
    if entries == [] then ""
    else LogText(entries[..|entries| - 1]) + "\n" + TrimEnd(entries[|entries| - 1])
  }

  lemma {:induction false} TrimEndKeepsMarker(body: string, i: nat)
    requires OccursAt(body, MARKER, i)
    ensures OccursAt(TrimEnd(body), MARKER, i)
  {
    if IsSpace(body[|body| - 1]) {
      assert body[i..i + |MARKER|][|MARKER| - 1] == 'g';
      assert body[..|body| - 1][i..i + |MARKER|] == body[i..i + |MARKER|];
      TrimEndKeepsMarker(body[..|body| - 1], i);
    }
  }

  lemma HeadingHasMarker(body: string, rest: string)
    ensures HasMarker(Heading(body) + rest)
  {
    var i: nat;
    if HasMarker(body) {
      i :| i <= |body| && OccursAt(body, MARKER, i);
      TrimEndKeepsMarker(body, i);
    } else {
      i := |TrimEnd(body)| + 2;
    }
    assert OccursAt(Heading(body), MARKER, i);
    assert (Heading(body) + rest)[i..i + |MARKER|] == Heading(body)[i..i + |MARKER|];
    assert OccursAt(Heading(body) + rest, MARKER, i);
  }

  function LogLine(front: string, entry: string): string {
    front + "\n" + entry + "\n"
  }

  lemma TrimLine(front: string, entry: string)
    requires entry != "" && entry[0] == '-'
    ensures TrimEnd(LogLine(front, entry)) == front + "\n" + TrimEnd(entry)
  {
    var line := entry + "\n";
    assert LogLine(front, entry) == (front + "\n") + line;
    TrimEndKeepsPrefix(front + "\n", line);
    assert line[..|line| - 1] == entry;
    assert TrimEnd(line) == TrimEnd(entry);
  }

  lemma AppendLine(body: string, entry: string)
    ensures AppendToLog(body, entry) == LogLine(Heading(body), entry)
  {
    assert "\n\n### Log\n\n" == "\n\n### Log\n" + "\n";
  }

  lemma LogLineHasMarker(body: string, text: string, entry: string)
    ensures HasMarker(LogLine(Heading(body) + text, entry))
  {
    HeadingHasMarker(body, text + "\n" + entry + "\n");
    assert LogLine(Heading(body) + text, entry) == Heading(body) + (text + "\n" + entry + "\n");
  }

  lemma Reassociate(a: string, b: string, c: string)
    ensures (a + b) + "\n" + c == a + (b + "\n" + c)
  {
  }

  /** The heading of a body that already got some entries. */
  lemma {:induction false} HeadingAfter(body: string, entries: seq<string>)
    requires AreEntries(entries)
    ensures Heading(AppendAll(body, entries)) == Heading(body) + LogText(entries)
    ensures entries != [] ==> TrimEnd(AppendAll(body, entries)) == Heading(body) + LogText(entries)
  {
    if entries != [] {
      var rest, last := entries[..|entries| - 1], entries[|entries| - 1];
      HeadingAfter(body, rest);
      AppendLine(AppendAll(body, rest), last);
      LogLineHasMarker(body, LogText(rest), last);
      TrimLine(Heading(body) + LogText(rest), last);
      Reassociate(Heading(body), LogText(rest), TrimEnd(last));
    }
  }

  /** Appending entries leaves the old body in place and adds one line per entry, in order. */
  lemma LogShape(body: string, entries: seq<string>)
    requires entries != []
    requires AreEntries(entries)
    ensures var last := |entries| - 1;
            AppendAll(body, entries) == LogLine(Heading(body) + LogText(entries[..last]), entries[last])
    ensures TrimEnd(AppendAll(body, entries)) == Heading(body) + LogText(entries)
  {
    var rest, last := entries[..|entries| - 1], entries[|entries| - 1];
    HeadingAfter(body, rest);
    HeadingAfter(body, entries);
    AppendLine(AppendAll(body, rest), last);
  }

  /** `part` stands somewhere in the text. */
  ghost predicate Contains(text: string, part: string) {
    exists front, back :: text == front + part + back
  }

  lemma MarkerMeans(body: string)
    ensures HasMarker(body) <==> Contains(body, "### Log")
  {
    if HasMarker(body) {
      var i: nat :| i <= |body| && OccursAt(body, MARKER, i);
      OccursIsSlice(body, MARKER, i);
      assert body == body[..i] + body[i..i + 7] + body[i + 7..];
    }
    if Contains(body, "### Log") {
      var front, back :| body == front + "### Log" + back;
      OccursIsSlice(body, MARKER, |front|);
      assert body[|front|..|front| + 7] == "### Log";
    }
  }

  lemma {:induction false} LogTextStart(entries: seq<string>)
    ensures entries != [] ==> LogText(entries) != "" && LogText(entries)[0] == '\n'
  {
    if entries != [] {
      LogTextStart(entries[..|entries| - 1]);
    }
  }

  lemma LineStart(heading: string, text: string, entry: string)
    requires text != "" ==> text[0] == '\n'
    ensures heading + "\n" <= LogLine(heading + text, entry)
  {
    var more := text + "\n" + entry + "\n";
    assert LogLine(heading + text, entry) == heading + more && more[0] == '\n';
    assert more == "\n" + more[1..];
    assert heading + more == (heading + "\n") + more[1..];
  }

  /** Appending keeps the text of the old body in front, with a heading behind it if it had none. */
  lemma BodyStaysInFront(body: string, entries: seq<string>)
    requires entries != [] && AreEntries(entries)
    ensures (if Contains(body, "### Log") then TrimEnd(body) + "\n" else TrimEnd(body) + "\n\n### Log\n" + "\n") <= AppendAll(body, entries)
  {
    MarkerMeans(body);
    LogShape(body, entries);
    LogTextStart(entries[..|entries| - 1]);
    LineStart(Heading(body), LogText(entries[..|entries| - 1]), entries[|entries| - 1]);
  }

  lemma {:induction false} LineInText(entries: seq<string>, k: nat) returns (front: string, back: string)
    requires k < |entries|
    ensures LogText(entries) == front + "\n" + TrimEnd(entries[k]) + back
    ensures back == "" || back[0] == '\n'
  {
    var n := |entries| - 1;
    if k == n {
      front, back := LogText(entries[..n]), "";
    } else {
      front, back := LineInText(entries[..n], k);
      back := back + "\n" + TrimEnd(entries[n]);
    }
  }

  lemma LastLine(heading: string, text: string, entry: string) returns (front: string, back: string)
    ensures LogLine(heading + text, entry) == front + "\n" + TrimEnd(entry) + back
    ensures back != "" && IsSpace(back[0])
  {
    TrimEndSplits(entry);
    front, back := heading + text, entry[|TrimEnd(entry)|..] + "\n";
  }

  lemma EarlierLine(heading: string, text: string, entry: string, f: string, line: string, b: string) returns (front: string, back: string)
    requires text == f + "\n" + line + b && (b == "" || b[0] == '\n')
    ensures LogLine(heading + text, entry) == front + "\n" + line + back
    ensures back != "" && IsSpace(back[0])
  {
    front, back := heading + f, b + "\n" + entry + "\n";
  }

  /** Every line that was appended stands in the body, on a line of its own. */
  lemma LineOccurs(body: string, entries: seq<string>, k: nat) returns (front: string, back: string)
    requires k < |entries| && AreEntries(entries)
    ensures AppendAll(body, entries) == front + "\n" + TrimEnd(entries[k]) + back
    ensures back != "" && IsSpace(back[0])
  {
    var last := |entries| - 1;
    var text := LogText(entries[..last]);
    LogShape(body, entries);
    if k == last {
      front, back := LastLine(Heading(body), text, entries[last]);
    } else {
      var f, b := LineInText(entries[..last], k);
      front, back := EarlierLine(Heading(body), text, entries[last], f, TrimEnd(entries[k]), b);
    }
  }
}
