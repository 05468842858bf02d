/**
 The handoff store as many processes see it: one materialized base document, a
 journal of immutable operation files and the claim files that reserve their
 counters. A step is one file-system access of one process.
 */
module HandoffJournal {
  import opened Text
  import opened Revisions
  import opened HandoffFold
  import Decimal

  datatype Update = Update(
    status: Option<Status>,
    pickedUpBy: Option<Agent>,
    pickedUpSessionId: Option<string>,
    note: Option<string>)

  /** The base document and the revisions whose log lines its body carries. */
  datatype Base = Base(doc: Document, folded: set<string>)

  type Journal = map<string, Operation>

  datatype Disk = Disk(base: Base, journal: Journal, claims: set<nat>)

  /** What a reservation remembers: the claims when it began, its failed attempts. */
  datatype Attempt = Attempt(start: set<nat>, failures: nat)

  datatype Ticket = Ticket(update: Update, attempt: Attempt, revision: string)

  datatype Purpose = ReadOnly | AfterUpdate(ticket: Ticket)

  /**
   Where a call stands. `since` and `listed` record the journal when a read
   began and when it listed the operation files; the code does not look at them.
   */
  datatype Process =
    | Idle
    | ReserveBase(update: Update, attempt: Attempt)
    | ReserveOperations(update: Update, attempt: Attempt, counter: nat)
    | ReserveClaims(update: Update, attempt: Attempt, counter: nat)
    | Claiming(update: Update, attempt: Attempt, counter: nat, seen: set<nat>)
    | Publishing(ticket: Ticket)
    | CompactBase(ticket: Ticket)
    | CompactList(ticket: Ticket, base: Base)
    | CompactWrite(ticket: Ticket, next: Base)
    | ReadBase(purpose: Purpose, attempts: nat, since: Journal)
    | ReadList(purpose: Purpose, attempts: nat, since: Journal, base: Base)
    | ReadCheck(purpose: Purpose, attempts: nat, since: Journal, listed: Journal, result: Document)
    | Finished(purpose: Purpose, since: Journal, listed: Journal, result: Document)

  /** The part of a step the environment decides. */
  datatype Choice =
    | StartUpdate(update: Update)
    | StartRead
    | Access
    | ListOperations(names: seq<string>)
    | ListClaims(counters: seq<nat>)
    | Create(suffix: string)
    | Rename(created: string)
    | Check(sameIdentity: bool)
    | Fail

  const READ_ATTEMPTS := 3

  // ------------------------------------------------------------ operations

  predicate CarriesNothing(update: Update) {
    && update.status.None? && !Truthy(update.note)
    && update.pickedUpBy.None? && !Truthy(update.pickedUpSessionId)
  }

  function OperationFor(update: Update, revision: string, created: string): Operation {
    Operation(revision, created, update.status, update.pickedUpBy, update.pickedUpSessionId, update.note)
  }

  predicate Distinct<T(==)>(s: seq<T>) {
    forall i, j | 0 <= i < j < |s| :: s[i] != s[j]
  }

  ghost predicate Names<T(!new)>(names: seq<T>, all: set<T>) {
    Distinct(names) && forall n :: n in names <==> n in all
  }

  predicate Sorted(locale: Locale, ops: seq<Operation>) {
    forall i, j | 0 <= i < j < |ops| :: NotAbove(locale, ops[i], ops[j])
  }

  function Insert(locale: Locale, ops: seq<Operation>, op: Operation): (r: seq<Operation>)
    ensures forall o :: o in r <==> o in ops || o == op
    ensures op !in ops && Distinct(ops) ==> Distinct(r)
  {
    if ops == [] then [op]
    else if Compare(locale, ops[|ops| - 1].revision, op.revision) <= 0 then ops + [op]
    else
      var last := ops[|ops| - 1];
      assert ops == ops[..|ops| - 1] + [last];
      var rest := Insert(locale, ops[..|ops| - 1], op);
      assert op !in ops && Distinct(ops) ==> last !in rest;
      rest + [last]
  }

  predicate NotAbove(locale: Locale, a: Operation, b: Operation) {
    Compare(locale, a.revision, b.revision) <= 0
  }

  lemma NotAboveChains(locale: Locale, a: Operation, b: Operation, c: Operation)
    requires TotalOrder(locale) && NotAbove(locale, a, b) && NotAbove(locale, b, c)
    ensures NotAbove(locale, a, c)
  {
    CompareIsTotalOrder(locale, a.revision, b.revision, c.revision);
    CompareIsTotalOrder(locale, b.revision, c.revision, a.revision);
  }

  lemma {:induction false} InsertKeepsSorted(locale: Locale, ops: seq<Operation>, op: Operation)
    requires TotalOrder(locale) && Sorted(locale, ops)
    ensures Sorted(locale, Insert(locale, ops, op))
  {
    if ops != [] {
      var front, last := ops[..|ops| - 1], ops[|ops| - 1];
      assert ops == front + [last];
      if NotAbove(locale, last, op) {
        forall i | 0 <= i < |ops| ensures NotAbove(locale, ops[i], op) {
          if i < |front| {
            NotAboveChains(locale, ops[i], last, op);
          }
        }
      } else {
        InsertKeepsSorted(locale, front, op);
        var rest := Insert(locale, front, op);
        CompareIsTotalOrder(locale, last.revision, op.revision, "");
        forall i | 0 <= i < |rest| ensures NotAbove(locale, rest[i], last) {
          assert rest[i] in rest;
          if rest[i] != op {
            var k :| 0 <= k < |front| && front[k] == rest[i];
            assert ops[k] == front[k];
          }
        }
      }
    }
  }

  /** `readUpdateOperations`: the listed files not yet folded, by revision. */
  function Pending(locale: Locale, journal: Journal, names: seq<string>, folded: set<string>): (r: seq<Operation>)
    requires forall n | n in names :: n in journal && journal[n].revision == n
    requires Distinct(names)
    ensures forall o :: o in r <==> o.revision in names && o.revision !in folded && journal[o.revision] == o
    ensures Distinct(r)
  {
    if names == [] then []
    else
      var last := names[|names| - 1];
      assert names == names[..|names| - 1] + [last];
      var rest := Pending(locale, journal, names[..|names| - 1], folded);
      if last in folded then rest else Insert(locale, rest, journal[last])
  }

  lemma {:induction false} PendingIsSorted(locale: Locale, journal: Journal, names: seq<string>, folded: set<string>)
    requires TotalOrder(locale)
    requires forall n | n in names :: n in journal && journal[n].revision == n
    requires Distinct(names)
    ensures Sorted(locale, Pending(locale, journal, names, folded))
  {
    if names != [] {
      var front, last := names[..|names| - 1], names[|names| - 1];
      assert names == front + [last];
      PendingIsSorted(locale, journal, front, folded);
      InsertKeepsSorted(locale, Pending(locale, journal, front, folded), journal[last]);
    }
  }

  function Highest(counters: seq<nat>): (r: nat)
    ensures forall c | c in counters :: c <= r
  {
    if counters == [] then 0
    else
      assert counters == counters[..|counters| - 1] + [counters[|counters| - 1]];
      Max(Highest(counters[..|counters| - 1]), counters[|counters| - 1])
  }

  function Max(a: nat, b: nat): nat {
    if a < b then b else a
  }

  function RegisterCounters(registers: Registers): seq<nat> {
    [RevisionCounter(registers.status), RevisionCounter(registers.pickedUpBy), RevisionCounter(registers.pickedUpSessionId)]
  }

  // ------------------------------------------------------------------ steps

  /** The file names a process may see: operation files are named by their revision. */
  ghost predicate IsListing(journal: Journal, names: seq<string>) {
    Names(names, journal.Keys) && forall n | n in journal :: journal[n].revision == n
  }

  ghost function BeginRead(purpose: Purpose, disk: Disk): Process {
    ReadBase(purpose, 0, disk.journal)
  }

  /** One step of one process; None when the choice is not open to it. */
  ghost function Step(locale: Locale, p: Process, disk: Disk, choice: Choice): Option<(Process, Disk)> {
    if choice.Fail? then Some((AfterFailure(p, disk), disk))
    else match p
      case Idle => Start(disk, choice)
      case ReserveBase(u, a) =>
        if !choice.Access? then None
        else Some((ReserveOperations(u, a, Highest(RegisterCounters(disk.base.doc.registers))), disk))
      case ReserveOperations(u, a, n) =>
        if !ListsJournal(disk.journal, choice) then None
        else Some((ReserveClaims(u, a, Max(n, Highest(Counters(choice.names)))), disk))
      case ReserveClaims(u, a, n) =>
        if !choice.ListClaims? || !Names(choice.counters, disk.claims) then None
        else Some((Claiming(u, a, Max(n, Highest(choice.counters)), disk.claims), disk))
      case Claiming(u, a, n, _) => CreateClaim(u, a, n + 1, disk, choice)
      case Publishing(t) =>
        if !choice.Rename? then None
        else Some((CompactBase(t), disk.(journal := disk.journal[t.revision := OperationFor(t.update, t.revision, choice.created)])))
      case CompactBase(t) => if !choice.Access? then None else Some((CompactList(t, disk.base), disk))
      case CompactList(t, base) => if !ListsJournal(disk.journal, choice) then None else Some((FoldPendingInto(locale, t, base, disk, choice.names), disk))
      case CompactWrite(t, next) =>
        if !choice.Access? then None else Some((BeginRead(AfterUpdate(t), disk), disk.(base := next)))
      case ReadBase(q, k, since) => if !choice.Access? then None else Some((ReadList(q, k, since, disk.base), disk))
      case ReadList(q, k, since, base) =>
        if !ListsJournal(disk.journal, choice) then None else Some((FoldListed(locale, q, k, since, base, disk, choice.names), disk))
      case ReadCheck(q, k, since, listed, result) =>
        if !choice.Check? then None
        else Some((if choice.sameIdentity then Finished(q, since, listed, result) else ReadBase(q, k + 1, since), disk))
      case Finished(_, _, _, _) => None
  }

  ghost predicate ListsJournal(journal: Journal, choice: Choice) {
    choice.ListOperations? && IsListing(journal, choice.names)
  }

  function Counters(revisions: seq<string>): seq<nat> {
    seq(|revisions|, i requires 0 <= i < |revisions| => RevisionCounter(revisions[i]))
  }

  ghost function Start(disk: Disk, choice: Choice): Option<(Process, Disk)> {
    match choice
    case StartUpdate(u) =>
      Some((if CarriesNothing(u) then BeginRead(ReadOnly, disk) else ReserveBase(u, Attempt(disk.claims, 0)), disk))
    case StartRead => Some((BeginRead(ReadOnly, disk), disk))
    case _ => None
  }

  /** Exclusive creation of the claim file: the loop goes round again when it exists. */
  ghost function CreateClaim(u: Update, a: Attempt, counter: nat, disk: Disk, choice: Choice): Option<(Process, Disk)> {
    if !choice.Create? || counter >= Decimal.Pow10(WIDTH) then None
    else if counter in disk.claims then Some((ReserveBase(u, a.(failures := a.failures + 1)), disk))
    else Some((Publishing(Ticket(u, a, RevisionFor(counter, choice.suffix))), disk.(claims := disk.claims + {counter})))
  }

  ghost function FoldPendingInto(locale: Locale, t: Ticket, base: Base, disk: Disk, names: seq<string>): Process
    requires IsListing(disk.journal, names)
  {
    var pending := Pending(locale, disk.journal, names, base.folded);
    if pending == [] then BeginRead(AfterUpdate(t), disk) else CompactWrite(t, Compacted(locale, base, pending))
  }

  ghost function FoldListed(locale: Locale, q: Purpose, k: nat, since: Journal, base: Base, disk: Disk, names: seq<string>): Process
    requires IsListing(disk.journal, names)
  {
    var result := Fold(locale, base.doc, Pending(locale, disk.journal, names, base.folded));
    if k < READ_ATTEMPTS then ReadCheck(q, k, since, disk.journal, result) else Finished(q, since, disk.journal, result)
  }

  function Compacted(locale: Locale, base: Base, pending: seq<Operation>): Base {
    Base(Fold(locale, base.doc, pending), base.folded + set o | o in pending :: o.revision)
  }

  /** An error in a compaction is swallowed; elsewhere the call, or the whole process, is gone. */
  ghost function AfterFailure(p: Process, disk: Disk): Process {
    if p.CompactBase? || p.CompactList? || p.CompactWrite? then BeginRead(AfterUpdate(p.ticket), disk) else Idle
  }

  datatype World = World(disk: Disk, processes: map<nat, Process>)

  datatype Move = Move(pid: nat, choice: Choice)

  ghost function Perform(locale: Locale, w: World, move: Move): Option<World> {
    if move.pid !in w.processes then None
    else match Step(locale, w.processes[move.pid], w.disk, move.choice)
      case None => None
      case Some((p, disk)) => Some(World(disk, w.processes[move.pid := p]))
  }

  /** A freshly created handoff: nothing folded, nothing reserved, nobody at work. */
  ghost predicate Created(w: World, creation: Document) {
    && w.disk == Disk(Base(creation, {}), map[], {})
    && creation.registers == Registers("", "", "")
    && forall pid | pid in w.processes :: w.processes[pid] == Idle
  }

  /** `worlds` is what `moves` make of a freshly created handoff. */
  ghost predicate IsRun(locale: Locale, creation: Document, worlds: seq<World>, moves: seq<Move>) {
    && |worlds| == |moves| + 1
    && Created(worlds[0], creation)
    && forall i | 0 <= i < |moves| :: Perform(locale, worlds[i], moves[i]) == Some(worlds[i + 1])
  }

  // -------------------------------------------------------------- invariant

  ghost predicate Within(a: Journal, b: Journal) {
    forall r | r in a :: r in b && b[r] == a[r]
  }

  /** `order` lists each operation of `revisions` exactly once. */
  ghost predicate Enumerates(order: seq<Operation>, revisions: set<string>, journal: Journal) {
    && Distinct(order)
    && (forall o | o in order :: o.revision in revisions && o.revision in journal && journal[o.revision] == o)
    && (forall r | r in revisions :: r in journal && journal[r] in order)
  }

  ghost predicate IsFoldOf(locale: Locale, creation: Document, order: seq<Operation>, revisions: set<string>, journal: Journal, doc: Document) {
    Enumerates(order, revisions, journal) && doc == Fold(locale, creation, order)
  }

  /** The document is the creation folded with exactly the operations of `revisions`, each once. */
  ghost predicate Carries(locale: Locale, creation: Document, doc: Document, revisions: set<string>, journal: Journal) {
    exists order :: IsFoldOf(locale, creation, order, revisions, journal, doc)
  }

  ghost predicate GoodBase(locale: Locale, creation: Document, base: Base, journal: Journal) {
    base.folded <= journal.Keys && Carries(locale, creation, base.doc, base.folded, journal)
  }

  ghost predicate GoodJournal(disk: Disk) {
    && (forall r | r in disk.journal :: disk.journal[r].revision == r && RevisionCounter(r) > 0 && RevisionCounter(r) in disk.claims)
    && (forall r, r' | r in disk.journal && r' in disk.journal && RevisionCounter(r) == RevisionCounter(r') :: r == r')
  }

  ghost predicate GoodAttempt(attempt: Attempt, claims: set<nat>) {
    attempt.start <= claims && attempt.failures + |attempt.start| <= |claims|
  }

  /** The reserved counter is claimed and above everything claimed when the reservation began. */
  ghost predicate GoodTicket(ticket: Ticket, claims: set<nat>) {
    && GoodAttempt(ticket.attempt, claims)
    && ticket.attempt.failures + |ticket.attempt.start| < |claims|
    && RevisionCounter(ticket.revision) > 0
    && RevisionCounter(ticket.revision) in claims
    && forall c | c in ticket.attempt.start :: c < RevisionCounter(ticket.revision)
  }

  /** The operation carries what the update asked for, note included. */
  predicate IsPublication(op: Operation, update: Update, revision: string) {
    && op.revision == revision && op.status == update.status && op.pickedUpBy == update.pickedUpBy
    && op.pickedUpSessionId == update.pickedUpSessionId && op.note == update.note
  }

  ghost predicate Published(ticket: Ticket, journal: Journal) {
    && ticket.revision in journal
    && IsPublication(journal[ticket.revision], ticket.update, ticket.revision)
  }

  ghost predicate GoodPurpose(purpose: Purpose, since: Journal, claims: set<nat>) {
    purpose.AfterUpdate? ==> GoodTicket(purpose.ticket, claims) && Published(purpose.ticket, since)
  }

  ghost predicate GoodProcess(locale: Locale, creation: Document, p: Process, disk: Disk) {
    match p
    case Idle => true
    case ReserveBase(_, a) => GoodAttempt(a, disk.claims)
    case ReserveOperations(_, a, _) => GoodAttempt(a, disk.claims)
    case ReserveClaims(_, a, _) => GoodAttempt(a, disk.claims)
    case Claiming(_, a, n, seen) => GoodAttempt(a, seen) && seen <= disk.claims && forall c | c in seen :: c <= n
    case Publishing(t) => GoodTicket(t, disk.claims) && forall r | r in disk.journal :: RevisionCounter(r) != RevisionCounter(t.revision)
    case CompactBase(t) => GoodTicket(t, disk.claims) && Published(t, disk.journal)
    case CompactList(t, base) =>
      GoodTicket(t, disk.claims) && Published(t, disk.journal) && GoodBase(locale, creation, base, disk.journal)
    case CompactWrite(t, next) =>
      GoodTicket(t, disk.claims) && Published(t, disk.journal) && GoodBase(locale, creation, next, disk.journal)
    case ReadBase(q, _, since) => GoodPurpose(q, since, disk.claims) && Within(since, disk.journal)
    case ReadList(q, _, since, base) =>
      GoodPurpose(q, since, disk.claims) && Within(since, disk.journal) && GoodBase(locale, creation, base, disk.journal)
    case ReadCheck(q, _, since, listed, result) => GoodResult(locale, creation, q, since, listed, result, disk)
    case Finished(q, since, listed, result) => GoodResult(locale, creation, q, since, listed, result, disk)
  }

  ghost predicate GoodResult(locale: Locale, creation: Document, q: Purpose, since: Journal, listed: Journal, result: Document, disk: Disk) {
    && GoodPurpose(q, since, disk.claims)
    && Within(since, listed) && Within(listed, disk.journal)
    && Carries(locale, creation, result, listed.Keys, listed)
  }

  ghost predicate Inv(locale: Locale, creation: Document, w: World) {
    && GoodJournal(w.disk)
    && GoodBase(locale, creation, w.disk.base, w.disk.journal)
    && (forall pid | pid in w.processes :: GoodProcess(locale, creation, w.processes[pid], w.disk))
    && (forall a, b | a in w.processes && b in w.processes && a != b :: SeparateClaims(w.processes[a], w.processes[b]))
  }

  ghost predicate SeparateClaims(p: Process, q: Process) {
    p.Publishing? && q.Publishing? ==> RevisionCounter(p.ticket.revision) != RevisionCounter(q.ticket.revision)
  }

  // ---------------------------------------------------------- preservation

  lemma CarriesInLarger(locale: Locale, creation: Document, doc: Document, revisions: set<string>, a: Journal, b: Journal)
    requires Carries(locale, creation, doc, revisions, a) && Within(a, b)
    ensures Carries(locale, creation, doc, revisions, b)
  {
    var order :| IsFoldOf(locale, creation, order, revisions, a, doc);
    assert IsFoldOf(locale, creation, order, revisions, b, doc);
  }

  /** Other processes only add claims and operations, which hurts nobody. */
  lemma GrowthIsHarmless(locale: Locale, creation: Document, p: Process, disk: Disk, disk': Disk)
    requires GoodProcess(locale, creation, p, disk)
    requires Within(disk.journal, disk'.journal) && disk.claims <= disk'.claims
    requires p.Publishing? ==> forall r | r in disk'.journal :: RevisionCounter(r) != RevisionCounter(p.ticket.revision)
    ensures GoodProcess(locale, creation, p, disk')
  {
    SubsetSize(disk.claims, disk'.claims);
    match p
    case CompactList(_, base) => CarriesInLarger(locale, creation, base.doc, base.folded, disk.journal, disk'.journal);
    case CompactWrite(_, next) => CarriesInLarger(locale, creation, next.doc, next.folded, disk.journal, disk'.journal);
    case ReadList(_, _, _, base) => CarriesInLarger(locale, creation, base.doc, base.folded, disk.journal, disk'.journal);
    case _ =>
  }

  lemma SubsetSize(a: set<nat>, b: set<nat>)
    requires a <= b
    ensures |a| <= |b|
    ensures a != b ==> |a| < |b|
  {
    assert b == a + (b - a);
    if a != b {
      assert b - a != {};
    }
  }

  lemma PendingEnumerates(locale: Locale, creation: Document, base: Base, journal: Journal, names: seq<string>,
                          pending: seq<Operation>, order: seq<Operation>)
    requires IsListing(journal, names) && pending == Pending(locale, journal, names, base.folded)
    requires base.folded <= journal.Keys && Enumerates(order, base.folded, journal)
    ensures Enumerates(order + pending, journal.Keys, journal)
    ensures base.folded + (set o | o in pending :: o.revision) == journal.Keys
  {
    forall r | r in journal ensures journal[r] in order + pending && (r in base.folded || r in set o | o in pending :: o.revision) {
      assert r in names;
      assert r in base.folded ==> journal[r] in order;
      assert r !in base.folded ==> journal[r] in pending;
    }
  }

  /** Folding what a base does not claim gives a document that carries exactly the listing. */
  lemma FoldPending(locale: Locale, creation: Document, base: Base, journal: Journal, names: seq<string>)
    requires GoodBase(locale, creation, base, journal) && IsListing(journal, names)
    ensures var pending := Pending(locale, journal, names, base.folded);
            && Carries(locale, creation, Fold(locale, base.doc, pending), journal.Keys, journal)
            && Compacted(locale, base, pending).folded == journal.Keys
  {
    var pending := Pending(locale, journal, names, base.folded);
    var order :| IsFoldOf(locale, creation, order, base.folded, journal, base.doc);
    FoldInBatches(locale, creation, order, pending);
    PendingEnumerates(locale, creation, base, journal, names, pending, order);
    assert IsFoldOf(locale, creation, order + pending, journal.Keys, journal, Fold(locale, base.doc, pending));
  }

  /** A step leaves its own process good, keeps the disk's invariant and only adds to journal and claims. */
  ghost predicate GoodStep(locale: Locale, creation: Document, p: Process, disk: Disk, p': Process, disk': Disk) {
    && Within(disk.journal, disk'.journal) && disk.claims <= disk'.claims
    && GoodJournal(disk') && GoodBase(locale, creation, disk'.base, disk'.journal)
    && GoodProcess(locale, creation, p', disk')
    && (p'.Publishing? ==> RevisionCounter(p'.ticket.revision) !in disk.claims)
    && (disk'.journal != disk.journal ==>
          p.Publishing? && disk'.journal.Keys == disk.journal.Keys + {p.ticket.revision})
  }

  ghost predicate GoodBefore(locale: Locale, creation: Document, p: Process, disk: Disk) {
    && GoodJournal(disk) && GoodBase(locale, creation, disk.base, disk.journal)
    && GoodProcess(locale, creation, p, disk)
  }

  lemma FailureIsGood(locale: Locale, creation: Document, p: Process, disk: Disk)
    requires GoodBefore(locale, creation, p, disk)
    ensures GoodStep(locale, creation, p, disk, AfterFailure(p, disk), disk)
  {
  }

  lemma ReserveIsGood(locale: Locale, creation: Document, p: Process, disk: Disk, choice: Choice, p': Process, disk': Disk)
    requires p.Idle? || p.ReserveBase? || p.ReserveOperations? || p.ReserveClaims?
    requires GoodBefore(locale, creation, p, disk)
    requires !choice.Fail? && Step(locale, p, disk, choice) == Some((p', disk'))
    ensures GoodStep(locale, creation, p, disk, p', disk')
  {
  }

  lemma ClaimIsGood(locale: Locale, creation: Document, p: Process, disk: Disk, choice: Choice, p': Process, disk': Disk)
    requires p.Claiming?
    requires GoodBefore(locale, creation, p, disk)
    requires !choice.Fail? && Step(locale, p, disk, choice) == Some((p', disk'))
    ensures GoodStep(locale, creation, p, disk, p', disk')
  {
    var n := p.counter + 1;
    SubsetSize(p.seen, disk.claims);
    if n in disk.claims {
      assert n !in p.seen;
    } else {
      ReservedCounter(n, choice.suffix);
      assert |disk'.claims| == |disk.claims| + 1;
    }
  }

  lemma PublishIsGood(locale: Locale, creation: Document, p: Process, disk: Disk, choice: Choice, p': Process, disk': Disk)
    requires p.Publishing?
    requires GoodBefore(locale, creation, p, disk)
    requires !choice.Fail? && Step(locale, p, disk, choice) == Some((p', disk'))
    ensures GoodStep(locale, creation, p, disk, p', disk')
  {
    assert p.ticket.revision !in disk.journal;
    CarriesInLarger(locale, creation, disk.base.doc, disk.base.folded, disk.journal, disk'.journal);
  }

  /** A step that leaves the disk alone is good when it leaves its process good. */
  lemma SameDiskIsGood(locale: Locale, creation: Document, p: Process, disk: Disk, p': Process)
    requires GoodBefore(locale, creation, p, disk) && GoodProcess(locale, creation, p', disk) && !p'.Publishing?
    ensures GoodStep(locale, creation, p, disk, p', disk)
  {
  }

  lemma CompactListIsGood(locale: Locale, creation: Document, p: Process, disk: Disk, names: seq<string>)
    requires p.CompactList? && GoodBefore(locale, creation, p, disk) && IsListing(disk.journal, names)
    ensures GoodProcess(locale, creation, FoldPendingInto(locale, p.ticket, p.base, disk, names), disk)
  {
    FoldPending(locale, creation, p.base, disk.journal, names);
  }

  lemma CompactIsGood(locale: Locale, creation: Document, p: Process, disk: Disk, choice: Choice, p': Process, disk': Disk)
    requires p.CompactBase? || p.CompactList? || p.CompactWrite?
    requires GoodBefore(locale, creation, p, disk)
    requires !choice.Fail? && Step(locale, p, disk, choice) == Some((p', disk'))
    ensures GoodStep(locale, creation, p, disk, p', disk')
  {
    if p.CompactList? {
      CompactListIsGood(locale, creation, p, disk, choice.names);
      SameDiskIsGood(locale, creation, p, disk, p');
    } else if p.CompactBase? {
      SameDiskIsGood(locale, creation, p, disk, p');
    }
  }

  lemma ReadListIsGood(locale: Locale, creation: Document, p: Process, disk: Disk, names: seq<string>)
    requires p.ReadList? && GoodBefore(locale, creation, p, disk) && IsListing(disk.journal, names)
    ensures GoodProcess(locale, creation, FoldListed(locale, p.purpose, p.attempts, p.since, p.base, disk, names), disk)
  {
    FoldPending(locale, creation, p.base, disk.journal, names);
  }

  lemma ReadIsGood(locale: Locale, creation: Document, p: Process, disk: Disk, choice: Choice, p': Process, disk': Disk)
    requires InRead(p)
    requires GoodBefore(locale, creation, p, disk)
    requires !choice.Fail? && Step(locale, p, disk, choice) == Some((p', disk'))
    ensures GoodStep(locale, creation, p, disk, p', disk')
  {
    if p.ReadList? {
      ReadListIsGood(locale, creation, p, disk, choice.names);
    }
    SameDiskIsGood(locale, creation, p, disk, p');
  }

  lemma StepIsGood(locale: Locale, creation: Document, p: Process, disk: Disk, choice: Choice, p': Process, disk': Disk)
    requires GoodBefore(locale, creation, p, disk)
    requires Step(locale, p, disk, choice) == Some((p', disk'))
    ensures GoodStep(locale, creation, p, disk, p', disk')
  {
    if choice.Fail? {
      FailureIsGood(locale, creation, p, disk);
    } else if p.Claiming? {
      ClaimIsGood(locale, creation, p, disk, choice, p', disk');
    } else if p.Publishing? {
      PublishIsGood(locale, creation, p, disk, choice, p', disk');
    } else if p.CompactBase? || p.CompactList? || p.CompactWrite? {
      CompactIsGood(locale, creation, p, disk, choice, p', disk');
    } else if InRead(p) {
      ReadIsGood(locale, creation, p, disk, choice, p', disk');
    } else {
      ReserveIsGood(locale, creation, p, disk, choice, p', disk');
    }
  }

  lemma PerformKeepsInv(locale: Locale, creation: Document, w: World, move: Move, w': World)
    requires Inv(locale, creation, w) && Perform(locale, w, move) == Some(w')
    ensures Inv(locale, creation, w')
    ensures Within(w.disk.journal, w'.disk.journal) && w.disk.claims <= w'.disk.claims
  {
    var p, disk := w.processes[move.pid], w.disk;
    var (p', disk') := Step(locale, p, disk, move.choice).value;
    StepIsGood(locale, creation, p, disk, move.choice, p', disk');
    forall other | other in w.processes && other != move.pid
      ensures GoodProcess(locale, creation, w.processes[other], disk')
      ensures SeparateClaims(p', w.processes[other]) && SeparateClaims(w.processes[other], p')
    {
      var o := w.processes[other];
      assert SeparateClaims(o, p) && GoodProcess(locale, creation, o, disk);
      GrowthIsHarmless(locale, creation, o, disk, disk');
    }
  }

  lemma {:induction false} RunKeepsInv(locale: Locale, creation: Document, worlds: seq<World>, moves: seq<Move>)
    requires IsRun(locale, creation, worlds, moves)
    ensures Inv(locale, creation, worlds[|moves|])
  {
    if moves == [] {
      assert IsFoldOf(locale, creation, [], {}, map[], creation);
    } else {
      var n := |moves| - 1;
      PrefixIsRun(locale, creation, worlds, moves, n);
      RunKeepsInv(locale, creation, worlds[..n + 1], moves[..n]);
      PerformKeepsInv(locale, creation, worlds[n], moves[n], worlds[n + 1]);
    }
  }

  lemma PrefixIsRun(locale: Locale, creation: Document, worlds: seq<World>, moves: seq<Move>, n: nat)
    requires IsRun(locale, creation, worlds, moves) && n <= |moves|
    ensures IsRun(locale, creation, worlds[..n + 1], moves[..n])
  {
    forall i | 0 <= i < n ensures Perform(locale, worlds[..n + 1][i], moves[..n][i]) == Some(worlds[..n + 1][i + 1]) {
      assert Perform(locale, worlds[i], moves[i]) == Some(worlds[i + 1]);
    }
  }

  // ------------------------------------------------------------ main results

  predicate InRead(p: Process) {
    p.ReadBase? || p.ReadList? || p.ReadCheck? || p.Finished?
  }

  predicate HasListed(p: Process) {
    p.ReadCheck? || p.Finished?
  }

  /** In `worlds`, the read of `pid` began at `start` and has been under way ever since. */
  ghost predicate ReadsSince(worlds: seq<World>, pid: nat, start: nat, p: Process)
    requires InRead(p)
  {
    && start < |worlds|
    && worlds[start].disk.journal == p.since
    && forall k | start < k < |worlds| :: pid in worlds[k].processes && InRead(worlds[k].processes[pid])
                                          && worlds[k].processes[pid].since == p.since
                                          && worlds[k].processes[pid].purpose == p.purpose
  }

  lemma {:induction false} ReadInterval(locale: Locale, creation: Document, worlds: seq<World>, moves: seq<Move>, pid: nat)
    returns (start: nat, listing: nat)
    requires IsRun(locale, creation, worlds, moves)
    requires pid in worlds[|moves|].processes && InRead(worlds[|moves|].processes[pid])
    ensures start < |moves| && ReadsSince(worlds, pid, start, worlds[|moves|].processes[pid])
    ensures HasListed(worlds[|moves|].processes[pid]) ==>
              start < listing < |moves| && worlds[listing].disk.journal == worlds[|moves|].processes[pid].listed
  {
    var n := |moves| - 1;
    assert moves != [];
    assert Perform(locale, worlds[n], moves[n]) == Some(worlds[n + 1]);
    PrefixIsRun(locale, creation, worlds, moves, n);
    var before, after := worlds[n].processes[pid], worlds[n + 1].processes[pid];
    if InRead(before) {
      start, listing := ReadInterval(locale, creation, worlds[..n + 1], moves[..n], pid);
      assert worlds[..n + 1][n] == worlds[n];
      forall k | start < k < |worlds|
        ensures pid in worlds[k].processes && InRead(worlds[k].processes[pid])
                && worlds[k].processes[pid].since == after.since && worlds[k].processes[pid].purpose == after.purpose
      {
        if k <= n {
          assert worlds[..n + 1][k] == worlds[k];
        }
      }
      if HasListed(after) && !HasListed(before) {
        listing := n;
      }
    } else {
      start, listing := n, n;
    }
  }

  /**
   Reads are linearizable. Whatever writers and (possibly stale) compactors do,
   a finished read returns the creation folded with exactly the operations in the
   journal at one moment between its start and its end: each log line once, and
   in each register the value of the greatest revision that set it, or the
   creation's value when none did.
   */
  lemma ReadReturnsJournal(locale: Locale, creation: Document, worlds: seq<World>, moves: seq<Move>, pid: nat)
    returns (start: nat, listing: nat, order: seq<Operation>)
    requires TotalOrder(locale) && IsRun(locale, creation, worlds, moves)
    requires pid in worlds[|moves|].processes && worlds[|moves|].processes[pid].Finished?
    ensures start < listing < |moves| && ReadsSince(worlds, pid, start, worlds[|moves|].processes[pid])
    ensures var p := worlds[|moves|].processes[pid]; var journal := worlds[listing].disk.journal;
            && Enumerates(order, journal.Keys, journal)
            && p.result == Fold(locale, creation, order)
            && LastWriterWins(locale, order, StatusSet, StatusRegister(creation), StatusRegister(p.result))
            && LastWriterWins(locale, order, AgentSet, AgentRegister(creation), AgentRegister(p.result))
            && LastWriterWins(locale, order, SessionSet, SessionRegister(creation), SessionRegister(p.result))
            && IsLatest(order, creation.handoff.updated, p.result.handoff.updated)
            && p.result.handoff.body == AppendAll(creation.handoff.body, LogEntries(order))
  {
    start, listing := ReadInterval(locale, creation, worlds, moves, pid);
    RunKeepsInv(locale, creation, worlds, moves);
    var p := worlds[|moves|].processes[pid];
    order :| IsFoldOf(locale, creation, order, p.listed.Keys, p.listed, p.result);
    FoldMeaning(locale, creation, order);
  }

  /**
   On every reachable disk the base carries exactly the operations it names, and
   they are all in the journal: stale compactors can only lose prose that the
   base does not claim to have.
   */
  lemma BaseCarriesItsRevisions(locale: Locale, creation: Document, worlds: seq<World>, moves: seq<Move>)
    returns (order: seq<Operation>)
    requires IsRun(locale, creation, worlds, moves)
    ensures var disk := worlds[|moves|].disk;
            && disk.base.folded <= disk.journal.Keys
            && Enumerates(order, disk.base.folded, disk.journal)
            && disk.base.doc == Fold(locale, creation, order)
            && disk.base.doc.handoff.body == AppendAll(creation.handoff.body, LogEntries(order))
  {
    RunKeepsInv(locale, creation, worlds, moves);
    var disk := worlds[|moves|].disk;
    order :| IsFoldOf(locale, creation, order, disk.base.folded, disk.journal, disk.base.doc);
    FoldBody(locale, creation, order);
  }

  lemma {:induction false} FoldBody(locale: Locale, doc: Document, ops: seq<Operation>)
    ensures Fold(locale, doc, ops).handoff.body == AppendAll(doc.handoff.body, LogEntries(ops))
  {
    if ops != [] {
      FoldBody(locale, doc, ops[..|ops| - 1]);
      AppendAllConcat(doc.handoff.body, LogEntries(ops[..|ops| - 1]), LogEntry(ops[|ops| - 1]));
    }
  }

  /** What a read that listed `names` on top of `base` answers. */
  ghost function View(locale: Locale, base: Base, journal: Journal, names: seq<string>): Document
    requires IsListing(journal, names)
  {
    Fold(locale, base.doc, Pending(locale, journal, names, base.folded))
  }

  lemma ListingsAgree(order: seq<Operation>, order': seq<Operation>, journal: Journal)
    requires Enumerates(order, journal.Keys, journal) && Enumerates(order', journal.Keys, journal)
    ensures RevisionsAreNames(order) && SameOperations(order, order')
    ensures multiset(order) == multiset(order')
  {
    SameMultiset(order, order');
  }

  lemma {:induction false} SameMultiset<T(!new)>(a: seq<T>, b: seq<T>)
    requires Distinct(a) && Distinct(b) && forall x :: x in a <==> x in b
    ensures multiset(a) == multiset(b)
  {
    forall x ensures multiset(a)[x] == multiset(b)[x] {
      CountDistinct(a, x);
      CountDistinct(b, x);
    }
  }

  lemma {:induction false} CountDistinct<T(!new)>(s: seq<T>, x: T)
    requires Distinct(s)
    ensures multiset(s)[x] == if x in s then 1 else 0
  {
    if s != [] {
      CountDistinct(s[1..], x);
      assert s == [s[0]] + s[1..];
    }
  }

  /**
   Compaction is a stuttering step: replacing the base by any other base a
   compactor may hold, however stale, changes no register and no time a read
   returns, and the log carries the same lines.
   */
  lemma CompactionStutters(locale: Locale, creation: Document, base: Base, base': Base, journal: Journal, names: seq<string>, names': seq<string>)
    returns (order: seq<Operation>, order': seq<Operation>)
    requires TotalOrder(locale)
    requires IsListing(journal, names) && IsListing(journal, names')
    requires GoodBase(locale, creation, base, journal) && GoodBase(locale, creation, base', journal)
    ensures SameState(View(locale, base, journal, names), View(locale, base', journal, names'))
    ensures multiset(order) == multiset(order')
    ensures View(locale, base, journal, names).handoff.body == AppendAll(creation.handoff.body, LogEntries(order))
    ensures View(locale, base', journal, names').handoff.body == AppendAll(creation.handoff.body, LogEntries(order'))
  {
    FoldPending(locale, creation, base, journal, names);
    FoldPending(locale, creation, base', journal, names');
    var a, b := View(locale, base, journal, names), View(locale, base', journal, names');
    order :| IsFoldOf(locale, creation, order, journal.Keys, journal, a);
    order' :| IsFoldOf(locale, creation, order', journal.Keys, journal, b);
    ListingsAgree(order, order', journal);
    FoldIgnoresOrder(locale, creation, order, order');
    FoldBody(locale, creation, order);
    FoldBody(locale, creation, order');
  }

  /** A step of a run that writes the base leaves what every read returns as it was. */
  lemma BaseWriteStutters(locale: Locale, creation: Document, worlds: seq<World>, moves: seq<Move>, names: seq<string>)
    requires TotalOrder(locale) && IsRun(locale, creation, worlds, moves) && moves != []
    requires worlds[|moves| - 1].disk.journal == worlds[|moves|].disk.journal
    requires IsListing(worlds[|moves|].disk.journal, names)
    ensures var before, after := worlds[|moves| - 1].disk, worlds[|moves|].disk;
            SameState(View(locale, before.base, before.journal, names), View(locale, after.base, after.journal, names))
  {
    var n := |moves| - 1;
    PrefixIsRun(locale, creation, worlds, moves, n);
    RunKeepsInv(locale, creation, worlds[..n + 1], moves[..n]);
    RunKeepsInv(locale, creation, worlds, moves);
    var _, _ := CompactionStutters(locale, creation, worlds[n].disk.base, worlds[n + 1].disk.base, worlds[n].disk.journal, names, names);
  }

  /**
   Where things go wrong: an error in a compaction is swallowed and the update goes
   on to its read, any other error ends the call; a claim somebody else holds
   makes the reservation start over; a base file replaced during a read makes the
   read start over.
   */
  lemma ErrorsAndRetries(locale: Locale, p: Process, disk: Disk, choice: Choice, p': Process, disk': Disk)
    requires Step(locale, p, disk, choice) == Some((p', disk'))
    ensures choice.Fail? ==> disk' == disk
    ensures choice.Fail? && (p.CompactBase? || p.CompactList? || p.CompactWrite?) ==>
              p'.ReadBase? && p'.purpose == AfterUpdate(p.ticket) && p'.since == disk.journal
    ensures choice.Fail? && !(p.CompactBase? || p.CompactList? || p.CompactWrite?) ==> p' == Idle
    ensures p.Claiming? && choice.Create? && p.counter + 1 in disk.claims ==>
              disk' == disk && p'.ReserveBase? && p'.update == p.update
              && p'.attempt.start == p.attempt.start && p'.attempt.failures == p.attempt.failures + 1
    ensures p.ReadCheck? && choice.Check? && choice.sameIdentity ==> p'.Finished? && p'.result == p.result && p'.purpose == p.purpose
    ensures p.ReadCheck? && choice.Check? && !choice.sameIdentity ==> p'.ReadBase? && p'.attempts == p.attempts + 1 && p'.purpose == p.purpose
  {
  }

  /** A step nobody else comes in between. */
  ghost predicate Alone(locale: Locale, w: World, move: Move, w': World, pid: nat) {
    move.pid == pid && !move.choice.Fail? && Perform(locale, w, move) == Some(w')
  }

  /** A compaction that nobody disturbs leaves a base that carries the whole journal. */
  lemma QuietCompactionCatchesUp(locale: Locale, creation: Document, w: World, moves: (Move, Move, Move), w1: World, w2: World, w3: World, pid: nat)
    requires Inv(locale, creation, w) && pid in w.processes && w.processes[pid].CompactBase?
    requires Alone(locale, w, moves.0, w1, pid) && Alone(locale, w1, moves.1, w2, pid) && Alone(locale, w2, moves.2, w3, pid)
    ensures w3.disk.base.folded == w3.disk.journal.Keys == w.disk.journal.Keys
  {
    CompactBaseStep(locale, w, moves.0, w1, pid);
    CompactListStep(locale, creation, w1, moves.1, w2, pid);
    AfterListStep(locale, w2, moves.2, w3, pid);
  }

  lemma CompactBaseStep(locale: Locale, w: World, move: Move, w': World, pid: nat)
    requires pid in w.processes && w.processes[pid].CompactBase? && Alone(locale, w, move, w', pid)
    ensures w'.disk == w.disk && w'.processes[pid] == CompactList(w.processes[pid].ticket, w.disk.base)
  {
  }

  lemma CompactListStep(locale: Locale, creation: Document, w: World, move: Move, w': World, pid: nat)
    requires pid in w.processes && w.processes[pid].CompactList? && w.processes[pid].base == w.disk.base
    requires GoodBase(locale, creation, w.disk.base, w.disk.journal) && Alone(locale, w, move, w', pid)
    ensures w'.disk == w.disk
    ensures if w'.processes[pid].CompactWrite? then w'.processes[pid].next.folded == w.disk.journal.Keys
            else InRead(w'.processes[pid]) && w.disk.base.folded == w.disk.journal.Keys
  {
    FoldPending(locale, creation, w.disk.base, w.disk.journal, move.choice.names);
    if Pending(locale, w.disk.journal, move.choice.names, w.disk.base.folded) == [] {
      assert Compacted(locale, w.disk.base, []).folded == w.disk.base.folded;
    }
  }

  lemma AfterListStep(locale: Locale, w: World, move: Move, w': World, pid: nat)
    requires pid in w.processes && (w.processes[pid].CompactWrite? || InRead(w.processes[pid])) && Alone(locale, w, move, w', pid)
    ensures w'.disk.journal == w.disk.journal
    ensures w'.disk.base == if w.processes[pid].CompactWrite? then w.processes[pid].next else w.disk.base
  {
  }

  /** A read lists the journal four times at the most. */
  lemma {:induction false} ReadsAreBounded(locale: Locale, creation: Document, worlds: seq<World>, moves: seq<Move>, pid: nat)
    requires IsRun(locale, creation, worlds, moves) && pid in worlds[|moves|].processes
    ensures var p := worlds[|moves|].processes[pid];
            && (p.ReadBase? || p.ReadList? ==> p.attempts <= 3)
            && (p.ReadCheck? ==> p.attempts < 3)
  {
    if moves != [] {
      var n := |moves| - 1;
      assert Perform(locale, worlds[n], moves[n]) == Some(worlds[n + 1]);
      PrefixIsRun(locale, creation, worlds, moves, n);
      assert worlds[..n + 1][n] == worlds[n];
      ReadsAreBounded(locale, creation, worlds[..n + 1], moves[..n], pid);
    }
  }

  function TicketOf(p: Process): Option<Ticket> {
    if p.Publishing? || p.CompactBase? || p.CompactList? || p.CompactWrite? then Some(p.ticket)
    else if InRead(p) && p.purpose.AfterUpdate? then Some(p.purpose.ticket)
    else None
  }

  function AttemptOf(p: Process): Option<Attempt> {
    if TicketOf(p).Some? then Some(TicketOf(p).value.attempt)
    else if p.ReserveBase? || p.ReserveOperations? || p.ReserveClaims? || p.Claiming? then Some(p.attempt)
    else None
  }

  /**
   A reservation's revision is claimed, lies above every claim that existed when
   it began, and its failed attempts never outnumber the claims made meanwhile.
   */
  lemma ReservationsAdvance(locale: Locale, creation: Document, worlds: seq<World>, moves: seq<Move>, pid: nat)
    requires IsRun(locale, creation, worlds, moves) && pid in worlds[|moves|].processes
    ensures var p := worlds[|moves|].processes[pid]; var claims := worlds[|moves|].disk.claims;
            && (AttemptOf(p).Some? ==> AttemptOf(p).value.failures <= |claims - AttemptOf(p).value.start|)
            && (TicketOf(p).Some? ==>
                  && RevisionCounter(TicketOf(p).value.revision) in claims
                  && AttemptOf(p).value.failures < |claims - AttemptOf(p).value.start|
                  && forall c | c in AttemptOf(p).value.start :: c < RevisionCounter(TicketOf(p).value.revision))
  {
    RunKeepsInv(locale, creation, worlds, moves);
    var p := worlds[|moves|].processes[pid];
    var claims := worlds[|moves|].disk.claims;
    assert GoodProcess(locale, creation, p, worlds[|moves|].disk);
    if AttemptOf(p).Some? {
      var a := AttemptOf(p).value;
      if p.Claiming? {
        SubsetSize(p.seen, claims);
      }
      assert a.start <= claims;
      assert |claims| == |claims - a.start| + |a.start|;
    }
  }

  /** In `worlds`, the update whose reservation began with move `start` has been under way ever since. */
  ghost predicate ReservesSince(worlds: seq<World>, moves: seq<Move>, pid: nat, start: nat, attempt: Attempt) {
    && start < |moves| && |worlds| == |moves| + 1
    && moves[start].pid == pid && moves[start].choice.StartUpdate?
    && worlds[start].disk.claims == attempt.start
    && forall k | start < k < |worlds| :: pid in worlds[k].processes && AttemptOf(worlds[k].processes[pid]).Some?
                                          && AttemptOf(worlds[k].processes[pid]).value.start == attempt.start
  }

  ghost predicate KeepsAttempt(p: Process, disk: Disk, choice: Choice, p': Process) {
    AttemptOf(p').Some? ==>
      if AttemptOf(p).None? then choice.StartUpdate? && AttemptOf(p').value.start == disk.claims
      else AttemptOf(p').value.start == AttemptOf(p).value.start
  }

  lemma ReadKeepsAttempt(locale: Locale, p: Process, disk: Disk, choice: Choice, p': Process, disk': Disk)
    requires Step(locale, p, disk, choice) == Some((p', disk')) && InRead(p)
    ensures KeepsAttempt(p, disk, choice, p')
  {
  }

  lemma CompactKeepsAttempt(locale: Locale, p: Process, disk: Disk, choice: Choice, p': Process, disk': Disk)
    requires Step(locale, p, disk, choice) == Some((p', disk')) && !InRead(p) && TicketOf(p).Some?
    ensures KeepsAttempt(p, disk, choice, p')
  {
  }

  lemma StepKeepsAttempt(locale: Locale, p: Process, disk: Disk, choice: Choice, p': Process, disk': Disk)
    requires Step(locale, p, disk, choice) == Some((p', disk'))
    ensures KeepsAttempt(p, disk, choice, p')
  {
    if InRead(p) {
      ReadKeepsAttempt(locale, p, disk, choice, p', disk');
    } else if TicketOf(p).Some? {
      CompactKeepsAttempt(locale, p, disk, choice, p', disk');
    }
  }

  /** The claims a reservation remembers are those of the moment it began. */
  lemma {:induction false} ReservationInterval(locale: Locale, creation: Document, worlds: seq<World>, moves: seq<Move>, pid: nat)
    returns (start: nat)
    requires IsRun(locale, creation, worlds, moves)
    requires pid in worlds[|moves|].processes && AttemptOf(worlds[|moves|].processes[pid]).Some?
    ensures ReservesSince(worlds, moves, pid, start, AttemptOf(worlds[|moves|].processes[pid]).value)
  {
    var n := |moves| - 1;
    assert moves != [];
    assert Perform(locale, worlds[n], moves[n]) == Some(worlds[n + 1]);
    PrefixIsRun(locale, creation, worlds, moves, n);
    var before, after := worlds[n].processes[pid], worlds[n + 1].processes[pid];
    if moves[n].pid == pid {
      StepKeepsAttempt(locale, before, worlds[n].disk, moves[n].choice, after, worlds[n + 1].disk);
    }
    if AttemptOf(before).Some? {
      start := ReservationInterval(locale, creation, worlds[..n + 1], moves[..n], pid);
      assert worlds[..n + 1][n] == worlds[n];
      forall k | start < k < |worlds|
        ensures pid in worlds[k].processes && AttemptOf(worlds[k].processes[pid]).Some?
                && AttemptOf(worlds[k].processes[pid]).value.start == AttemptOf(after).value.start
      {
        if k <= n {
          assert worlds[..n + 1][k] == worlds[k];
        }
      }
    } else {
      start := n;
    }
  }

  /** The move from `w` to `w'` created a claim file; this is the revision it reserved. */
  ghost predicate Reserved(w: World, move: Move, w': World, revision: string) {
    && w'.disk.claims != w.disk.claims
    && move.pid in w'.processes && w'.processes[move.pid].Publishing?
    && w'.processes[move.pid].ticket.revision == revision
  }

  /** Every new claim file is a reservation, of a counter nobody had claimed. */
  lemma ClaimIsReservation(locale: Locale, creation: Document, w: World, move: Move, w': World) returns (revision: string)
    requires Inv(locale, creation, w) && Perform(locale, w, move) == Some(w') && w'.disk.claims != w.disk.claims
    ensures Reserved(w, move, w', revision)
    ensures RevisionCounter(revision) !in w.disk.claims
    ensures w'.disk.claims == w.disk.claims + {RevisionCounter(revision)}
  {
    var p := w.processes[move.pid];
    assert p.Claiming?;
    revision := RevisionFor(p.counter + 1, move.choice.suffix);
    ReservedCounter(p.counter + 1, move.choice.suffix);
  }

  lemma {:induction false} ClaimsGrow(locale: Locale, creation: Document, worlds: seq<World>, moves: seq<Move>, i: nat)
    requires IsRun(locale, creation, worlds, moves) && i <= |moves|
    ensures worlds[i].disk.claims <= worlds[|moves|].disk.claims
  {
    if i < |moves| {
      var n := |moves| - 1;
      PrefixIsRun(locale, creation, worlds, moves, n);
      ClaimsGrow(locale, creation, worlds[..n + 1], moves[..n], i);
      RunKeepsInv(locale, creation, worlds[..n + 1], moves[..n]);
      PerformKeepsInv(locale, creation, worlds[n], moves[n], worlds[n + 1]);
    }
  }

  /**
   No two reservations of a run, abandoned ones included, get the same counter; and
   a reservation that began after another one's claim file existed gets the
   greater revision.
   */
  lemma LaterReservationIsGreater(locale: Locale, creation: Document, worlds: seq<World>, moves: seq<Move>, i: nat, j: nat)
    returns (first: string, second: string, start: nat)
    requires IsRun(locale, creation, worlds, moves) && i < j < |moves|
    requires worlds[i + 1].disk.claims != worlds[i].disk.claims
    requires worlds[j + 1].disk.claims != worlds[j].disk.claims
    ensures Reserved(worlds[i], moves[i], worlds[i + 1], first) && Reserved(worlds[j], moves[j], worlds[j + 1], second)
    ensures RevisionCounter(first) != RevisionCounter(second)
    ensures ReservesSince(worlds[..j + 2], moves[..j + 1], moves[j].pid, start, worlds[j + 1].processes[moves[j].pid].ticket.attempt)
    ensures i < start ==> Compare(locale, first, second) < 0
  {
    first := ReservationAt(locale, creation, worlds, moves, i);
    second := ReservationAt(locale, creation, worlds, moves, j);
    ClaimsBetween(locale, creation, worlds, moves, i + 1, j);
    PrefixIsRun(locale, creation, worlds, moves, j + 1);
    start := ReservationInterval(locale, creation, worlds[..j + 2], moves[..j + 1], moves[j].pid);
    if i < start {
      assert moves[..j + 1][start] == moves[start] && worlds[..j + 2][start] == worlds[start];
      ClaimsBetween(locale, creation, worlds, moves, i + 1, start);
      ReservationsAdvance(locale, creation, worlds[..j + 2], moves[..j + 1], moves[j].pid);
    }
  }

  lemma ReservationAt(locale: Locale, creation: Document, worlds: seq<World>, moves: seq<Move>, i: nat) returns (revision: string)
    requires IsRun(locale, creation, worlds, moves) && i < |moves| && worlds[i + 1].disk.claims != worlds[i].disk.claims
    ensures Reserved(worlds[i], moves[i], worlds[i + 1], revision)
    ensures RevisionCounter(revision) !in worlds[i].disk.claims && RevisionCounter(revision) in worlds[i + 1].disk.claims
  {
    PrefixIsRun(locale, creation, worlds, moves, i);
    RunKeepsInv(locale, creation, worlds[..i + 1], moves[..i]);
    revision := ClaimIsReservation(locale, creation, worlds[i], moves[i], worlds[i + 1]);
  }

  lemma ClaimsBetween(locale: Locale, creation: Document, worlds: seq<World>, moves: seq<Move>, i: nat, j: nat)
    requires IsRun(locale, creation, worlds, moves) && i <= j <= |moves|
    ensures worlds[i].disk.claims <= worlds[j].disk.claims
  {
    PrefixIsRun(locale, creation, worlds, moves, j);
    ClaimsGrow(locale, creation, worlds[..j + 1], moves[..j], i);
  }

  /** Two operations, published or about to be, never share a counter. */
  lemma CountersAreUnique(locale: Locale, creation: Document, worlds: seq<World>, moves: seq<Move>)
    requires IsRun(locale, creation, worlds, moves)
    ensures var w := worlds[|moves|];
            && (forall r, r' | r in w.disk.journal && r' in w.disk.journal && r != r' :: RevisionCounter(r) != RevisionCounter(r'))
            && (forall a, r | a in w.processes && w.processes[a].Publishing? && r in w.disk.journal ::
                  RevisionCounter(w.processes[a].ticket.revision) != RevisionCounter(r))
            && (forall a, b | a in w.processes && b in w.processes && a != b
                              && w.processes[a].Publishing? && w.processes[b].Publishing? ::
                  RevisionCounter(w.processes[a].ticket.revision) != RevisionCounter(w.processes[b].ticket.revision))
  {
    RunKeepsInv(locale, creation, worlds, moves);
    var w := worlds[|moves|];
    forall a | a in w.processes && w.processes[a].Publishing?
      ensures forall r | r in w.disk.journal :: RevisionCounter(w.processes[a].ticket.revision) != RevisionCounter(r)
    {
      assert GoodProcess(locale, creation, w.processes[a], w.disk);
    }
    forall a, b | a in w.processes && b in w.processes && a != b && w.processes[a].Publishing? && w.processes[b].Publishing?
      ensures RevisionCounter(w.processes[a].ticket.revision) != RevisionCounter(w.processes[b].ticket.revision)
    {
      assert SeparateClaims(w.processes[a], w.processes[b]);
    }
  }

  /** The update a call is about, until it is reduced to a mere read. */
  function UpdateOf(p: Process): Option<Update> {
    if TicketOf(p).Some? then Some(TicketOf(p).value.update)
    else if p.ReserveBase? || p.ReserveOperations? || p.ReserveClaims? || p.Claiming? then Some(p.update)
    else None
  }

  /** As long as it is under way, a call is about the same update. */
  ghost predicate KeepsUpdate(p: Process, choice: Choice, p': Process) {
    && (p.Idle? && p' != Idle ==>
          if choice.StartUpdate? && CarriesSomething(choice.update) then UpdateOf(p') == Some(choice.update) else UpdateOf(p') == None)
    && (p != Idle && p' != Idle ==> UpdateOf(p') == UpdateOf(p))
  }

  /** A status or an agent, or a note or a session id that is not empty. */
  predicate CarriesSomething(update: Update) {
    || update.status.Some? || update.pickedUpBy.Some?
    || (update.note.Some? && update.note.value != "") || (update.pickedUpSessionId.Some? && update.pickedUpSessionId.value != "")
  }

  lemma ReadKeepsUpdate(locale: Locale, p: Process, disk: Disk, choice: Choice, p': Process, disk': Disk)
    requires Step(locale, p, disk, choice) == Some((p', disk')) && InRead(p)
    ensures KeepsUpdate(p, choice, p')
  {
  }

  lemma CompactKeepsUpdate(locale: Locale, p: Process, disk: Disk, choice: Choice, p': Process, disk': Disk)
    requires Step(locale, p, disk, choice) == Some((p', disk')) && !InRead(p) && TicketOf(p).Some?
    ensures KeepsUpdate(p, choice, p')
  {
  }

  lemma StepKeepsUpdate(locale: Locale, p: Process, disk: Disk, choice: Choice, p': Process, disk': Disk)
    requires Step(locale, p, disk, choice) == Some((p', disk'))
    ensures KeepsUpdate(p, choice, p')
  {
    if InRead(p) {
      ReadKeepsUpdate(locale, p, disk, choice, p', disk');
    } else if TicketOf(p).Some? {
      CompactKeepsUpdate(locale, p, disk, choice, p', disk');
    }
  }

  /** The call that move `start` began is the one `pid` is still at. */
  ghost predicate UnderWaySince(worlds: seq<World>, moves: seq<Move>, pid: nat, start: nat) {
    && start < |moves| && |worlds| == |moves| + 1
    && moves[start].pid == pid && moves[start].choice.StartUpdate?
    && forall k | start < k < |worlds| :: pid in worlds[k].processes && worlds[k].processes[pid] != Idle
  }

  /** A call is about the update it was started with, or only reads when that carries nothing. */
  lemma {:induction false} CallKeepsUpdate(locale: Locale, creation: Document, worlds: seq<World>, moves: seq<Move>, pid: nat, start: nat)
    requires IsRun(locale, creation, worlds, moves) && UnderWaySince(worlds, moves, pid, start)
    ensures var update := moves[start].choice.update;
            UpdateOf(worlds[|moves|].processes[pid]) == if CarriesSomething(update) then Some(update) else None
  {
    var n := |moves| - 1;
    assert Perform(locale, worlds[n], moves[n]) == Some(worlds[n + 1]);
    if moves[n].pid == pid {
      StepKeepsUpdate(locale, worlds[n].processes[pid], worlds[n].disk, moves[n].choice, worlds[n + 1].processes[pid], worlds[n + 1].disk);
    }
    if start < n {
      PrefixIsRun(locale, creation, worlds, moves, n);
      assert worlds[..n + 1][n] == worlds[n];
      CallKeepsUpdate(locale, creation, worlds[..n + 1], moves[..n], pid, start);
    } else {
      StartsFromIdle(locale, worlds[n], moves[n], worlds[n + 1]);
    }
  }

  lemma StartsFromIdle(locale: Locale, w: World, move: Move, w': World)
    requires Perform(locale, w, move) == Some(w') && move.choice.StartUpdate?
    ensures w.processes[move.pid] == Idle
  {
  }

  /** A ticket is published by a rename, or was before this step. */
  ghost predicate PublishesOrKeeps(p: Process, choice: Choice, p': Process, disk': Disk) {
    TicketOf(p').Some? && !p'.Publishing? ==>
      var revision := TicketOf(p').value.revision;
      if p.Publishing? then choice.Rename? && revision in disk'.journal && disk'.journal[revision].created == choice.created
      else TicketOf(p) == TicketOf(p')
  }

  lemma ReadPublishesOrKeeps(locale: Locale, p: Process, disk: Disk, choice: Choice, p': Process, disk': Disk)
    requires Step(locale, p, disk, choice) == Some((p', disk')) && InRead(p)
    ensures PublishesOrKeeps(p, choice, p', disk')
  {
  }

  lemma CompactPublishesOrKeeps(locale: Locale, p: Process, disk: Disk, choice: Choice, p': Process, disk': Disk)
    requires Step(locale, p, disk, choice) == Some((p', disk')) && !InRead(p) && TicketOf(p).Some?
    ensures PublishesOrKeeps(p, choice, p', disk')
  {
  }

  lemma StepPublishesOrKeeps(locale: Locale, p: Process, disk: Disk, choice: Choice, p': Process, disk': Disk)
    requires Step(locale, p, disk, choice) == Some((p', disk'))
    ensures PublishesOrKeeps(p, choice, p', disk')
  {
    if InRead(p) {
      ReadPublishesOrKeeps(locale, p, disk, choice, p', disk');
    } else if TicketOf(p).Some? {
      CompactPublishesOrKeeps(locale, p, disk, choice, p', disk');
    }
  }

  /** The operation of a call's ticket has the time of the rename that published it. */
  lemma {:induction false} PublishedAt(locale: Locale, creation: Document, worlds: seq<World>, moves: seq<Move>, pid: nat)
    returns (i: nat)
    requires IsRun(locale, creation, worlds, moves) && pid in worlds[|moves|].processes
    requires TicketOf(worlds[|moves|].processes[pid]).Some? && !worlds[|moves|].processes[pid].Publishing?
    ensures i < |moves| && moves[i].pid == pid && moves[i].choice.Rename?
    ensures forall k | i < k <= |moves| :: pid in worlds[k].processes && TicketOf(worlds[k].processes[pid]).Some?
    ensures var revision := TicketOf(worlds[|moves|].processes[pid]).value.revision;
            revision in worlds[|moves|].disk.journal && worlds[|moves|].disk.journal[revision].created == moves[i].choice.created
  {
    var n := |moves| - 1;
    assert moves != [];
    assert Perform(locale, worlds[n], moves[n]) == Some(worlds[n + 1]);
    PrefixIsRun(locale, creation, worlds, moves, n);
    RunKeepsInv(locale, creation, worlds[..n + 1], moves[..n]);
    PerformKeepsInv(locale, creation, worlds[n], moves[n], worlds[n + 1]);
    var p, p' := worlds[n].processes[pid], worlds[n + 1].processes[pid];
    if moves[n].pid == pid {
      StepPublishesOrKeeps(locale, p, worlds[n].disk, moves[n].choice, p', worlds[n + 1].disk);
    }
    if p.Publishing? {
      i := n;
    } else {
      assert worlds[..n + 1][n] == worlds[n];
      i := PublishedAt(locale, creation, worlds[..n + 1], moves[..n], pid);
      forall k | i < k <= |moves| ensures pid in worlds[k].processes && TicketOf(worlds[k].processes[pid]).Some? {
        if k <= n {
          assert worlds[..n + 1][k] == worlds[k];
        }
      }
    }
  }

  lemma StartIsIdle(locale: Locale, creation: Document, worlds: seq<World>, moves: seq<Move>, start: nat)
    requires IsRun(locale, creation, worlds, moves) && start < |moves| && moves[start].choice.StartUpdate?
    ensures moves[start].pid in worlds[start].processes && worlds[start].processes[moves[start].pid] == Idle
  {
    assert Perform(locale, worlds[start], moves[start]) == Some(worlds[start + 1]);
    StartsFromIdle(locale, worlds[start], moves[start], worlds[start + 1]);
  }

  lemma FinishedTicket(locale: Locale, creation: Document, p: Process, disk: Disk)
    requires p.Finished? && p.purpose.AfterUpdate? && GoodProcess(locale, creation, p, disk)
    ensures var t := p.purpose.ticket;
            && t.revision in p.listed && IsPublication(p.listed[t.revision], t.update, t.revision)
            && t.revision in disk.journal && disk.journal[t.revision] == p.listed[t.revision]
  {
  }

  lemma FinishedKeepsInv(locale: Locale, creation: Document, worlds: seq<World>, moves: seq<Move>, pid: nat, p: Process)
    requires IsRun(locale, creation, worlds, moves) && pid in worlds[|moves|].processes && p == worlds[|moves|].processes[pid]
    ensures GoodProcess(locale, creation, p, worlds[|moves|].disk)
  {
    RunKeepsInv(locale, creation, worlds, moves);
  }

  /**
   An update that runs to its end was published with every field it was called
   with, in the journal the call's own read returned; one that carries nothing
   published nothing.
   */
  lemma FinishedUpdateIsPublished(locale: Locale, creation: Document, worlds: seq<World>, moves: seq<Move>, pid: nat, start: nat, p: Process)
    requires IsRun(locale, creation, worlds, moves) && UnderWaySince(worlds, moves, pid, start)
    requires p == worlds[|moves|].processes[pid] && p.Finished?
    ensures var update := moves[start].choice.update;
            && (p.purpose.AfterUpdate? <==> CarriesSomething(update))
            && (p.purpose.AfterUpdate? ==>
                  var revision := p.purpose.ticket.revision;
                  && revision in p.listed && p.listed[revision].revision == revision
                  && p.listed[revision].status == update.status && p.listed[revision].pickedUpBy == update.pickedUpBy
                  && p.listed[revision].pickedUpSessionId == update.pickedUpSessionId && p.listed[revision].note == update.note)
  {
    CallKeepsUpdate(locale, creation, worlds, moves, pid, start);
    FinishedKeepsInv(locale, creation, worlds, moves, pid, p);
    if p.purpose.AfterUpdate? {
      FinishedTicket(locale, creation, p, worlds[|moves|].disk);
    }
  }

  /** It carries the time of the rename that published it, which the call made itself. */
  lemma FinishedUpdateHasItsTime(locale: Locale, creation: Document, worlds: seq<World>, moves: seq<Move>, pid: nat, start: nat, p: Process)
    returns (renamed: nat)
    requires IsRun(locale, creation, worlds, moves) && UnderWaySince(worlds, moves, pid, start)
    requires p == worlds[|moves|].processes[pid] && p.Finished? && p.purpose.AfterUpdate?
    ensures start < renamed < |moves| && moves[renamed].pid == pid && moves[renamed].choice.Rename?
    ensures p.purpose.ticket.revision in p.listed && p.listed[p.purpose.ticket.revision].created == moves[renamed].choice.created
  {
    renamed := PublishedAt(locale, creation, worlds, moves, pid);
    StartIsIdle(locale, creation, worlds, moves, start);
    FinishedKeepsInv(locale, creation, worlds, moves, pid, p);
    FinishedTicket(locale, creation, p, worlds[|moves|].disk);
  }

  /**
   And its log line stands in the text the call returns: the note, or else the
   name of the status it set.
   */
  lemma FinishedUpdateIsLogged(locale: Locale, creation: Document, worlds: seq<World>, moves: seq<Move>, pid: nat, start: nat)
    returns (op: Operation, lines: seq<string>, line: string, front: string, back: string)
    requires TotalOrder(locale) && IsRun(locale, creation, worlds, moves) && UnderWaySince(worlds, moves, pid, start)
    requires worlds[|moves|].processes[pid].Finished?
    requires var update := moves[start].choice.update;
             update.status.Some? || (update.note.Some? && update.note.value != "")
    ensures var (p, update, entry) := (worlds[|moves|].processes[pid], moves[start].choice.update, "- " + op.created + " \U{2014} ");
            && p.purpose.AfterUpdate? && p.purpose.ticket.revision in p.listed && op == p.listed[p.purpose.ticket.revision]
            && line in lines
            && p.result.handoff.body == AppendAll(creation.handoff.body, lines) == front + "\n" + TrimEnd(line) + back
            && back != "" && IsSpace(back[0])
            && (update.note.Some? && update.note.value != "" ==> line == entry + update.note.value)
            && (update.note.None? || update.note.value == "" ==>
                  && (update.status == Some(Open) ==> line == entry + "status \U{2192} open")
                  && (update.status == Some(PickedUp) ==> line == entry + "status \U{2192} picked-up")
                  && (update.status == Some(Done) ==> line == entry + "status \U{2192} done")
                  && (update.status == Some(Abandoned) ==> line == entry + "status \U{2192} abandoned"))
  {
    var p := worlds[|moves|].processes[pid];
    FinishedUpdateIsPublished(locale, creation, worlds, moves, pid, start, p);
    FinishedKeepsInv(locale, creation, worlds, moves, pid, p);
    op := p.listed[p.purpose.ticket.revision];
    var order := OrderOf(locale, creation, p, worlds[|moves|].disk);
    var k := LineOf(order, op);
    lines, line := LogEntries(order), LogEntries(order)[k];
    front, back := LineOccurs(creation.handoff.body, lines, k);
    SpellLine(op, line, "- " + op.created + " \U{2014} ");
  }

  lemma OrderOf(locale: Locale, creation: Document, p: Process, disk: Disk) returns (order: seq<Operation>)
    requires p.Finished? && GoodProcess(locale, creation, p, disk)
    ensures Enumerates(order, p.listed.Keys, p.listed)
    ensures p.result.handoff.body == AppendAll(creation.handoff.body, LogEntries(order))
  {
    order :| IsFoldOf(locale, creation, order, p.listed.Keys, p.listed, p.result);
    FoldBody(locale, creation, order);
  }

  lemma LineOf(order: seq<Operation>, op: Operation) returns (k: nat)
    requires op in order && !IsSilent(op)
    ensures k < |LogEntries(order)| && IsLogLine(op, LogEntries(order)[k])
  {
    var from := LogEntriesMean(order);
    var i :| 0 <= i < |order| && order[i] == op;
    k :| 0 <= k < |from| && from[k] == i;
  }

  lemma SpellLine(op: Operation, line: string, entry: string)
    requires IsLogLine(op, line) && entry == "- " + op.created + " \U{2014} "
    ensures op.note.Some? && op.note.value != "" ==> line == entry + op.note.value
    ensures op.note.None? || op.note.value == "" ==>
              && (op.status == Some(Open) ==> line == entry + "status \U{2192} open")
              && (op.status == Some(PickedUp) ==> line == entry + "status \U{2192} picked-up")
              && (op.status == Some(Done) ==> line == entry + "status \U{2192} done")
              && (op.status == Some(Abandoned) ==> line == entry + "status \U{2192} abandoned")
  {
  }

  /** What `updateHandoff` reports: did this update's revision end up in the register it set? */
  datatype Mutation = Mutation(status: Option<bool>, pickedUpBy: Option<bool>, pickedUpSessionId: Option<bool>)

  function Report(ticket: Ticket, registers: Registers): Mutation {
    Mutation(
      if ticket.update.status.None? then None else Some(registers.status == ticket.revision),
      if ticket.update.pickedUpBy.None? then None else Some(registers.pickedUpBy == ticket.revision),
      if ticket.update.pickedUpSessionId.None? then None else Some(registers.pickedUpSessionId == ticket.revision))
  }

  ghost predicate Beaten<T>(locale: Locale, journal: Journal, field: Operation -> Option<T>, revision: string) {
    exists r :: r in journal && field(journal[r]).Some? && Compare(locale, r, revision) > 0
  }

  lemma ReportOfField<T(!new)>(
    locale: Locale, order: seq<Operation>, journal: Journal, field: Operation -> Option<T>, register: Register<T>, out: Register<T>, revision: string)
    requires TotalOrder(locale)
    requires Enumerates(order, journal.Keys, journal) && (forall r | r in journal :: journal[r].revision == r)
    requires LastWriterWins(locale, order, field, register, out)
    requires revision in journal && field(journal[revision]).Some? && revision != "" && register.revision == ""
    ensures out.revision == revision <==> !Beaten(locale, journal, field, revision)
  {
    CompareIsTotalOrder(locale, revision, "", "");
    OwnerIff(locale, order, field, register, out, journal[revision]);
    if Beaten(locale, journal, field, revision) {
      var r :| r in journal && field(journal[r]).Some? && Compare(locale, r, revision) > 0;
      assert journal[r] in order;
    }
  }

  lemma StatusReport(locale: Locale, creation: Document, order: seq<Operation>, journal: Journal, revision: string)
    requires TotalOrder(locale) && creation.registers.status == "" && revision != ""
    requires Enumerates(order, journal.Keys, journal) && (forall r | r in journal :: journal[r].revision == r)
    requires revision in journal && journal[revision].status.Some?
    ensures Fold(locale, creation, order).registers.status == revision <==> !Beaten(locale, journal, StatusSet, revision)
  {
    FoldMeaning(locale, creation, order);
    ReportOfField(locale, order, journal, StatusSet, StatusRegister(creation), StatusRegister(Fold(locale, creation, order)), revision);
  }

  lemma AgentReport(locale: Locale, creation: Document, order: seq<Operation>, journal: Journal, revision: string)
    requires TotalOrder(locale) && creation.registers.pickedUpBy == "" && revision != ""
    requires Enumerates(order, journal.Keys, journal) && (forall r | r in journal :: journal[r].revision == r)
    requires revision in journal && journal[revision].pickedUpBy.Some?
    ensures Fold(locale, creation, order).registers.pickedUpBy == revision <==> !Beaten(locale, journal, AgentSet, revision)
  {
    FoldMeaning(locale, creation, order);
    ReportOfField(locale, order, journal, AgentSet, AgentRegister(creation), AgentRegister(Fold(locale, creation, order)), revision);
  }

  lemma SessionReport(locale: Locale, creation: Document, order: seq<Operation>, journal: Journal, revision: string)
    requires TotalOrder(locale) && creation.registers.pickedUpSessionId == "" && revision != ""
    requires Enumerates(order, journal.Keys, journal) && (forall r | r in journal :: journal[r].revision == r)
    requires revision in journal && journal[revision].pickedUpSessionId.Some?
    ensures Fold(locale, creation, order).registers.pickedUpSessionId == revision <==> !Beaten(locale, journal, SessionSet, revision)
  {
    FoldMeaning(locale, creation, order);
    ReportOfField(locale, order, journal, SessionSet, SessionRegister(creation), SessionRegister(Fold(locale, creation, order)), revision);
  }

  /** An update is reported to have won a field exactly when no listed operation with a greater revision sets it. */
  lemma ReportIsExact(locale: Locale, creation: Document, worlds: seq<World>, moves: seq<Move>, pid: nat)
    requires TotalOrder(locale) && IsRun(locale, creation, worlds, moves)
    requires pid in worlds[|moves|].processes && worlds[|moves|].processes[pid].Finished?
    requires worlds[|moves|].processes[pid].purpose.AfterUpdate?
    ensures var p := worlds[|moves|].processes[pid]; var t := p.purpose.ticket; var m := Report(t, p.result.registers);
            && t.revision in p.listed
            && (t.update.status.None? ==> m.status.None?) && (t.update.pickedUpBy.None? ==> m.pickedUpBy.None?)
            && (t.update.pickedUpSessionId.None? ==> m.pickedUpSessionId.None?)
            && (t.update.status.Some? ==> m.status == Some(!Beaten(locale, p.listed, StatusSet, t.revision)))
            && (t.update.pickedUpBy.Some? ==> m.pickedUpBy == Some(!Beaten(locale, p.listed, AgentSet, t.revision)))
            && (t.update.pickedUpSessionId.Some? ==> m.pickedUpSessionId == Some(!Beaten(locale, p.listed, SessionSet, t.revision)))
  {
    RunKeepsInv(locale, creation, worlds, moves);
    assert creation.registers == Registers("", "", "");
    var p := worlds[|moves|].processes[pid];
    ReportOfProcess(locale, creation, p, worlds[|moves|].disk);
  }

  lemma ReportOfProcess(locale: Locale, creation: Document, p: Process, disk: Disk)
    requires TotalOrder(locale) && creation.registers == Registers("", "", "")
    requires GoodJournal(disk) && p.Finished? && p.purpose.AfterUpdate? && GoodProcess(locale, creation, p, disk)
    ensures var t := p.purpose.ticket; var m := Report(t, p.result.registers);
            && t.revision in p.listed
            && (t.update.status.None? ==> m.status.None?) && (t.update.pickedUpBy.None? ==> m.pickedUpBy.None?)
            && (t.update.pickedUpSessionId.None? ==> m.pickedUpSessionId.None?)
            && (t.update.status.Some? ==> m.status == Some(!Beaten(locale, p.listed, StatusSet, t.revision)))
            && (t.update.pickedUpBy.Some? ==> m.pickedUpBy == Some(!Beaten(locale, p.listed, AgentSet, t.revision)))
            && (t.update.pickedUpSessionId.Some? ==> m.pickedUpSessionId == Some(!Beaten(locale, p.listed, SessionSet, t.revision)))
  {
    var t := p.purpose.ticket;
    var order :| IsFoldOf(locale, creation, order, p.listed.Keys, p.listed, p.result);
    assert forall r | r in p.listed :: p.listed[r].revision == r;
    if t.update.status.Some? {
      StatusReport(locale, creation, order, p.listed, t.revision);
    }
    if t.update.pickedUpBy.Some? {
      AgentReport(locale, creation, order, p.listed, t.revision);
    }
    if t.update.pickedUpSessionId.Some? {
      SessionReport(locale, creation, order, p.listed, t.revision);
    }
  }
}
