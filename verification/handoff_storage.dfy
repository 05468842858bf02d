/**
 The journal treats the base file as the document it parses to. That is exact:
 along every run whose inputs print cleanly, the text of each base on disk is
 read back as that base.
 */
module HandoffStorage {
  import opened Text
  import opened Quoting
  import opened Revisions
  import opened HandoffFold
  import opened HandoffJournal
  import opened Frontmatter
  import Decimal

  /** With `values`, the operation's values print cleanly too, not just its revision. */
  predicate CleanOperation(op: Operation, values: bool) {
    CleanRevision(op.revision) && (values ==> Clean(op.created) && CleanOption(op.pickedUpSessionId))
  }

  predicate CleanUpdate(update: Update, values: bool) {
    values ==> CleanOption(update.pickedUpSessionId)
  }

  /** A UUID, say. */
  predicate CleanSuffix(suffix: string) {
    Clean(suffix) && ',' !in suffix && !IsSpace(suffix[|suffix| - 1])
  }

  predicate CleanChoice(choice: Choice, values: bool) {
    && (choice.StartUpdate? ==> CleanUpdate(choice.update, values))
    && (choice.Create? ==> CleanSuffix(choice.suffix))
    && (choice.Rename? && values ==> Clean(choice.created))
  }

  predicate CleanProcess(p: Process, values: bool) {
    && (p.ReserveBase? || p.ReserveOperations? || p.ReserveClaims? || p.Claiming? ==> CleanUpdate(p.update, values))
    && (TicketOf(p).Some? ==> CleanUpdate(TicketOf(p).value.update, values) && CleanRevision(TicketOf(p).value.revision))
  }

  ghost predicate CleanWorld(w: World, values: bool) {
    && (forall r | r in w.disk.journal :: CleanOperation(w.disk.journal[r], values))
    && (forall pid | pid in w.processes :: CleanProcess(w.processes[pid], values))
  }

  lemma {:induction false} TrimsToItself(s: string)
    requires s != "" && !IsSpace(s[0]) && !IsSpace(s[|s| - 1])
    ensures Trim(s) == s
  {
  }

  lemma ReservedIsClean(counter: nat, suffix: string)
    requires CleanSuffix(suffix)
    ensures CleanRevision(RevisionFor(counter, suffix))
  {
    var digits := Decimal.Pad(Decimal.Print(counter), WIDTH);
    var revision := RevisionFor(counter, suffix);
    assert revision == "v2-" + digits + ("-" + suffix);
    assert forall i | 0 <= i < |digits| :: IsDigit(digits[i]);
    assert revision[0] == 'v' && revision[|revision| - 1] == suffix[|suffix| - 1];
    TrimsToItself(revision);
  }

  lemma ClaimStaysClean(locale: Locale, p: Process, disk: Disk, choice: Choice, p': Process, disk': Disk, values: bool)
    requires CleanProcess(p, values) && CleanChoice(choice, values) && p.Claiming?
    requires Step(locale, p, disk, choice) == Some((p', disk'))
    ensures CleanProcess(p', values) && disk'.journal == disk.journal
  {
    if choice.Create? {
      ReservedIsClean(p.counter + 1, choice.suffix);
    }
  }

  lemma OtherStepStaysClean(locale: Locale, p: Process, disk: Disk, choice: Choice, p': Process, disk': Disk, values: bool)
    requires CleanProcess(p, values) && CleanChoice(choice, values) && !p.Claiming?
    requires Step(locale, p, disk, choice) == Some((p', disk'))
    ensures CleanProcess(p', values)
    ensures disk'.journal == disk.journal
            || exists op :: CleanOperation(op, values) && disk'.journal == disk.journal[op.revision := op]
  {
    if p.Publishing? && choice.Rename? {
      assert CleanOperation(OperationFor(p.ticket.update, p.ticket.revision, choice.created), values);
    }
  }

  lemma StepStaysClean(locale: Locale, w: World, move: Move, w': World, values: bool)
    requires CleanWorld(w, values) && CleanChoice(move.choice, values)
    requires Perform(locale, w, move) == Some(w')
    ensures CleanWorld(w', values)
  {
    var p := w.processes[move.pid];
    if p.Claiming? {
      ClaimStaysClean(locale, p, w.disk, move.choice, w'.processes[move.pid], w'.disk, values);
    } else {
      OtherStepStaysClean(locale, p, w.disk, move.choice, w'.processes[move.pid], w'.disk, values);
    }
  }

  lemma {:induction false} RunStaysClean(locale: Locale, creation: Document, worlds: seq<World>, moves: seq<Move>, values: bool)
    requires IsRun(locale, creation, worlds, moves)
    requires forall i | 0 <= i < |moves| :: CleanChoice(moves[i].choice, values)
    ensures CleanWorld(worlds[|moves|], values)
  {
    if moves != [] {
      var n := |moves| - 1;
      PrefixIsRun(locale, creation, worlds, moves, n);
      RunStaysClean(locale, creation, worlds[..n + 1], moves[..n], values);
      StepStaysClean(locale, worlds[n], moves[n], worlds[n + 1], values);
    }
  }

  lemma {:induction false} FoldStaysStorable(locale: Locale, doc: Document, ops: seq<Operation>)
    requires Storable(doc)
    requires forall i | 0 <= i < |ops| :: CleanOperation(ops[i], true)
    ensures Storable(Fold(locale, doc, ops))
  {
    if ops != [] {
      FoldStaysStorable(locale, doc, ops[..|ops| - 1]);
    }
  }

  /**
   Whatever was compacted when, the base file's text parses value by value, and to
   the base the journal reasons about exactly when that base's values survive.
   */
  lemma BasesReadBack(locale: Locale, creation: Document, worlds: seq<World>, moves: seq<Move>, name: string, revisions: seq<string>)
    requires IsRun(locale, creation, worlds, moves)
    requires forall i | 0 <= i < |moves| && moves[i].choice.Create? :: CleanSuffix(moves[i].choice.suffix)
    requires worlds[|moves|].disk.base.folded == set r | r in revisions
    ensures var base := worlds[|moves|].disk.base;
            var back := ReadBaseDocument(name, FileText(AllEntries(base.doc, revisions), base.doc.handoff.body));
            && back == Some(Base(ReadBack(name, base.doc), base.folded))
            && (back == Some(base) <==> Survives(name, base.doc))
  {
    var disk := worlds[|moves|].disk;
    RunStaysClean(locale, creation, worlds, moves, false);
    RunKeepsInv(locale, creation, worlds, moves);
    forall i | 0 <= i < |revisions| ensures CleanRevision(revisions[i]) {
      assert revisions[i] in disk.base.folded;
      assert CleanOperation(disk.journal[revisions[i]], false);
    }
    BaseReadsBack(name, disk.base, revisions);
    BaseRoundTripIff(name, disk.base, revisions);
  }

  /** With a storable creation and clean inputs the values of every base survive. */
  lemma CleanRunsSurvive(locale: Locale, creation: Document, worlds: seq<World>, moves: seq<Move>, name: string)
    requires IsRun(locale, creation, worlds, moves)
    requires Storable(creation)
    requires forall i | 0 <= i < |moves| :: CleanChoice(moves[i].choice, true)
    ensures Survives(name, worlds[|moves|].disk.base.doc)
  {
    var disk := worlds[|moves|].disk;
    var order := BaseCarriesItsRevisions(locale, creation, worlds, moves);
    RunStaysClean(locale, creation, worlds, moves, true);
    forall i | 0 <= i < |order| ensures CleanOperation(order[i], true) {
      assert order[i] in order;
    }
    FoldStaysStorable(locale, creation, order);
  }
}
