/**
 * The migration run: repair the ledger's timestamps, apply what beats the high-water
 * mark, assert completeness; all of it under one advisory lock.
 */
module Migrations {
  import opened Wrappers

  datatype Entry = Entry(tag: string, hash: string, when: int)
  datatype Row = Row(hash: string, createdAt: int)

  /**
   * The ledger table, and the log of journal positions whose SQL has run against this
   * database, in order. The program keeps no such log; it is what the ledger stands for.
   */
  datatype Ledger = Ledger(present: bool, rows: seq<Row>, ran: seq<nat>)

  datatype Outcome = Finished(drifted: seq<string>) | Skipped(missing: seq<string>)

  /** Positions lo, lo + 1, …, hi - 1. */
  function Span(lo: nat, hi: nat): seq<nat>
    requires lo <= hi
  {
    seq(hi - lo, i requires 0 <= i => lo + i)
  }

  function Times(rows: seq<Row>): seq<int> {
    seq(|rows|, i requires 0 <= i < |rows| => rows[i].createdAt)
  }

  function Whens(journal: seq<Entry>): seq<int> {
    seq(|journal|, i requires 0 <= i < |journal| => journal[i].when)
  }

  /** The single highest timestamp: the mark below which everything counts as applied. */
  function Highest(times: seq<int>): (mark: Option<int>)
    ensures mark.None? <==> times == []
    ensures mark.Some? ==> mark.value in times && forall t <- times :: t <= mark.value
  {
    if times == [] then None
    else
      var last := times[|times| - 1];
      assert times == times[..|times| - 1] + [last];
      match Highest(times[..|times| - 1])
      case None => Some(last)
      case Some(best) => Some(if last > best then last else best)
  }

  predicate Beats(when: int, mark: Option<int>) {
    mark.None? || mark.value < when
  }

  /** The first `upTo` journal positions that beat the mark, in journal order. */
  function Outstanding(journal: seq<Entry>, mark: Option<int>, upTo: nat): (positions: seq<nat>)
    requires upTo <= |journal|
    ensures forall i :: 0 <= i < |positions| ==> positions[i] < upTo
  {
    if upTo == 0 then []
    else Outstanding(journal, mark, upTo - 1) + if Beats(journal[upTo - 1].when, mark) then [upTo - 1] else []
  }

  function Rows(journal: seq<Entry>, positions: seq<nat>): seq<Row>
    requires forall i :: 0 <= i < |positions| ==> positions[i] < |journal|
  {
    seq(|positions|, i requires 0 <= i < |positions| =>
      Row(journal[positions[i]].hash, journal[positions[i]].when))
  }

  /** The first `upTo` rows re-stamped with the timestamps of the entries at their positions. */
  function Restamped(journal: seq<Entry>, rows: seq<Row>, upTo: nat): seq<Row>
    requires upTo <= |rows| <= |journal|
  {
    seq(|rows|, i requires 0 <= i < |rows| => if i < upTo then rows[i].(createdAt := journal[i].when) else rows[i])
  }

  function Repaired(journal: seq<Entry>, db: Ledger): Ledger {
    if !db.present || |db.rows| > |journal| then db
    else db.(rows := Restamped(journal, db.rows, |db.rows|))
  }

  function Applied(journal: seq<Entry>, db: Ledger): Ledger {
    var todo := Outstanding(journal, Highest(Times(db.rows)), |journal|);
    Ledger(true, db.rows + Rows(journal, todo), db.ran + todo)
  }

  predicate FullyApplied(journal: seq<Entry>, db: Ledger) {
    |db.rows| >= |journal|
  }

  /** One whole run, as the next holder of the lock finds it. */
  function Attempt(journal: seq<Entry>, db: Ledger): Ledger {
    Applied(journal, Repaired(journal, db))
  }

  /** A ledger no longer than the journal whose nth row stands for the nth entry, stamped anyhow. */
  predicate Faithful(journal: seq<Entry>, db: Ledger) {
    && (db.present || db.rows == [])
    && |db.rows| <= |journal|
    && db.ran == Span(0, |db.rows|)
  }

  predicate Repeats(ran: seq<nat>) {
    exists i, j :: 0 <= i < j < |ran| && ran[i] == ran[j]
  }

  /** What the mark is once the first `n` rows carry their entries' timestamps. */
  function MarkAt(journal: seq<Entry>, n: nat): Option<int>
    requires n <= |journal|
  {
    Highest(Whens(journal)[..n])
  }

  /** Every missing entry is later than every recorded one. */
  predicate Reachable(journal: seq<Entry>, n: nat)
    requires n <= |journal|
  {
    forall i :: n <= i < |journal| ==> Beats(journal[i].when, MarkAt(journal, n))
  }

  /** How many rows the ledger has after one run over `n` recorded entries. */
  function LengthAfter(journal: seq<Entry>, n: nat): nat
    requires n <= |journal|
  {
    n + |Outstanding(journal, MarkAt(journal, n), |journal|)|
  }

  predicate Increasing(journal: seq<Entry>) {
    forall i, j :: 0 <= i < j < |journal| ==> journal[i].when < journal[j].when
  }

  /**
   * When a second run adds nothing: either the first one finished the journal, or no
   * entry beats the mark that pairing the rows by position gives the second one.
   */
  predicate SafeToRetry(journal: seq<Entry>, n: nat)
    requires n <= |journal|
  {
    || Reachable(journal, n)
    || (LengthAfter(journal, n) <= |journal| &&
        forall i :: 0 <= i < |journal| ==> !Beats(journal[i].when, MarkAt(journal, LengthAfter(journal, n))))
  }

  // ── The positions that beat a mark ─────────────────────────────────────────

  lemma {:induction false} OutstandingExact(journal: seq<Entry>, mark: Option<int>, upTo: nat)
    requires upTo <= |journal|
    ensures forall p :: p in Outstanding(journal, mark, upTo) <==> 0 <= p < upTo && Beats(journal[p].when, mark)
  {
    if upTo > 0 {
      OutstandingExact(journal, mark, upTo - 1);
    }
  }

  lemma {:induction false} OutstandingOnce(journal: seq<Entry>, mark: Option<int>, upTo: nat)
    requires upTo <= |journal|
    ensures !Repeats(Outstanding(journal, mark, upTo))
  {
    if upTo > 0 {
      OutstandingOnce(journal, mark, upTo - 1);
    }
  }

  lemma {:induction false} NoneOutstanding(journal: seq<Entry>, mark: Option<int>, upTo: nat)
    requires upTo <= |journal| && forall i :: 0 <= i < upTo ==> !Beats(journal[i].when, mark)
    ensures Outstanding(journal, mark, upTo) == []
  {
    if upTo > 0 {
      NoneOutstanding(journal, mark, upTo - 1);
    }
  }

  /** If nothing below `n` beats the mark, what does is at most the rest, and exactly the rest when all of it does. */
  lemma {:induction false} OutstandingSuffix(journal: seq<Entry>, mark: Option<int>, n: nat, upTo: nat)
    requires n <= upTo <= |journal|
    requires forall i :: 0 <= i < n ==> !Beats(journal[i].when, mark)
    ensures |Outstanding(journal, mark, upTo)| <= upTo - n
    ensures |Outstanding(journal, mark, upTo)| == upTo - n <==>
              forall i :: n <= i < upTo ==> Beats(journal[i].when, mark)
    ensures |Outstanding(journal, mark, upTo)| == upTo - n ==> Outstanding(journal, mark, upTo) == Span(n, upTo)
  {
    if upTo == n {
      NoneOutstanding(journal, mark, n);
    } else {
      OutstandingSuffix(journal, mark, n, upTo - 1);
      if forall i :: n <= i < upTo - 1 ==> Beats(journal[i].when, mark) {
        assert Span(n, upTo) == Span(n, upTo - 1) + [upTo - 1];
      }
    }
  }

  /** The entries already recorded never beat their own mark. */
  lemma RecordedBelowMark(journal: seq<Entry>, n: nat)
    requires n <= |journal|
    ensures forall i :: 0 <= i < n ==> !Beats(journal[i].when, MarkAt(journal, n))
    ensures LengthAfter(journal, n) <= |journal|
    ensures LengthAfter(journal, n) == |journal| <==> Reachable(journal, n)
    ensures Reachable(journal, n) ==> Outstanding(journal, MarkAt(journal, n), |journal|) == Span(n, |journal|)
  {
    var recorded := Whens(journal)[..n];
    assert forall i :: 0 <= i < n ==> recorded[i] == journal[i].when && recorded[i] in recorded;
    OutstandingSuffix(journal, MarkAt(journal, n), n, |journal|);
  }

  // ── One run ────────────────────────────────────────────────────────────────

  /** Repair makes the mark the one the journal gives, whatever the timestamps were. */
  lemma RepairSetsMark(journal: seq<Entry>, db: Ledger)
    requires (db.present || db.rows == []) && |db.rows| <= |journal|
    ensures var r := Repaired(journal, db);
            && |r.rows| == |db.rows| && r.ran == db.ran
            && Times(r.rows) == Whens(journal)[..|db.rows|]
            && (forall i :: 0 <= i < |db.rows| ==> r.rows[i].hash == db.rows[i].hash)
            && Repaired(journal, r) == r
  {
  }

  /** What a run over `n` recorded entries runs, and how long it leaves the ledger. */
  lemma AttemptRuns(journal: seq<Entry>, db: Ledger)
    requires (db.present || db.rows == []) && |db.rows| <= |journal|
    ensures var todo := Outstanding(journal, MarkAt(journal, |db.rows|), |journal|);
            && Attempt(journal, db).ran == db.ran + todo
            && |Attempt(journal, db).rows| == |db.rows| + |todo|
            && (todo == [] && db.present ==> Attempt(journal, db) == Repaired(journal, db))
  {
    RepairSetsMark(journal, db);
  }

  lemma SpanDisjoint(n: nat, todo: seq<nat>)
    requires !Repeats(todo) && forall i :: 0 <= i < |todo| ==> n <= todo[i]
    ensures !Repeats(Span(0, n) + todo)
  {
  }

  /** The entries a first run adds are all missing ones, each once. */
  lemma {:induction false} FirstRunRepeatsNothing(journal: seq<Entry>, n: nat)
    requires n <= |journal|
    ensures !Repeats(Span(0, n) + Outstanding(journal, MarkAt(journal, n), |journal|))
  {
    var todo := Outstanding(journal, MarkAt(journal, n), |journal|);
    OutstandingExact(journal, MarkAt(journal, n), |journal|);
    OutstandingOnce(journal, MarkAt(journal, n), |journal|);
    RecordedBelowMark(journal, n);
    forall i | 0 <= i < |todo|
      ensures n <= todo[i]
    {
      assert todo[i] in todo;
    }
    SpanDisjoint(n, todo);
  }

  /**
   * The first run, for any journal at all: it adds exactly the missing entries that beat
   * every recorded one, runs nothing twice, and returns normally exactly when it ran
   * everything that was missing, in order.
   */
  lemma FirstRun(journal: seq<Entry>, db: Ledger)
    requires Faithful(journal, db)
    ensures var n, after := |db.rows|, Attempt(journal, db);
            && after.present
            && |after.rows| == LengthAfter(journal, n)
            && after.ran == Span(0, n) + Outstanding(journal, MarkAt(journal, n), |journal|)
            && !Repeats(after.ran)
            && (FullyApplied(journal, after) <==> Reachable(journal, n))
            && (FullyApplied(journal, after) ==> after.ran == Span(0, |journal|))
  {
    var n := |db.rows|;
    AttemptRuns(journal, db);
    FirstRunRepeatsNothing(journal, n);
    CompleteIff(journal, n);
  }

  lemma LengthIff(journal: seq<Entry>, n: nat)
    requires n <= |journal|
    ensures LengthAfter(journal, n) <= |journal|
    ensures LengthAfter(journal, n) == |journal| <==> Reachable(journal, n)
  {
    RecordedBelowMark(journal, n);
  }

  lemma CompleteIff(journal: seq<Entry>, n: nat)
    requires n <= |journal|
    ensures LengthAfter(journal, n) <= |journal|
    ensures LengthAfter(journal, n) == |journal| <==> Reachable(journal, n)
    ensures Reachable(journal, n) ==>
              Span(0, n) + Outstanding(journal, MarkAt(journal, n), |journal|) == Span(0, |journal|)
  {
    RecordedBelowMark(journal, n);
    SpansJoin(n, |journal|);
  }

  lemma SpansJoin(n: nat, length: nat)
    requires n <= length
    ensures Span(0, n) + Span(n, length) == Span(0, length)
  {
  }

  lemma StampsJoin(journal: seq<Entry>, n: nat, rows: seq<Row>)
    requires n == |rows| <= |journal| && Times(rows) == Whens(journal)[..n]
    ensures var all := rows + Rows(journal, Span(n, |journal|));
            && Times(all) == Whens(journal)
            && forall i :: n <= i < |journal| ==> all[i].hash == journal[i].hash
  {
  }

  /** A normal return leaves the ledger matching the journal entry by entry; recorded hashes are never rewritten. */
  lemma NormalReturnMatches(journal: seq<Entry>, db: Ledger)
    requires Faithful(journal, db) && FullyApplied(journal, Attempt(journal, db))
    ensures var n, after := |db.rows|, Attempt(journal, db);
            && Times(after.rows) == Whens(journal)
            && (forall i :: 0 <= i < n ==> after.rows[i].hash == db.rows[i].hash)
            && forall i :: n <= i < |journal| ==> after.rows[i].hash == journal[i].hash
  {
    var n, repaired, after := |db.rows|, Repaired(journal, db), Attempt(journal, db);
    FirstRun(journal, db);
    assert Outstanding(journal, MarkAt(journal, n), |journal|) == Span(n, |journal|) by {
      RecordedBelowMark(journal, n);
    }
    RepairSetsMark(journal, db);
    StampsJoin(journal, n, repaired.rows);
  }

  /** With strictly increasing timestamps nothing is ever stranded. */
  lemma IncreasingReachesAll(journal: seq<Entry>, n: nat)
    requires n <= |journal| && Increasing(journal)
    ensures Reachable(journal, n) && SafeToRetry(journal, n)
  {
  }

  lemma MarkGrows(journal: seq<Entry>, n: nat, longer: nat, when: int)
    requires n <= longer <= |journal|
    ensures Beats(when, MarkAt(journal, longer)) ==> Beats(when, MarkAt(journal, n))
  {
    assert Whens(journal)[..n] == Whens(journal)[..longer][..n];
    assert forall t :: t in Whens(journal)[..n] ==> t in Whens(journal)[..longer];
  }

  lemma NothingOutstandingIff(journal: seq<Entry>, mark: Option<int>)
    ensures (Outstanding(journal, mark, |journal|) == [])
              <==> (forall i :: 0 <= i < |journal| ==> !Beats(journal[i].when, mark))
  {
    OutstandingExact(journal, mark, |journal|);
    if forall i :: 0 <= i < |journal| ==> !Beats(journal[i].when, mark) {
      NoneOutstanding(journal, mark, |journal|);
    }
  }

  /** A second run is safe exactly when it would find nothing to run. */
  lemma {:induction false} SafeIffNothingLeft(journal: seq<Entry>, n: nat)
    requires n <= |journal|
    ensures LengthAfter(journal, n) <= |journal|
    ensures SafeToRetry(journal, n) <==> Outstanding(journal, MarkAt(journal, LengthAfter(journal, n)), |journal|) == []
  {
    LengthIff(journal, n);
    if Reachable(journal, n) {
      RecordedBelowMark(journal, |journal|);
    }
    NothingOutstandingIff(journal, MarkAt(journal, LengthAfter(journal, n)));
  }

  /** Once a run has returned normally, every later one leaves the ledger exactly as it found it. */
  lemma LaterRunsDoNothing(journal: seq<Entry>, db: Ledger)
    requires Faithful(journal, db) && FullyApplied(journal, Attempt(journal, db))
    ensures Attempt(journal, Attempt(journal, db)) == Attempt(journal, db)
  {
    var n, once := |db.rows|, Attempt(journal, db);
    FirstRun(journal, db);
    SafeIffNothingLeft(journal, n);
    AttemptRuns(journal, once);
    NormalReturnMatches(journal, db);
    var again := Repaired(journal, once);
    forall i | 0 <= i < |journal|
      ensures again.rows[i] == once.rows[i]
    {
      assert Times(once.rows)[i] == Whens(journal)[i];
    }
  }

  /** Whatever a second run would run, the first one has run. */
  lemma {:induction false} SecondRunRepeats(journal: seq<Entry>, n: nat, longer: nat, p: nat)
    requires n <= longer <= |journal| && p in Outstanding(journal, MarkAt(journal, longer), |journal|)
    ensures p in Outstanding(journal, MarkAt(journal, n), |journal|)
  {
    OutstandingExact(journal, MarkAt(journal, longer), |journal|);
    OutstandingExact(journal, MarkAt(journal, n), |journal|);
    MarkGrows(journal, n, longer, journal[p].when);
  }

  /**
   * The recovery can run a migration twice and then report success with another one
   * never run: rows are paired by position, and after a run that skipped an entry the
   * nth row is no longer the nth entry.
   */
  lemma SkippedEntryNeverRuns()
    ensures var journal := [Entry("a", "A", 10), Entry("b", "B", 5), Entry("c", "C", 20)];
            var start := Ledger(true, [Row("A", 10)], [0]);
            && Faithful(journal, start)
            && !FullyApplied(journal, Attempt(journal, start))
            && FullyApplied(journal, Attempt(journal, Attempt(journal, start)))
            && Attempt(journal, Attempt(journal, start)).ran == [0, 2, 2]
  {
    var journal := [Entry("a", "A", 10), Entry("b", "B", 5), Entry("c", "C", 20)];
    var start := Ledger(true, [Row("A", 10)], [0]);
    assert Times(Repaired(journal, start).rows) == [10];
    assert Highest([10]) == Some(10);
    assert Outstanding(journal, Some(10), 1) == [];
    assert Outstanding(journal, Some(10), 2) == [];
    assert Outstanding(journal, Some(10), 3) == [2];
    var once := Attempt(journal, start);
    assert once == Ledger(true, [Row("A", 10), Row("C", 20)], [0, 2]);
    assert Times(Repaired(journal, once).rows) == [10, 5];
    assert [10, 5][..1] == [10];
    assert Highest([10, 5]) == Some(10);
  }

  // ── Any number of workers under the lock ───────────────────────────────────

  datatype Pc = Waiting | Locked | Reconciled | Migrated | Returned | Threw | Gone

  datatype System = System(db: Ledger, holder: Option<nat>, pcs: seq<Pc>)

  /** A crash drops the connection, and with it the lock; a run's migrations are one transaction. */
  datatype Step =
    | TakeLock(w: nat)
    | Reconcile(w: nat)
    | Migrate(w: nat)
    | Assert(w: nat)
    | Crash(w: nat, rewritten: nat)

  predicate Enabled(s: System, step: Step) {
    && step.w < |s.pcs|
    && match step
       case TakeLock(w) => s.pcs[w] == Waiting && s.holder == None
       case Reconcile(w) => s.pcs[w] == Locked
       case Migrate(w) => s.pcs[w] == Reconciled
       case Assert(w) => s.pcs[w] == Migrated
       case Crash(w, rewritten) => s.pcs[w] in {Locked, Reconciled, Migrated} && rewritten <= |s.db.rows|
  }

  function Next(journal: seq<Entry>, s: System, step: Step): System {
    if !Enabled(s, step) then s
    else
      match step
      case TakeLock(w) => s.(holder := Some(w), pcs := s.pcs[w := Locked])
      case Reconcile(w) => s.(db := Repaired(journal, s.db), pcs := s.pcs[w := Reconciled])
      case Migrate(w) => s.(db := Applied(journal, s.db), pcs := s.pcs[w := Migrated])
      case Assert(w) =>
        s.(holder := None, pcs := s.pcs[w := if FullyApplied(journal, s.db) then Returned else Threw])
      case Crash(w, rewritten) =>
        var db := if s.pcs[w] == Locked && s.db.present && |s.db.rows| <= |journal|
                  then s.db.(rows := Restamped(journal, s.db.rows, rewritten)) else s.db;
        s.(db := db, holder := None, pcs := s.pcs[w := Gone])
  }

  function Run(journal: seq<Entry>, s: System, steps: seq<Step>): System {
    if steps == [] then s else Next(journal, Run(journal, s, steps[..|steps| - 1]), steps[|steps| - 1])
  }

  function Workers(db: Ledger, count: nat): System {
    System(db, None, seq(count, _ => Waiting))
  }

  /** A worker that crashes lets go of the lock; one that had not finished the repair leaves the rows it had come to re-stamped. */
  lemma CrashLeaves(journal: seq<Entry>, s: System, w: nat, rewritten: nat)
    requires Enabled(s, Crash(w, rewritten))
    ensures var after := Next(journal, s, Crash(w, rewritten));
            && after.holder.None? && after.pcs == s.pcs[w := Gone]
            && after.db == s.db.(rows := after.db.rows) && |after.db.rows| == |s.db.rows|
            && forall i :: 0 <= i < |s.db.rows| ==>
                 after.db.rows[i] == if s.pcs[w] == Locked && s.db.present && |s.db.rows| <= |journal| && i < rewritten
                                     then Row(s.db.rows[i].hash, journal[i].when) else s.db.rows[i]
  {
  }

  predicate InSection(pc: Pc) {
    pc in {Locked, Reconciled, Migrated}
  }

  /** Everything the ledger can be: as it started, or as the one effective run left it. */
  predicate LedgerInv(journal: seq<Entry>, n: nat, db: Ledger)
    requires n <= |journal|
  {
    && (db.present || db.rows == [])
    && ((db.ran == Span(0, n) && |db.rows| == n)
        || (&& db.ran == Span(0, n) + Outstanding(journal, MarkAt(journal, n), |journal|)
            && |db.rows| == LengthAfter(journal, n)))
  }

  predicate Inv(journal: seq<Entry>, n: nat, s: System)
    requires n <= |journal|
  {
    && LedgerInv(journal, n, s.db)
    && |s.db.rows| <= |journal|
    && (forall w :: 0 <= w < |s.pcs| && InSection(s.pcs[w]) ==> s.holder == Some(w))
    && (forall w :: 0 <= w < |s.pcs| && s.pcs[w] == Reconciled ==>
          Times(s.db.rows) == Whens(journal)[..|s.db.rows|])
    && (forall w :: 0 <= w < |s.pcs| && s.pcs[w] == Returned ==> |s.db.rows| == |journal|)
    && (forall w :: 0 <= w < |s.pcs| && s.pcs[w] == Migrated ==> |s.db.rows| == LengthAfter(journal, n))
    && (forall w :: 0 <= w < |s.pcs| && s.pcs[w] == Threw ==> !Reachable(journal, n))
  }

  /** The transaction of a worker that has just repaired the ledger. */
  lemma MigrateKeeps(journal: seq<Entry>, n: nat, db: Ledger)
    requires n <= |journal| && SafeToRetry(journal, n)
    requires LedgerInv(journal, n, db) && |db.rows| <= |journal| && Times(db.rows) == Whens(journal)[..|db.rows|]
    ensures LedgerInv(journal, n, Applied(journal, db))
    ensures |Applied(journal, db).rows| == LengthAfter(journal, n) <= |journal|
  {
    SafeIffNothingLeft(journal, n);
    if |db.rows| == n && db.ran == Span(0, n) {
    } else {
      var after := Applied(journal, db);
      assert after.rows == db.rows && after.ran == db.ran;
    }
  }

  lemma ReconcileKeeps(journal: seq<Entry>, n: nat, s: System, w: nat)
    requires n <= |journal| && Inv(journal, n, s) && Enabled(s, Reconcile(w))
    ensures Inv(journal, n, Next(journal, s, Reconcile(w)))
  {
  }

  lemma FinishKeeps(journal: seq<Entry>, n: nat, s: System, w: nat)
    requires n <= |journal| && Inv(journal, n, s) && Enabled(s, Assert(w))
    ensures Inv(journal, n, Next(journal, s, Assert(w)))
  {
    LengthIff(journal, n);
  }

  lemma MigrateStepKeeps(journal: seq<Entry>, n: nat, s: System, w: nat)
    requires n <= |journal| && SafeToRetry(journal, n) && Inv(journal, n, s) && Enabled(s, Migrate(w))
    ensures Inv(journal, n, Next(journal, s, Migrate(w)))
  {
    MigrateKeeps(journal, n, s.db);
    LengthIff(journal, n);
  }

  lemma LockStepsKeep(journal: seq<Entry>, n: nat, s: System, step: Step)
    requires n <= |journal| && Inv(journal, n, s) && (step.TakeLock? || step.Crash?)
    ensures Inv(journal, n, Next(journal, s, step))
  {
  }

  lemma NextKeeps(journal: seq<Entry>, n: nat, s: System, step: Step)
    requires n <= |journal| && SafeToRetry(journal, n) && Inv(journal, n, s)
    ensures Inv(journal, n, Next(journal, s, step))
  {
    if Enabled(s, step) {
      match step
      case Reconcile(w) => ReconcileKeeps(journal, n, s, w);
      case Migrate(w) => MigrateStepKeeps(journal, n, s, w);
      case Assert(w) => FinishKeeps(journal, n, s, w);
      case _ => LockStepsKeep(journal, n, s, step);
    }
  }

  lemma {:induction false} RunKeeps(journal: seq<Entry>, n: nat, s: System, steps: seq<Step>)
    requires n <= |journal| && SafeToRetry(journal, n) && Inv(journal, n, s)
    ensures Inv(journal, n, Run(journal, s, steps))
  {
    if steps != [] {
      RunKeeps(journal, n, s, steps[..|steps| - 1]);
      NextKeeps(journal, n, Run(journal, s, steps[..|steps| - 1]), steps[|steps| - 1]);
    }
  }

  /** In every interleaving and after any crashes: nothing twice, and a normal return means everything once. */
  lemma ExactlyOnce(journal: seq<Entry>, start: Ledger, count: nat, steps: seq<Step>)
    requires Faithful(journal, start) && SafeToRetry(journal, |start.rows|)
    ensures var s := Run(journal, Workers(start, count), steps);
            && !Repeats(s.db.ran)
            && Span(0, |start.rows|) <= s.db.ran
            && (Returned in s.pcs ==> s.db.ran == Span(0, |journal|))
            && (Threw in s.pcs ==> !Reachable(journal, |start.rows|))
  {
    var n := |start.rows|;
    RunKeeps(journal, n, Workers(start, count), steps);
    var s := Run(journal, Workers(start, count), steps);
    FirstRunRepeatsNothing(journal, n);
    if s.db.ran == Span(0, n) {
      SpanDisjoint(n, []);
      assert Span(0, n) + [] == Span(0, n);
    }
    if Returned in s.pcs {
      ReturnedMeansAll(journal, n, s.db);
    }
  }

  lemma ReturnedMeansAll(journal: seq<Entry>, n: nat, db: Ledger)
    requires n <= |journal| && LedgerInv(journal, n, db) && |db.rows| == |journal|
    ensures db.ran == Span(0, |journal|)
  {
    CompleteIff(journal, n);
  }

  /** Strictly increasing timestamps: no worker ever throws, and the missing suffix runs once, in order. */
  lemma IncreasingJournalNeverFails(journal: seq<Entry>, start: Ledger, count: nat, steps: seq<Step>)
    requires Faithful(journal, start) && Increasing(journal)
    ensures var s := Run(journal, Workers(start, count), steps);
            && Threw !in s.pcs
            && s.db.ran in {Span(0, |start.rows|), Span(0, |journal|)}
            && (Returned in s.pcs ==> s.db.ran == Span(0, |journal|))
  {
    var n := |start.rows|;
    IncreasingReachesAll(journal, n);
    ExactlyOnce(journal, start, count, steps);
    RunKeeps(journal, n, Workers(start, count), steps);
    var s := Run(journal, Workers(start, count), steps);
    RecordedBelowMark(journal, n);
    if s.db.ran != Span(0, n) {
      ReturnedMeansAll(journal, n, s.db);
    }
  }

  /** One worker's undisturbed run, as steps. */
  function Alone(w: nat): seq<Step> {
    [TakeLock(w), Reconcile(w), Migrate(w), Assert(w)]
  }

  lemma {:induction false} RunAppend(journal: seq<Entry>, s: System, xs: seq<Step>, ys: seq<Step>)
    ensures Run(journal, s, xs + ys) == Run(journal, Run(journal, s, xs), ys)
  {
    if ys == [] {
      assert xs + ys == xs;
    } else {
      var last := |ys| - 1;
      RunAppend(journal, s, xs, ys[..last]);
      assert (xs + ys)[..|xs + ys| - 1] == xs + ys[..last];
    }
  }

  lemma AloneIsAttempt(journal: seq<Entry>, s: System, w: nat)
    requires w < |s.pcs| && s.pcs[w] == Waiting && s.holder == None
    ensures var after := Run(journal, s, Alone(w));
            && after.db == Attempt(journal, s.db)
            && after.holder == None
            && |after.pcs| == |s.pcs|
            && forall v :: 0 <= v < |s.pcs| && v != w ==> after.pcs[v] == s.pcs[v]
  {
    var steps := Alone(w);
    assert steps[..4] == steps && steps[..3][..2] == steps[..2] && steps[..2][..1] == steps[..1];
    assert steps[..1][..0] == [];
    var s1 := Next(journal, s, steps[0]);
    var s2 := Next(journal, s1, steps[1]);
    var s3 := Next(journal, s2, steps[2]);
    assert Run(journal, s, steps[..0]) == s;
    assert Run(journal, s, steps[..1]) == s1;
    assert Run(journal, s, steps[..2]) == s2;
    assert Run(journal, s, steps[..3]) == s3;
    assert Run(journal, s, steps) == Next(journal, s3, steps[3]);
  }

  lemma RepeatedLater(before: seq<nat>, todo: seq<nat>, again: seq<nat>, p: nat)
    requires p in todo && p in again
    ensures Repeats(before + todo + again)
  {
    var i :| 0 <= i < |todo| && todo[i] == p;
    var j :| 0 <= j < |again| && again[j] == p;
    var ran := before + todo + again;
    assert ran[|before| + i] == p && ran[|before| + |todo| + j] == p;
  }

  /** Two workers, one after the other, when the second is not safe: the same entry runs twice. */
  lemma UnsafeRetryRepeats(journal: seq<Entry>, start: Ledger, count: nat)
    requires Faithful(journal, start) && !SafeToRetry(journal, |start.rows|) && count >= 2
    ensures Repeats(Run(journal, Workers(start, count), Alone(0) + Alone(1)).db.ran)
  {
    var n, s := |start.rows|, Workers(start, count);
    RunAppend(journal, s, Alone(0), Alone(1));
    AloneIsAttempt(journal, s, 0);
    var once := Run(journal, s, Alone(0));
    AloneIsAttempt(journal, once, 1);
    UnsafeAttemptsRepeat(journal, start);
  }

  lemma UnsafeAttemptsRepeat(journal: seq<Entry>, start: Ledger)
    requires Faithful(journal, start) && !SafeToRetry(journal, |start.rows|)
    ensures Repeats(Attempt(journal, Attempt(journal, start)).ran)
  {
    var n, length := |start.rows|, LengthAfter(journal, |start.rows|);
    SafeIffNothingLeft(journal, n);
    FirstRun(journal, start);
    AttemptRuns(journal, Attempt(journal, start));
    var p := Outstanding(journal, MarkAt(journal, length), |journal|)[0];
    SecondRunRepeats(journal, n, length, p);
    RepeatedLater(Span(0, n), Outstanding(journal, MarkAt(journal, n), |journal|),
                  Outstanding(journal, MarkAt(journal, length), |journal|), p);
  }

  ghost predicate NeverRepeats(journal: seq<Entry>, start: Ledger, count: nat) {
    forall steps :: !Repeats(Run(journal, Workers(start, count), steps).db.ran)
  }

  /** Exactly when no interleaving of two or more workers can run an entry twice. */
  lemma ExactlyOnceIff(journal: seq<Entry>, start: Ledger, count: nat)
    requires Faithful(journal, start) && count >= 2
    ensures NeverRepeats(journal, start, count) <==> SafeToRetry(journal, |start.rows|)
  {
    if SafeToRetry(journal, |start.rows|) {
      forall steps: seq<Step>
        ensures !Repeats(Run(journal, Workers(start, count), steps).db.ran)
      {
        ExactlyOnce(journal, start, count, steps);
      }
    } else {
      UnsafeRetryRepeats(journal, start, count);
    }
  }

  // ── Any journal at all ─────────────────────────────────────────────────────

  predicate StampedTo(journal: seq<Entry>, rows: seq<Row>, n: nat)
    requires n <= |journal| && n <= |rows|
  {
    forall i :: 0 <= i < n ==> rows[i].createdAt == journal[i].when
  }

  /** Position p is later than everything recorded at the start, which puts it among the entries missing then. */
  predicate Newcomer(journal: seq<Entry>, n: nat, p: nat)
    requires n <= |journal|
  {
    p < |journal| && Beats(journal[p].when, MarkAt(journal, n))
  }

  /**
   * What the ledger holds after anything has happened: the starting rows under their own
   * hashes, then one row for each later run of a newcomer, under that entry's hash.
   */
  predicate Kept(journal: seq<Entry>, start: Ledger, db: Ledger)
    requires |start.rows| <= |journal|
  {
    var n := |start.rows|;
    && (db.present || db.rows == [])
    && n <= |db.rows| == |db.ran|
    && (forall i :: 0 <= i < n ==> db.ran[i] == i && db.rows[i].hash == start.rows[i].hash)
    && (forall i :: n <= i < |db.ran| ==>
          Newcomer(journal, n, db.ran[i]) && db.rows[i].hash == journal[db.ran[i]].hash)
  }

  /** A worker about to migrate finds the starting rows stamped right, also once repair has stopped touching them. */
  predicate AnyInv(journal: seq<Entry>, start: Ledger, s: System)
    requires |start.rows| <= |journal|
  {
    && Kept(journal, start, s.db)
    && (forall w :: 0 <= w < |s.pcs| && InSection(s.pcs[w]) ==> s.holder == Some(w))
    && (Reconciled in s.pcs || |s.db.rows| > |journal| ==> StampedTo(journal, s.db.rows, |start.rows|))
  }

  /** With the starting rows stamped right, the ledger's mark is no lower than theirs. */
  lemma MarkCoversStart(journal: seq<Entry>, n: nat, rows: seq<Row>, when: int)
    requires n <= |journal| && n <= |rows| && StampedTo(journal, rows, n)
    ensures Beats(when, Highest(Times(rows))) ==> Beats(when, MarkAt(journal, n))
  {
    var recorded := Whens(journal)[..n];
    if MarkAt(journal, n).Some? {
      var i :| 0 <= i < n && recorded[i] == MarkAt(journal, n).value;
      assert Times(rows)[i] == recorded[i] && Times(rows)[i] in Times(rows);
    }
  }

  predicate AllNewcomers(journal: seq<Entry>, n: nat, todo: seq<nat>)
    requires n <= |journal|
  {
    forall k :: 0 <= k < |todo| ==> todo[k] < |journal| && Newcomer(journal, n, todo[k])
  }

  lemma OutstandingAreNewcomers(journal: seq<Entry>, n: nat, rows: seq<Row>)
    requires n <= |journal| && n <= |rows| && StampedTo(journal, rows, n)
    ensures AllNewcomers(journal, n, Outstanding(journal, Highest(Times(rows)), |journal|))
  {
    var mark := Highest(Times(rows));
    var todo := Outstanding(journal, mark, |journal|);
    OutstandingExact(journal, mark, |journal|);
    forall k | 0 <= k < |todo|
      ensures Newcomer(journal, n, todo[k])
    {
      assert todo[k] in todo;
      MarkCoversStart(journal, n, rows, journal[todo[k]].when);
    }
  }

  lemma AppendKeeps(journal: seq<Entry>, start: Ledger, db: Ledger, todo: seq<nat>)
    requires |start.rows| <= |journal| && Kept(journal, start, db)
    requires AllNewcomers(journal, |start.rows|, todo)
    ensures Kept(journal, start, Ledger(true, db.rows + Rows(journal, todo), db.ran + todo))
  {
  }

  lemma ApplyAnyKeeps(journal: seq<Entry>, start: Ledger, db: Ledger)
    requires |start.rows| <= |journal| && Kept(journal, start, db) && StampedTo(journal, db.rows, |start.rows|)
    ensures Kept(journal, start, Applied(journal, db))
    ensures StampedTo(journal, Applied(journal, db).rows, |start.rows|)
  {
    OutstandingAreNewcomers(journal, |start.rows|, db.rows);
    AppendKeeps(journal, start, db, Outstanding(journal, Highest(Times(db.rows)), |journal|));
  }

  lemma RepairAnyKeeps(journal: seq<Entry>, start: Ledger, db: Ledger)
    requires |start.rows| <= |journal| && Kept(journal, start, db)
    requires |db.rows| > |journal| ==> StampedTo(journal, db.rows, |start.rows|)
    ensures Kept(journal, start, Repaired(journal, db))
    ensures StampedTo(journal, Repaired(journal, db).rows, |start.rows|)
  {
  }

  lemma NextAnyKeeps(journal: seq<Entry>, start: Ledger, s: System, step: Step)
    requires |start.rows| <= |journal| && AnyInv(journal, start, s)
    ensures AnyInv(journal, start, Next(journal, s, step))
  {
    if Enabled(s, step) {
      match step
      case Reconcile(w) => RepairAnyKeeps(journal, start, s.db);
      case Migrate(w) => ApplyAnyKeeps(journal, start, s.db);
      case _ =>
    }
  }

  lemma {:induction false} RunAnyKeeps(journal: seq<Entry>, start: Ledger, count: nat, steps: seq<Step>)
    requires Faithful(journal, start)
    ensures AnyInv(journal, start, Run(journal, Workers(start, count), steps))
  {
    if steps != [] {
      RunAnyKeeps(journal, start, count, steps[..|steps| - 1]);
      NextAnyKeeps(journal, start, Run(journal, Workers(start, count), steps[..|steps| - 1]), steps[|steps| - 1]);
    }
  }

  lemma NewcomersAreMissing(journal: seq<Entry>, n: nat, p: nat)
    requires n <= |journal| && Newcomer(journal, n, p)
    ensures n <= p
  {
    RecordedBelowMark(journal, n);
  }

  /**
   * For any journal and any timestamps, in every interleaving and after any crashes: no
   * migration recorded at the start is ever executed again. What has run is the recorded
   * ones, in order, and after them only entries that were missing.
   */
  lemma RecordedNeverRunAgain(journal: seq<Entry>, start: Ledger, count: nat, steps: seq<Step>)
    requires Faithful(journal, start)
    ensures var n, s := |start.rows|, Run(journal, Workers(start, count), steps);
            && |s.db.ran| >= n && s.db.ran[..n] == Span(0, n)
            && forall i :: n <= i < |s.db.ran| ==> n <= s.db.ran[i] < |journal|
  {
    var n, s := |start.rows|, Run(journal, Workers(start, count), steps);
    RunAnyKeeps(journal, start, count, steps);
    forall i | n <= i < |s.db.ran|
      ensures n <= s.db.ran[i] < |journal|
    {
      NewcomersAreMissing(journal, n, s.db.ran[i]);
    }
  }

  /** An entry that does not beat the recorded ones is never executed, by any worker, ever. */
  lemma StrandedEntryNeverRuns(journal: seq<Entry>, start: Ledger, count: nat, steps: seq<Step>, p: nat)
    requires Faithful(journal, start) && |start.rows| <= p < |journal|
    requires !Beats(journal[p].when, MarkAt(journal, |start.rows|))
    ensures p !in Run(journal, Workers(start, count), steps).db.ran
  {
    RunAnyKeeps(journal, start, count, steps);
  }

  /** What the source promises of a normal return: row by row, the ledger is the journal. */
  predicate Matches(journal: seq<Entry>, start: Ledger, db: Ledger)
    requires |start.rows| <= |journal|
  {
    && Times(db.rows) == Whens(journal)
    && db.ran == Span(0, |journal|)
    && (forall i :: 0 <= i < |start.rows| ==> db.rows[i].hash == start.rows[i].hash)
    && forall i :: |start.rows| <= i < |journal| ==> db.rows[i].hash == journal[i].hash
  }

  predicate EverythingRan(journal: seq<Entry>, db: Ledger) {
    forall p :: 0 <= p < |journal| ==> p in db.ran
  }

  /**
   * Exactly when a worker's normal return can be believed, over every run: if every
   * missing entry was later than every recorded one, everything has run once and the
   * ledger matches the journal row by row; if not, some entry has not run.
   */
  lemma NormalReturnHonestIff(journal: seq<Entry>, start: Ledger, count: nat, steps: seq<Step>)
    requires Faithful(journal, start) && Returned in Run(journal, Workers(start, count), steps).pcs
    ensures var db := Run(journal, Workers(start, count), steps).db;
            && (EverythingRan(journal, db) <==> Reachable(journal, |start.rows|))
            && (Matches(journal, start, db) <==> Reachable(journal, |start.rows|))
  {
    var n, db := |start.rows|, Run(journal, Workers(start, count), steps).db;
    if Reachable(journal, n) {
      ReturnedMatches(journal, start, count, steps);
      forall p | 0 <= p < |journal|
        ensures p in db.ran
      {
        assert db.ran[p] == p;
      }
    } else {
      var p :| n <= p < |journal| && !Beats(journal[p].when, MarkAt(journal, n));
      StrandedEntryNeverRuns(journal, start, count, steps, p);
      assert Span(0, |journal|)[p] == p && p in Span(0, |journal|);
    }
  }

  /** A worker that has migrated a reachable journal has stamped every row. */
  predicate FinishedStamped(journal: seq<Entry>, s: System) {
    Migrated in s.pcs || Returned in s.pcs ==> Times(s.db.rows) == Whens(journal)
  }

  lemma {:induction false} RunStamps(journal: seq<Entry>, start: Ledger, count: nat, steps: seq<Step>)
    requires Faithful(journal, start) && Reachable(journal, |start.rows|)
    ensures FinishedStamped(journal, Run(journal, Workers(start, count), steps))
    ensures Inv(journal, |start.rows|, Run(journal, Workers(start, count), steps))
  {
    RunKeeps(journal, |start.rows|, Workers(start, count), steps);
    if steps != [] {
      RunStamps(journal, start, count, steps[..|steps| - 1]);
      StepStamps(journal, |start.rows|, Run(journal, Workers(start, count), steps[..|steps| - 1]), steps[|steps| - 1]);
    }
  }

  lemma StepStamps(journal: seq<Entry>, n: nat, s: System, step: Step)
    requires n <= |journal| && Reachable(journal, n) && Inv(journal, n, s) && FinishedStamped(journal, s)
    ensures FinishedStamped(journal, Next(journal, s, step))
  {
    if Enabled(s, step) {
      match step
      case Reconcile(w) => RepairSetsMark(journal, s.db);
      case Migrate(w) => MigrateStamps(journal, n, s.db);
      case _ =>
    }
  }

  lemma MigrateStamps(journal: seq<Entry>, n: nat, db: Ledger)
    requires n <= |journal| && Reachable(journal, n) && LedgerInv(journal, n, db) && |db.rows| <= |journal|
    requires Times(db.rows) == Whens(journal)[..|db.rows|]
    ensures Times(Applied(journal, db).rows) == Whens(journal)
  {
    LengthIff(journal, n);
    var length := |db.rows|;
    RecordedBelowMark(journal, length);
    assert Reachable(journal, length);
    StampsJoin(journal, length, db.rows);
  }

  lemma ReturnedMatches(journal: seq<Entry>, start: Ledger, count: nat, steps: seq<Step>)
    requires Faithful(journal, start) && Reachable(journal, |start.rows|)
    requires Returned in Run(journal, Workers(start, count), steps).pcs
    ensures Matches(journal, start, Run(journal, Workers(start, count), steps).db)
  {
    RunStamps(journal, start, count, steps);
    RunAnyKeeps(journal, start, count, steps);
    ReturnedMeansAll(journal, |start.rows|, Run(journal, Workers(start, count), steps).db);
  }

  // ── The code ───────────────────────────────────────────────────────────────

  lemma RowsAppend(journal: seq<Entry>, before: seq<nat>, p: nat)
    requires p < |journal| && forall i :: 0 <= i < |before| ==> before[i] < p
    ensures Rows(journal, before + [p]) == Rows(journal, before) + [Row(journal[p].hash, journal[p].when)]
  {
  }

  /** The tags of the first `upTo` rows whose timestamps disagree with the journal. */
  function Disagreeing(journal: seq<Entry>, rows: seq<Row>, upTo: nat): seq<string>
    requires upTo <= |rows| <= |journal|
  {
    if upTo == 0 then []
    else Disagreeing(journal, rows, upTo - 1) +
         if rows[upTo - 1].createdAt == journal[upTo - 1].when then [] else [journal[upTo - 1].tag]
  }

  /** The tags of the first `upTo` entries whose recorded hash is no longer their file's. */
  function Drifted(journal: seq<Entry>, rows: seq<Row>, upTo: nat): seq<string>
    requires upTo <= |journal| <= |rows|
  {
    if upTo == 0 then []
    else Drifted(journal, rows, upTo - 1) +
         if rows[upTo - 1].hash != journal[upTo - 1].hash then [journal[upTo - 1].tag] else []
  }

  /** Positions in increasing order, and nothing else. */
  predicate Ascending(positions: seq<nat>) {
    forall i, j :: 0 <= i < j < |positions| ==> positions[i] < positions[j]
  }

  function Tags(journal: seq<Entry>, positions: seq<nat>): seq<string>
    requires forall i :: 0 <= i < |positions| ==> positions[i] < |journal|
  {
    seq(|positions|, i requires 0 <= i < |positions| => journal[positions[i]].tag)
  }

  /** The drift report names, in journal order, exactly the entries whose file is not what was recorded. */
  lemma {:induction false} DriftedNames(journal: seq<Entry>, rows: seq<Row>, upTo: nat) returns (at: seq<nat>)
    requires upTo <= |journal| <= |rows|
    ensures Ascending(at) && forall p :: p in at <==> 0 <= p < upTo && rows[p].hash != journal[p].hash
    ensures (forall i :: 0 <= i < |at| ==> at[i] < upTo) && Drifted(journal, rows, upTo) == Tags(journal, at)
  {
    at := [];
    if upTo > 0 {
      at := DriftedNames(journal, rows, upTo - 1);
      if rows[upTo - 1].hash != journal[upTo - 1].hash {
        assert Tags(journal, at + [upTo - 1]) == Tags(journal, at) + [journal[upTo - 1].tag];
        at := at + [upTo - 1];
      }
    }
  }

  /** The repair report names, in order, exactly the rows whose timestamp is not their entry's. */
  lemma {:induction false} DisagreeingNames(journal: seq<Entry>, rows: seq<Row>, upTo: nat) returns (at: seq<nat>)
    requires upTo <= |rows| <= |journal|
    ensures Ascending(at) && forall p :: p in at <==> 0 <= p < upTo && rows[p].createdAt != journal[p].when
    ensures (forall i :: 0 <= i < |at| ==> at[i] < upTo) && Disagreeing(journal, rows, upTo) == Tags(journal, at)
  {
    at := [];
    if upTo > 0 {
      at := DisagreeingNames(journal, rows, upTo - 1);
      if rows[upTo - 1].createdAt != journal[upTo - 1].when {
        assert Tags(journal, at + [upTo - 1]) == Tags(journal, at) + [journal[upTo - 1].tag];
        at := at + [upTo - 1];
      }
    }
  }

  /** A repair is reported exactly when it changes something. */
  lemma {:induction false} RepairReported(journal: seq<Entry>, rows: seq<Row>, upTo: nat)
    requires upTo <= |rows| <= |journal|
    ensures Disagreeing(journal, rows, upTo) == [] <==> Restamped(journal, rows, upTo) == rows
  {
    if upTo > 0 {
      RepairReported(journal, rows, upTo - 1);
      var shorter, longer := Restamped(journal, rows, upTo - 1), Restamped(journal, rows, upTo);
      assert longer == shorter[upTo - 1 := rows[upTo - 1].(createdAt := journal[upTo - 1].when)];
      if longer == rows {
        assert forall i :: 0 <= i < upTo ==> longer[i] == rows[i];
        assert shorter == rows;
      }
    }
  }

  class Database {
    const journal: seq<Entry>
    var present: bool
    var rows: seq<Row>
    var ran: seq<nat>

    constructor (journal: seq<Entry>, start: Ledger)
      ensures this.journal == journal && View() == start
    {
      this.journal := journal;
      present, rows, ran := start.present, start.rows, start.ran;
    }

    function View(): Ledger
      reads this
    {
      Ledger(present, rows, ran)
    }

    method ReconcileLedger() returns (repaired: seq<string>)
      modifies `rows
      ensures View() == Repaired(journal, old(View()))
      ensures repaired == if present && |rows| <= |journal| then Disagreeing(journal, old(rows), |rows|) else []
    {
      repaired := [];
      if !present || |rows| > |journal| {
        return;
      }
      ghost var was := rows;
      var index := 0;
      while index < |rows|
        invariant index <= |rows| == |was|
        invariant rows == Restamped(journal, was, index)
        invariant repaired == Disagreeing(journal, was, index)
      {
        if rows[index].createdAt != journal[index].when {
          rows := rows[index := rows[index].(createdAt := journal[index].when)];
          repaired := repaired + [journal[index].tag];
        }
        index := index + 1;
      }
    }

    method HighestCreatedAt() returns (mark: Option<int>)
      ensures mark == Highest(Times(rows))
    {
      mark := None;
      var times := Times(rows);
      for i := 0 to |rows|
        invariant mark == Highest(times[..i])
      {
        assert times[..i + 1][..i] == times[..i];
        if mark.None? || rows[i].createdAt > mark.value {
          mark := Some(rows[i].createdAt);
        }
      }
      assert times[..|rows|] == times;
    }

    /** Drizzle's pass: the mark is read once, before the loop. */
    method ApplyOutstanding()
      modifies this
      ensures View() == Applied(journal, old(View()))
    {
      var mark := HighestCreatedAt();
      present := true;
      for i := 0 to |journal|
        invariant present
        invariant rows == old(rows) + Rows(journal, Outstanding(journal, mark, i))
        invariant ran == old(ran) + Outstanding(journal, mark, i)
      {
        RowsAppend(journal, Outstanding(journal, mark, i), i);
        if Beats(journal[i].when, mark) {
          rows := rows + [Row(journal[i].hash, journal[i].when)];
          ran := ran + [i];
        }
      }
    }

    method AssertFullyApplied() returns (outcome: Outcome)
      ensures outcome.Finished? <==> |journal| <= |rows|
      ensures outcome.Finished? ==> outcome.drifted == Drifted(journal, rows, |journal|)
      ensures outcome.Skipped? ==>
                |outcome.missing| == |journal| - |rows| > 0
                && forall i :: |rows| <= i < |journal| ==> outcome.missing[i - |rows|] == journal[i].tag
    {
      if |rows| < |journal| {
        var missing := [];
        for i := |rows| to |journal|
          invariant |missing| == i - |rows|
          invariant forall j :: |rows| <= j < i ==> missing[j - |rows|] == journal[j].tag
        {
          missing := missing + [journal[i].tag];
        }
        return Skipped(missing);
      }
      var drifted := [];
      for i := 0 to |journal|
        invariant drifted == Drifted(journal, rows, i)
      {
        if rows[i].hash != journal[i].hash {
          drifted := drifted + [journal[i].tag];
        }
      }
      return Finished(drifted);
    }

    method RunMigrations() returns (outcome: Outcome, repaired: seq<string>)
      modifies this
      ensures View() == Attempt(journal, old(View()))
      ensures outcome.Finished? <==> |journal| <= |rows|
      ensures outcome.Finished? ==> outcome.drifted == Drifted(journal, rows, |journal|)
      ensures outcome.Skipped? ==>
                |outcome.missing| == |journal| - |rows| > 0
                && forall i :: |rows| <= i < |journal| ==> outcome.missing[i - |rows|] == journal[i].tag
      ensures repaired == if old(present) && |old(rows)| <= |journal|
                          then Disagreeing(journal, old(rows), |old(rows)|) else []
    {
      repaired := ReconcileLedger();
      ApplyOutstanding();
      outcome := AssertFullyApplied();
    }
  }
}
