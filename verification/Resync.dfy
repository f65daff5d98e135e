/** Clearing the mirror and letting the website send everything again. */
module Resync {
  import opened Wrappers
  import opened Stages
  import opened StatusLadder
  import opened Lifecycle
  import opened Crm
  import opened Runs

  /** The record is in the CRM in every sense the website asks about. */
  predicate Held(db: Db, id: Id)
    requires id < |db.files|
  {
    var f := db.files[id];
    && !f.record.deleted
    && LiveApplicant(db, f.record.applicant)
    && f.mirror.Some?
    && f.record.externalId == Some(f.mirror.value.externalId)
  }

  /** The external ids the CRM reports holding. */
  predicate KnownForWebsite(db: Db, externalId: Text) {
    exists f <- db.files :: f.mirror.Some? && f.mirror.value.externalId == externalId && !f.record.deleted
  }

  // ── The reset ────────────────────────────────────────────────────────────

  /** Right after a reset the CRM reports nothing, and no record without a mirror row was touched. */
  lemma ResetBoundsTheDamage(db: Db, id: Id)
    requires Inv(db) && id < |db.files|
    ensures var after := ResetAll(db);
            && Inv(after) && after.events == map[] && |after.files| == |db.files|
            && (forall e: Text :: !KnownForWebsite(after, e))
            && (db.files[id].mirror.None? ==> after.files[id] == db.files[id])
            && (!LiveApplicant(after, db.files[id].record.applicant) && LiveApplicant(db, db.files[id].record.applicant) ==>
                  db.files[id].mirror.Some? || db.files[id].record.deleted)
  {
    ResetKeeps(db);
    var after := ResetAll(db);
    assert forall f <- after.files :: f.mirror.None? by {
      assert forall i :: 0 <= i < |after.files| ==> after.files[i] == Cleared(db.files[i]);
    }
    assert db.files[id] in db.files;
  }

  // ── One record coming back ───────────────────────────────────────────────

  /**
   * The step brings a snapshot of the application to a good end, in an import that began
   * after the first `first`: it opens the record, applies the snapshot, or finds it applied.
   */
  predicate TakesIn(s: System, step: Step, first: nat, externalId: Text) {
    && (step.Wake? || step.Commit?) && first <= step.job < |s.jobs|
    && match s.jobs[step.job]
       case Opening(_, p, _) =>
         step.Commit? && p.externalId == externalId && FindExternal(s.db.files, externalId).None?
       case Updating(_, p, known) =>
         && step.Wake? && p.externalId == externalId && known.id < |s.db.files|
         && AlreadyApplied(Revive(s.db, known).files[known.id], p)
       case Applying(_, p, known) => step.Commit? && p.externalId == externalId && known.id < |s.db.files|
       case _ => false
  }

  predicate TakenIn(s: System, steps: seq<Step>, first: nat, externalId: Text) {
    exists k :: 0 <= k < |steps| && TakesIn(Run(s, steps[..k]), steps[k], first, externalId)
  }

  /** What an import that began after the reset may rely on about record `i`. */
  predicate JobFresh(db: Db, job: Job, i: Id)
    requires i < |db.files|
  {
    && (job.Updating? && job.known.id == i && !job.known.wasDeleted ==> !db.files[i].record.deleted)
    && (job.Applying? && job.known.id == i ==> !db.files[i].record.deleted)
  }

  predicate Live(db: Db, i: Id)
    requires i < |db.files|
  {
    !db.files[i].record.deleted && LiveApplicant(db, db.files[i].record.applicant)
  }

  /** Record `i` is on its way back: cleared, or live with its owner; and held again once a snapshot is taken in. */
  predicate Back(s: System, first: nat, i: Id, taken: bool) {
    && i < |s.db.files|
    && (s.db.files[i].record.deleted || Live(s.db, i))
    && (taken ==> Live(s.db, i) && s.db.files[i].mirror.Some?)
    && forall j :: first <= j < |s.jobs| ==> JobFresh(s.db, s.jobs[j], i)
  }

  lemma SamePlaceBack(s: System, step: Step, first: nat, i: Id, taken: bool)
    requires Back(s, first, i, taken) && (Reading(step) || Writing(step))
    ensures Back(Next(s, step), first, i, taken)
  {
    if Reading(step) {
      ReadingKeepsPlaces(s, step);
    } else {
      WritingKeepsPlaces(s, step);
    }
    assert SamePlace(s.db.files[i], Next(s, step).db.files[i]);
    JobsFresh(s, step, first, i);
  }

  lemma JobsFresh(s: System, step: Step, first: nat, i: Id)
    requires i < |s.db.files| && (Reading(step) || Writing(step))
    requires forall j :: first <= j < |s.jobs| ==> JobFresh(s.db, s.jobs[j], i)
    ensures i < |Next(s, step).db.files|
    ensures forall j :: first <= j < |Next(s, step).jobs| ==> JobFresh(Next(s, step).db, Next(s, step).jobs[j], i)
  {
    var after := Next(s, step);
    if Reading(step) {
      ReadingKeepsPlaces(s, step);
    } else {
      WritingKeepsPlaces(s, step);
    }
    assert SamePlace(s.db.files[i], after.db.files[i]);
    forall j | first <= j < |after.jobs|
      ensures JobFresh(after.db, after.jobs[j], i)
    {
      assert j < |s.jobs| ==> JobFresh(s.db, s.jobs[j], i);
    }
  }

  /** Reviving a record brings its owner back with it, and touches no other record. */
  lemma RevivedBack(db: Db, known: Known, i: Id)
    requires Inv(db) && i < |db.files| && (db.files[i].record.deleted || Live(db, i))
    ensures var after := Revive(db, known);
            && |after.files| == |db.files|
            && (after.files[i].record.deleted || Live(after, i))
            && (Live(db, i) ==> Live(after, i))
            && (known.id == i && (known.wasDeleted || !db.files[i].record.deleted) ==> Live(after, i))
            && after.files[i].mirror == db.files[i].mirror
  {
    ReviveKeeps(db, known);
    assert db.files[i] in db.files;
  }

  lemma WakeBack(s: System, j: nat, first: nat, i: Id, taken: bool)
    requires SysInv(s) && Back(s, first, i, taken)
    ensures Back(WakeStep(s, j), first, i, taken)
  {
    if j < |s.jobs| && s.jobs[j].Updating? {
      var after := WakeStep(s, j);
      RevivedBack(s.db, s.jobs[j].known, i);
      forall k | first <= k < |after.jobs|
        ensures JobFresh(after.db, after.jobs[k], i)
      {
        assert JobFresh(s.db, s.jobs[k], i);
      }
    }
  }

  /** The record an import is about is the only one of its application. */
  lemma OnlyOne(db: Db, id: Id, i: Id, externalId: Text)
    requires Inv(db) && id < |db.files| && i < |db.files|
    requires db.files[id].record.externalId == db.files[i].record.externalId == Some(externalId)
    ensures id == i
  {
    assert id < i ==> Distinct(db.files[id], db.files[i]);
    assert i < id ==> Distinct(db.files[i], db.files[id]);
  }

  /** What a commit leaves of the events and the other jobs. */
  lemma CommitEnds(s: System, j: nat, now: Time)
    requires SysInv(s)
    ensures var after := CommitStep(s, j, now);
            && |after.jobs| == |s.jobs|
            && (forall k :: 0 <= k < |s.jobs| ==> after.jobs[k] == s.jobs[k] || after.jobs[k].Finished?)
            && after.db.events.Keys == s.db.events.Keys
            && forall key <- s.db.events :: after.db.events[key].payload == s.db.events[key].payload
  {
  }

  /** A commit changes no deletion mark and clears no applicant, and a mirror row, once there, stays. */
  lemma CommitMarks(s: System, j: nat, now: Time, i: Id)
    requires SysInv(s) && i < |s.db.files|
    ensures var after := CommitStep(s, j, now);
            && i < |after.db.files|
            && after.db.files[i].record.deleted == s.db.files[i].record.deleted
            && (Live(s.db, i) ==> Live(after.db, i))
            && (s.db.files[i].mirror.Some? ==> after.db.files[i].mirror.Some?)
  {
    if j < |s.jobs| && s.jobs[j].Applying? {
      assert JobOk(s.db, s.jobs[j]);
      Crm.CommitKeeps(s.db, s.jobs[j].known, s.jobs[j].payload, now);
      assert Continues(s.db.files[i], CommitStep(s, j, now).db.files[i]);
    }
  }

  lemma CommitBack(s: System, j: nat, now: Time, first: nat, i: Id, taken: bool)
    requires SysInv(s) && Back(s, first, i, taken)
    ensures Back(CommitStep(s, j, now), first, i, taken)
  {
    CommitMarks(s, j, now, i);
    CommitEnds(s, j, now);
    JobsStayFresh(s, CommitStep(s, j, now), first, i);
  }

  /** A step that ends jobs and leaves the record's deletion mark keeps the rest of them fresh. */
  lemma JobsStayFresh(s: System, after: System, first: nat, i: Id)
    requires i < |s.db.files| && i < |after.db.files|
    requires after.db.files[i].record.deleted == s.db.files[i].record.deleted
    requires |after.jobs| == |s.jobs| && forall k :: 0 <= k < |s.jobs| ==> after.jobs[k] == s.jobs[k] || after.jobs[k].Finished?
    requires forall k :: first <= k < |s.jobs| ==> JobFresh(s.db, s.jobs[k], i)
    ensures forall k :: first <= k < |after.jobs| ==> JobFresh(after.db, after.jobs[k], i)
  {
    forall k | first <= k < |after.jobs|
      ensures JobFresh(after.db, after.jobs[k], i)
    {
      assert JobFresh(s.db, s.jobs[k], i);
    }
  }

  lemma EnteredBack(s: System, step: Step, first: nat, i: Id, taken: bool)
    requires Back(s, first, i, taken) && step.EnterByHand?
    ensures Back(Next(s, step), first, i, taken)
  {
    JobsStayFresh(s, Next(s, step), first, i);
  }

  /** Everything but another reset keeps what has come back. */
  lemma StepBack(s: System, step: Step, first: nat, i: Id, taken: bool)
    requires SysInv(s) && Back(s, first, i, taken) && !step.Reset?
    ensures Back(Next(s, step), first, i, taken)
  {
    if Reading(step) || Writing(step) {
      SamePlaceBack(s, step, first, i, taken);
    } else if step.Wake? {
      WakeBack(s, step.job, first, i, taken);
    } else if step.Commit? {
      CommitBack(s, step.job, step.now, first, i, taken);
    } else {
      EnteredBack(s, step, first, i, taken);
    }
  }

  /** A snapshot taken in brings the record all the way back. */
  lemma TakingBringsBack(s: System, step: Step, first: nat, i: Id, externalId: Text)
    requires SysInv(s) && Back(s, first, i, false) && TakesIn(s, step, first, externalId)
    requires s.db.files[i].record.externalId == Some(externalId)
    ensures Back(Next(s, step), first, i, true)
  {
    StepBack(s, step, first, i, false);
    var job := s.jobs[step.job];
    assert JobOk(s.db, job) && JobFresh(s.db, job, i);
    assert s.db.files[i] in s.db.files;
    match job
    case Updating(_, p, known) =>
      OnlyOne(s.db, known.id, i, externalId);
      RevivedBack(s.db, known, i);
    case Applying(_, p, known) =>
      OnlyOne(s.db, known.id, i, externalId);
      Crm.CommitKeeps(s.db, known, p, step.now);
      assert Continues(s.db.files[i], Next(s, step).db.files[i]);
    case _ =>
  }

  lemma {:induction false} RunBack(s: System, steps: seq<Step>, first: nat, i: Id, externalId: Text)
    requires SysInv(s) && Back(s, first, i, false) && s.db.files[i].record.externalId == Some(externalId)
    requires forall step <- steps :: !step.Reset?
    ensures Back(Run(s, steps), first, i, TakenIn(s, steps, first, externalId))
  {
    if steps != [] {
      var front, last := steps[..|steps| - 1], steps[|steps| - 1];
      var before := Run(s, front);
      RunBack(s, front, first, i, externalId);
      EveryRunKeeps(s, front);
      assert Continues(s.db.files[i], before.db.files[i]);
      TakenStep(s, front, last, first, externalId);
      assert steps == front + [last];
      StepBack(before, last, first, i, TakenIn(s, front, first, externalId));
      if TakesIn(before, last, first, externalId) {
        assert Back(before, first, i, false);
        TakingBringsBack(before, last, first, i, externalId);
      }
    }
  }

  lemma TakenStep(s: System, front: seq<Step>, last: Step, first: nat, externalId: Text)
    ensures TakenIn(s, front + [last], first, externalId) <==>
            TakenIn(s, front, first, externalId) || TakesIn(Run(s, front), last, first, externalId)
  {
    var steps := front + [last];
    assert steps[..|front|] == front && steps[|front|] == last;
    assert forall k :: 0 <= k < |front| ==> steps[..k] == front[..k] && steps[k] == front[k];
    if TakenIn(s, front, first, externalId) {
      var k :| 0 <= k < |front| && TakesIn(Run(s, front[..k]), front[k], first, externalId);
      assert TakesIn(Run(s, steps[..k]), steps[k], first, externalId);
    }
    if TakesIn(Run(s, front), last, first, externalId) {
      assert TakesIn(Run(s, steps[..|front|]), steps[|front|], first, externalId);
    }
  }

  /** Right after a reset every record that was mirrored is cleared, and no import has begun yet. */
  lemma ResetBack(s: System, i: Id)
    requires SysInv(s) && i < |s.db.files| && s.db.files[i].mirror.Some?
    ensures Back(Next(s, Reset), |s.jobs|, i, false)
    ensures SysInv(Next(s, Reset)) && Grows(s.db, Next(s, Reset).db)
    ensures Next(s, Reset).db.files[i].record.externalId == Some(s.db.files[i].mirror.value.externalId)
  {
    StepKeeps(s, Reset);
    assert s.db.files[i] in s.db.files;
  }

  // ── The whole re-push ────────────────────────────────────────────────────

  /**
   * After a reset, whatever was under way at the time and whatever happens next short of
   * another reset, with imports overlapping and failing as they may: as soon as a snapshot
   * of a mirrored application has been taken in again, its record is held, live, with a
   * live owner, its one mirror row, and the money and certificate it had; and it is still
   * the only record of its application.
   */
  lemma {:induction false} ResetThenRepushRestores(s: System, steps: seq<Step>, i: Id)
    requires SysInv(s) && i < |s.db.files| && s.db.files[i].mirror.Some?
    requires forall step <- steps :: !step.Reset?
    ensures var externalId := s.db.files[i].mirror.value.externalId;
            var reset := Next(s, Reset);
            var after := Run(reset, steps);
            && SysInv(after) && Grows(s.db, after.db)
            && (forall j :: 0 <= j < |after.db.files| && j != i ==>
                  after.db.files[j].record.externalId != Some(externalId))
            && (TakenIn(reset, steps, |s.jobs|, externalId) ==>
                  Held(after.db, i) && KnownForWebsite(after.db, externalId))
  {
    var externalId := s.db.files[i].mirror.value.externalId;
    var reset := Next(s, Reset);
    var after := Run(reset, steps);
    ResetBack(s, i);
    RunBack(reset, steps, |s.jobs|, i, externalId);
    EveryRunKeeps(reset, steps);
    GrowsTransitive(s.db, reset.db, after.db);
    assert Continues(reset.db.files[i], after.db.files[i]);
    forall j | 0 <= j < |after.db.files| && after.db.files[j].record.externalId == Some(externalId)
      ensures j == i
    {
      OnlyOne(after.db, j, i, externalId);
    }
    if TakenIn(reset, steps, |s.jobs|, externalId) {
      assert after.db.files[i] in after.db.files;
    }
  }

  /** Nothing but a failure keeps a push from being taken in: undisturbed, it is, whatever the record has come to. */
  lemma PushIsTakenIn(s: System, p: Payload, m: Match, now: Time)
    requires SysInv(s) && SnapshotHash(p) !in s.db.events && FindExternal(s.db.files, p.externalId).Some?
    ensures TakenIn(s, [Receive(p), Begin(SnapshotHash(p), m), Wake(|s.jobs|), Commit(|s.jobs|, now)], |s.jobs|, p.externalId)
  {
    var key, j := SnapshotHash(p), |s.jobs|;
    var steps := [Receive(p), Begin(key, m), Wake(j), Commit(j, now)];
    var known := ReadKnown(s.db, FindExternal(s.db.files, p.externalId).value);
    var received := Next(s, Receive(p));
    var begun := Next(received, Begin(key, m));
    FirstSteps(s, steps);
    BegunOnKnown(received, key, m);
    assert begun.jobs == s.jobs + [Updating(key, p, known)] && begun.db.files == s.db.files;
    if AlreadyApplied(Revive(begun.db, known).files[known.id], p) {
      assert TakesIn(Run(s, steps[..2]), steps[2], j, p.externalId);
    } else {
      assert Next(begun, Wake(j)).jobs[j] == Applying(key, p, known);
      assert TakesIn(Run(s, steps[..3]), steps[3], j, p.externalId);
    }
  }

  lemma FirstSteps(s: System, steps: seq<Step>)
    requires |steps| >= 3
    ensures Run(s, steps[..2]) == Next(Next(s, steps[0]), steps[1])
    ensures Run(s, steps[..3]) == Next(Next(Next(s, steps[0]), steps[1]), steps[2])
  {
    assert steps[..3][..2] == steps[..2] && steps[..2][..1] == steps[..1] && steps[..1][..0] == [];
    assert Run(s, steps[..1]) == Next(s, steps[0]);
  }

  // ── Records that are no part of it ───────────────────────────────────────

  predicate Importing(step: Step) {
    step.Receive? || step.Begin? || step.Wake? || step.Commit? || step.Fail?
  }

  /** Nothing stored and nothing under way is about record `i`. */
  predicate Unasked(s: System, i: Id) {
    && i < |s.db.files|
    && (forall key <- s.db.events :: s.db.files[i].record.externalId != Some(s.db.events[key].payload.externalId))
    && (forall j :: 0 <= j < |s.jobs| && (s.jobs[j].Updating? || s.jobs[j].Applying?) ==> s.jobs[j].known.id != i)
  }

  lemma QuietStepLeaves(s: System, step: Step, i: Id)
    requires Unasked(s, i) && (step.Receive? || step.Fail?)
    requires step.Receive? ==> s.db.files[i].record.externalId != Some(step.payload.externalId)
    ensures Unasked(Next(s, step), i) && Next(s, step).db.files == s.db.files
  {
  }

  lemma BeginLeaves(s: System, key: Fingerprint, m: Match, i: Id)
    requires Unasked(s, i)
    ensures Unasked(BeginStep(s, key, m), i) && BeginStep(s, key, m).db.files == s.db.files
  {
  }

  lemma WakeLeaves(s: System, j: nat, i: Id)
    requires SysInv(s) && Unasked(s, i)
    ensures Unasked(WakeStep(s, j), i) && WakeStep(s, j).db.files[i] == s.db.files[i]
  {
    if j < |s.jobs| && s.jobs[j].Updating? {
      ReviveKeeps(s.db, s.jobs[j].known);
    }
  }

  lemma CommitLeaves(s: System, j: nat, now: Time, i: Id)
    requires SysInv(s) && Unasked(s, i)
    ensures i < |CommitStep(s, j, now).db.files| && CommitStep(s, j, now).db.files[i] == s.db.files[i]
  {
    if j < |s.jobs| && s.jobs[j].Applying? {
      assert JobOk(s.db, s.jobs[j]);
      Crm.CommitKeeps(s.db, s.jobs[j].known, s.jobs[j].payload, now);
    }
  }

  lemma StepLeaves(s: System, step: Step, i: Id)
    requires SysInv(s) && Unasked(s, i) && Importing(step)
    requires step.Receive? ==> s.db.files[i].record.externalId != Some(step.payload.externalId)
    ensures Unasked(Next(s, step), i)
    ensures Next(s, step).db.files[i] == s.db.files[i]
  {
    match step
    case Begin(key, m) => BeginLeaves(s, key, m, i);
    case Wake(j) => WakeLeaves(s, j, i);
    case Commit(j, now) =>
      CommitLeaves(s, j, now, i);
      CommitEnds(s, j, now);
    case _ => QuietStepLeaves(s, step, i);
  }

  /** A record that no import under way and no push is about goes through the reset and the re-push as it is, if it had no mirror row. */
  lemma {:induction false} OthersUntouched(s: System, steps: seq<Step>, i: Id)
    requires SysInv(s) && i < |s.db.files| && s.db.files[i].mirror.None?
    requires forall j :: 0 <= j < |s.jobs| && (s.jobs[j].Updating? || s.jobs[j].Applying?) ==> s.jobs[j].known.id != i
    requires forall step <- steps ::
               Importing(step) && (step.Receive? ==> s.db.files[i].record.externalId != Some(step.payload.externalId))
    ensures var after := Run(Next(s, Reset), steps);
            && Unasked(after, i) && after.db.files[i] == s.db.files[i]
  {
    var reset := Next(s, Reset);
    if steps == [] {
      assert reset.db.files[i] == s.db.files[i];
    } else {
      var front, last := steps[..|steps| - 1], steps[|steps| - 1];
      OthersUntouched(s, front, i);
      StepKeeps(s, Reset);
      EveryRunKeeps(reset, front);
      assert last in steps;
      StepLeaves(Run(reset, front), last, i);
    }
  }
}
