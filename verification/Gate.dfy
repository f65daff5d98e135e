/**
 * Certificate Verification as a gate: who can carry a record past it, and what can move
 * one back, over whole runs in which the parts of requests interleave.
 */
module Gate {
  import opened Wrappers
  import opened Stages
  import opened StatusLadder
  import opened Lifecycle
  import opened Crm
  import opened Runs

  function StatusOf(db: Db, id: Id): Status
    requires id < |db.files|
  {
    db.files[id].record.status
  }

  // ── One mirror transaction ───────────────────────────────────────────────

  /** The steps of an import. */
  predicate Mirroring(step: Step) {
    step.Begin? || step.Wake? || step.Commit? || step.Fail?
  }

  /** The transaction about this record, if the step is one. */
  predicate Applies(s: System, step: Step, id: Id) {
    && step.Commit? && step.job < |s.jobs|
    && s.jobs[step.job].Applying?
    && s.jobs[step.job].known.id == id
  }

  /** What the transaction was told, with the sign-off of the moment. */
  function Told(s: System, step: Step, id: Id): Report
    requires Applies(s, step, id) && id < |s.db.files|
  {
    Report(s.jobs[step.job].payload.stage, SignedOff(s.db.files[id].certificate))
  }

  lemma CommitMoves(db: Db, known: Known, p: Payload, now: Time)
    requires known.id < |db.files|
    ensures var before, after := db.files[known.id], CommitUpdate(db, known, p, now).files[known.id];
            && SignedOff(after.certificate) == SignedOff(before.certificate)
            && after.record.status ==
               MoveStatus(before.record.status, known.status, Report(p.stage, SignedOff(before.certificate)))
  {
    ApplyMoves(Book(db.files[known.id], db.ledger), known.id, p, known.status, now);
  }

  /** An import's steps leave every sign-off as it was, and move a status only in the transaction about that record. */
  lemma MirrorMoves(s: System, step: Step, id: Id)
    requires SysInv(s) && Mirroring(step) && id < |s.db.files|
    ensures var after := Next(s, step).db;
            && id < |after.files|
            && SignedOff(after.files[id].certificate) == SignedOff(s.db.files[id].certificate)
            && StatusOf(after, id) ==
               if Applies(s, step, id) then MoveStatus(StatusOf(s.db, id), s.jobs[step.job].known.status, Told(s, step, id))
               else StatusOf(s.db, id)
  {
    if step.Wake? {
      WakeMoves(s, step.job, id);
    } else if step.Commit? {
      CommitStepMoves(s, step.job, step.now, id);
    }
  }

  lemma WakeMoves(s: System, j: nat, id: Id)
    requires SysInv(s) && id < |s.db.files|
    ensures var after := WakeStep(s, j).db;
            && |after.files| == |s.db.files|
            && SignedOff(after.files[id].certificate) == SignedOff(s.db.files[id].certificate)
            && StatusOf(after, id) == StatusOf(s.db, id)
  {
    if j < |s.jobs| && s.jobs[j].Updating? {
      ReviveKeeps(s.db, s.jobs[j].known);
    }
  }

  lemma CommitStepMoves(s: System, j: nat, now: Time, id: Id)
    requires SysInv(s) && id < |s.db.files|
    ensures var after := CommitStep(s, j, now).db;
            && id < |after.files|
            && SignedOff(after.files[id].certificate) == SignedOff(s.db.files[id].certificate)
            && StatusOf(after, id) ==
               if Applies(s, Commit(j, now), id)
               then MoveStatus(StatusOf(s.db, id), s.jobs[j].known.status, Told(s, Commit(j, now), id))
               else StatusOf(s.db, id)
  {
    if j < |s.jobs| && s.jobs[j].Applying? {
      assert JobOk(s.db, s.jobs[j]);
      Crm.CommitKeeps(s.db, s.jobs[j].known, s.jobs[j].payload, now);
      CommitMoves(s.db, s.jobs[j].known, s.jobs[j].payload, now);
    }
  }

  /** A status a mirror transaction wrote past the gate was written on a standing sign-off, stale reads or not. */
  lemma MoveRespectsGate(row: Status, current: Status, report: Report)
    ensures PastGate(MoveStatus(row, current, report)) && MoveStatus(row, current, report) != row ==> report.verified
  {
    SettleRespectsGate(current, report);
  }

  /**
   * No part of an import or a snapshot ends by having moved a record past Certificate
   * Verification unless that record's certificate is signed off at that moment, whatever
   * was read before; and a record a first import opens is never past it.
   */
  lemma MirrorCannotPassGate(s: System, step: Step)
    requires SysInv(s) && Mirroring(step)
    ensures var after := Next(s, step).db;
            forall id :: 0 <= id < |after.files| && PastGate(StatusOf(after, id)) ==>
              && id < |s.db.files|
              && (StatusOf(after, id) == StatusOf(s.db, id) || SignedOff(after.files[id].certificate))
  {
    var after := Next(s, step).db;
    forall id | 0 <= id < |after.files| && PastGate(StatusOf(after, id))
      ensures id < |s.db.files|
      ensures StatusOf(after, id) == StatusOf(s.db, id) || SignedOff(after.files[id].certificate)
    {
      if id < |s.db.files| {
        MirrorMoves(s, step, id);
        if Applies(s, step, id) {
          MoveRespectsGate(StatusOf(s.db, id), s.jobs[step.job].known.status, Told(s, step, id));
        }
      } else {
        NewRecordBelowGate(s, step);
      }
    }
  }

  lemma OpenedBelowGate(db: Db, p: Payload, owner: Option<Id>, now: Time)
    ensures var after := Import(db, p, owner, now);
            && |after.files| == |db.files| + 1
            && !PastGate(StatusOf(after, |db.files|))
            && !SignedOff(after.files[|db.files|].certificate)
  {
    ImportedFile(db, p, owner, now);
    if p.stage.Some? {
      EffectiveOnLadder(p.stage.value, false);
    }
  }

  /** Only the transaction of a first import adds a record. */
  lemma OnlyOpeningAdds(s: System, step: Step)
    requires SysInv(s) && Mirroring(step) && |Next(s, step).db.files| > |s.db.files|
    ensures step.Commit? && step.job < |s.jobs| && s.jobs[step.job].Opening?
    ensures Next(s, step).db.files ==
              Import(s.db, s.jobs[step.job].payload, s.jobs[step.job].owner, step.now).files
  {
    if step.Wake? && step.job < |s.jobs| && s.jobs[step.job].Updating? {
      ReviveKeeps(s.db, s.jobs[step.job].known);
    } else if step.Commit? && step.job < |s.jobs| && s.jobs[step.job].Applying? {
      assert JobOk(s.db, s.jobs[step.job]);
      Crm.CommitKeeps(s.db, s.jobs[step.job].known, s.jobs[step.job].payload, step.now);
    }
  }

  lemma NewRecordBelowGate(s: System, step: Step)
    requires SysInv(s) && Mirroring(step) && |Next(s, step).db.files| > |s.db.files|
    ensures var after := Next(s, step).db;
            && |after.files| == |s.db.files| + 1
            && !PastGate(StatusOf(after, |s.db.files|))
            && !SignedOff(after.files[|s.db.files|].certificate)
  {
    OnlyOpeningAdds(s, step);
    OpenedBelowGate(s.db, s.jobs[step.job].payload, s.jobs[step.job].owner, step.now);
  }

  // ── Moving back ──────────────────────────────────────────────────────────

  /** The one is a place on the ladder behind the other. */
  predicate Behind(a: Status, b: Status) {
    !IsDecisionStatus(a) && !IsDecisionStatus(b) && LadderRank(a) < LadderRank(b)
  }

  /**
   * The status remembered from before the transaction was overtaken: the snapshot's stage
   * is ahead of what was read, or what was read was a decision, and behind what is there.
   */
  predicate Overtakes(row: Status, current: Status, report: Report) {
    && report.stage.Some? && !IsDecisionStage(report.stage.value)
    && Behind(Effective(report.stage.value, report.verified), row)
    && (IsDecisionStatus(current) || Behind(current, Effective(report.stage.value, report.verified)))
  }

  /** Exactly when a snapshot drags a record back along the ladder. */
  lemma MovesBackIff(row: Status, current: Status, report: Report)
    ensures Behind(MoveStatus(row, current, report), row) <==> Overtakes(row, current, report)
  {
  }

  /** With the status read in step with the row, a ladder record is never overtaken. */
  lemma FreshNeverOvertakes(row: Status, report: Report)
    requires !IsDecisionStatus(row)
    ensures !Overtakes(row, row, report)
  {
  }

  predicate Overtaken(s: System, step: Step, id: Id) {
    && id < |s.db.files| && Applies(s, step, id)
    && Overtakes(StatusOf(s.db, id), s.jobs[step.job].known.status, Told(s, step, id))
  }

  /** An operator's change of this record, written. */
  predicate Changes(s: System, step: Step, id: Id) {
    && step.Change? && step.job < |s.jobs|
    && s.jobs[step.job].Moving?
    && s.jobs[step.job].id == id
  }

  /** It writes a status behind the one that is there by now. */
  predicate TakesBack(s: System, step: Step, id: Id) {
    && id < |s.db.files| && Changes(s, step, id)
    && Behind(s.jobs[step.job].to, StatusOf(s.db, id))
  }

  /**
   * Of everything that can happen, exactly two things move a record back along the ladder:
   * a snapshot's transaction, overtaken since it read the status, and an operator's change
   * of this record to a status behind the one that is there by then.
   */
  lemma StepMovesBackIff(s: System, step: Step, id: Id)
    requires SysInv(s) && id < |s.db.files|
    ensures id < |Next(s, step).db.files|
    ensures Behind(StatusOf(Next(s, step).db, id), StatusOf(s.db, id)) <==>
            Overtaken(s, step, id) || TakesBack(s, step, id)
  {
    if Mirroring(step) {
      MirrorMoves(s, step, id);
      if Applies(s, step, id) {
        MovesBackIff(StatusOf(s.db, id), s.jobs[step.job].known.status, Told(s, step, id));
      }
    } else if step.Change? {
      ChangeMoves(s, step, id);
    } else {
      OthersMoveOn(s, step, id);
    }
  }

  lemma ChangeMoves(s: System, step: Step, id: Id)
    requires step.Change? && id < |s.db.files|
    ensures id < |Next(s, step).db.files|
    ensures StatusOf(Next(s, step).db, id) == if Changes(s, step, id) then s.jobs[step.job].to else StatusOf(s.db, id)
  {
  }

  /** The two edges of the workflow that lead back. */
  predicate EdgeBack(from: Status, to: Status) {
    (from == VerificationPending && to == UnderReview) || (from == Completed && to == Delivered)
  }

  /**
   * A change written on the status it was asked at goes back along the workflow's own two
   * edges only; one written after the record has moved on can also lose what happened in
   * between, exactly when the status it writes is behind where the record got to.
   */
  lemma ChangeTakesBackIff(s: System, step: Step, id: Id)
    requires SysInv(s) && id < |s.db.files| && Changes(s, step, id)
    ensures var from, to, row := s.jobs[step.job].from, s.jobs[step.job].to, StatusOf(s.db, id);
            && (row == from ==> (TakesBack(s, step, id) <==> EdgeBack(from, to)))
            && (row != from ==> (TakesBack(s, step, id) <==> Behind(to, row)))
  {
    assert JobOk(s.db, s.jobs[step.job]);
    EdgesBack(s.jobs[step.job].from, s.jobs[step.job].to);
  }

  lemma EdgesBack(from: Status, to: Status)
    requires to in NextStatuses(from)
    ensures Behind(to, from) <==> EdgeBack(from, to)
  {
  }

  /** A payment mirrored while an operator asks the applicant to pay: the record is taken back to payment pending. */
  lemma ChangeOvertakenByPayment(s: System, i: nat, j: nat, id: Id, now: Time)
    requires SysInv(s) && i < |s.jobs| && j < |s.jobs| && id < |s.db.files|
    requires s.jobs[i] == Moving(id, Selected, PaymentPending) && StatusOf(s.db, id) == Selected
    requires s.jobs[j].Applying? && s.jobs[j].known.id == id && s.jobs[j].known.status == Selected
    requires s.jobs[j].payload.stage == Some(Paid) && !SignedOff(s.db.files[id].certificate)
    ensures var paid := Next(s, Commit(j, now));
            && id < |paid.db.files| && StatusOf(paid.db, id) == CertificatePending
            && TakesBack(paid, Change(i), id)
            && id < |Next(paid, Change(i)).db.files| && StatusOf(Next(paid, Change(i)).db, id) == PaymentPending
  {
    CommitStepMoves(s, j, now, id);
    var paid := Next(s, Commit(j, now));
    assert paid.jobs == s.jobs[j := Finished];
    ChangeMoves(paid, Change(i), id);
  }

  /** Not back along the ladder, and not off it. */
  predicate Onwards(before: Status, after: Status) {
    !Behind(after, before) && (!IsDecisionStatus(before) ==> !IsDecisionStatus(after))
  }

  lemma SignOffMovesOn(db: Db, signed: Id, latest: nat, id: Id)
    requires id < |db.files|
    ensures |SignOffOf(db, signed, latest).files| == |db.files|
    ensures Onwards(StatusOf(db, id), StatusOf(SignOffOf(db, signed, latest), id))
  {
  }

  lemma QueueMovesOn(db: Db, queued: Id, from: set<Status>, id: Id)
    requires id < |db.files| && from <= {PaymentPending, PaymentReceived}
    ensures |QueueCertificate(db, queued, from).files| == |db.files|
    ensures Onwards(StatusOf(db, id), StatusOf(QueueCertificate(db, queued, from), id))
  {
  }

  lemma OthersMoveOn(s: System, step: Step, id: Id)
    requires !Mirroring(step) && !step.Change? && id < |s.db.files|
    ensures id < |Next(s, step).db.files|
    ensures Onwards(StatusOf(s.db, id), StatusOf(Next(s, step).db, id))
  {
    match step
    case SignOff(j) =>
      if j < |s.jobs| && s.jobs[j].SigningOff? {
        SignOffMovesOn(s.db, s.jobs[j].id, s.jobs[j].latest, id);
      }
    case Queue(queued) => QueueMovesOn(s.db, queued, {PaymentReceived}, id);
    case SettleInvoice(queued) => QueueMovesOn(s.db, queued, {PaymentPending, PaymentReceived}, id);
    case _ => OthersStay(s, step, id);
  }

  lemma OthersStay(s: System, step: Step, id: Id)
    requires step.Receive? || step.Upload? || step.AskSignOff? || step.AskChange? || step.EnterByHand? || step.Reset?
    requires id < |s.db.files|
    ensures id < |Next(s, step).db.files| && StatusOf(Next(s, step).db, id) == StatusOf(s.db, id)
  {
  }

  /** A transaction that would write a decision, the website's or an operator's. */
  predicate Decides(s: System, step: Step, id: Id) {
    || (&& Applies(s, step, id)
        && s.jobs[step.job].payload.stage.Some? && IsDecisionStage(s.jobs[step.job].payload.stage.value))
    || (Changes(s, step, id) && IsDecisionStatus(s.jobs[step.job].to))
  }

  lemma StepStaysOnLadder(s: System, step: Step, id: Id)
    requires SysInv(s) && !Decides(s, step, id)
    requires id < |s.db.files| && !IsDecisionStatus(StatusOf(s.db, id))
    ensures id < |Next(s, step).db.files| && !IsDecisionStatus(StatusOf(Next(s, step).db, id))
  {
    if Mirroring(step) {
      MirrorMoves(s, step, id);
      if Applies(s, step, id) && s.jobs[step.job].payload.stage.Some? {
        EffectiveOnLadder(s.jobs[step.job].payload.stage.value, Told(s, step, id).verified);
      }
    } else if step.Change? {
      ChangeMoves(s, step, id);
    } else {
      OthersMoveOn(s, step, id);
    }
  }

  /**
   * Over any run without a decision about the record, the record never moves back as long
   * as none of its snapshots is overtaken and no operator's change of it takes it back:
   * not when its certificate is uploaded again at Dispatch, and not when the snapshots that
   * follow are late, repeated or out of order.
   */
  lemma {:induction false} NeverDraggedBack(s: System, steps: seq<Step>, id: Id)
    requires SysInv(s) && id < |s.db.files| && !IsDecisionStatus(StatusOf(s.db, id))
    requires forall k :: 0 <= k < |steps| ==> Quiet(Run(s, steps[..k]), steps[k], id)
    ensures id < |Run(s, steps).db.files| && !IsDecisionStatus(StatusOf(Run(s, steps).db, id))
    ensures LadderRank(StatusOf(Run(s, steps).db, id)) >= LadderRank(StatusOf(s.db, id))
  {
    if steps != [] {
      var front, last := steps[..|steps| - 1], steps[|steps| - 1];
      forall k | 0 <= k < |front|
        ensures Quiet(Run(s, front[..k]), front[k], id)
      {
        assert front[..k] == steps[..k] && front[k] == steps[k];
      }
      NeverDraggedBack(s, front, id);
      Runs.EveryRunKeeps(s, front);
      assert Quiet(Run(s, front), last, id);
      StepStaysOnLadder(Run(s, front), last, id);
      StepMovesBackIff(Run(s, front), last, id);
    }
  }

  predicate Quiet(s: System, step: Step, id: Id) {
    !Decides(s, step, id) && !Overtaken(s, step, id) && !TakesBack(s, step, id)
  }

  /** A sign-off asked for and committed at Certificate Verification. */
  lemma SignedAtOnce(s: System, id: Id)
    requires SysInv(s) && VerifyAccepted(s.db, id) && StatusOf(s.db, id) == CertificatePending
    ensures var signed := Next(Next(s, AskSignOff(id)), SignOff(|s.jobs|));
            && SysInv(signed) && |signed.db.files| == |s.db.files|
            && signed.jobs == s.jobs + [Finished]
            && StatusOf(signed.db, id) == DispatchPending
            && SignedOff(signed.db.files[id].certificate)
  {
    Runs.StepKeeps(s, AskSignOff(id));
    Runs.StepKeeps(Next(s, AskSignOff(id)), SignOff(|s.jobs|));
  }

  /**
   * A sign-off between a snapshot's read and its transaction: the record goes to Dispatch
   * and the transaction, remembering Certificate Verification, takes it back.
   */
  lemma SignOffOvertakesSnapshot(s: System, j: nat, id: Id, now: Time)
    requires SysInv(s) && j < |s.jobs| && s.jobs[j].Applying? && s.jobs[j].known.id == id
    requires s.jobs[j].known.status == CertificatePending && s.jobs[j].payload.stage == Some(CertificateIssued)
    requires VerifyAccepted(s.db, id) && StatusOf(s.db, id) == CertificatePending
    ensures var signed := Next(Next(s, AskSignOff(id)), SignOff(|s.jobs|));
            && id < |signed.db.files| && StatusOf(signed.db, id) == DispatchPending
            && Overtaken(signed, Commit(j, now), id)
            && id < |Next(signed, Commit(j, now)).db.files|
            && StatusOf(Next(signed, Commit(j, now)).db, id) == CertificateUploaded
  {
    SignedAtOnce(s, id);
    TakenBack(Next(Next(s, AskSignOff(id)), SignOff(|s.jobs|)), j, id, now);
  }

  lemma TakenBack(s: System, j: nat, id: Id, now: Time)
    requires SysInv(s) && j < |s.jobs| && s.jobs[j].Applying? && s.jobs[j].known.id == id
    requires s.jobs[j].known.status == CertificatePending && s.jobs[j].payload.stage == Some(CertificateIssued)
    requires id < |s.db.files| && StatusOf(s.db, id) == DispatchPending && SignedOff(s.db.files[id].certificate)
    ensures Overtaken(s, Commit(j, now), id)
    ensures id < |Next(s, Commit(j, now)).db.files|
    ensures StatusOf(Next(s, Commit(j, now)).db, id) == CertificateUploaded
  {
    CommitStepMoves(s, j, now, id);
  }

  // ── Whole runs ───────────────────────────────────────────────────────────

  /** The record a sign-off is committed for, by an employee, in this step. */
  predicate Signs(s: System, step: Step, id: Id) {
    step.SignOff? && step.job < |s.jobs| && s.jobs[step.job].SigningOff? && s.jobs[step.job].id == id
  }

  function SignedBy(s: System, step: Step): set<Id> {
    if step.SignOff? && step.job < |s.jobs| && s.jobs[step.job].SigningOff? then {s.jobs[step.job].id} else {}
  }

  /** The records an employee has signed a certificate off for, at some point of the run. */
  function Signers(s: System, steps: seq<Step>): set<Id> {
    if steps == [] then {}
    else
      var front := steps[..|steps| - 1];
      Signers(s, front) + SignedBy(Run(s, front), steps[|steps| - 1])
  }

  /** A record mirrored from the website that looks finished with its certificate stage. */
  predicate LooksCertified(f: File) {
    f.record.externalId.Some? && (PastGate(f.record.status) || SignedOff(f.certificate))
  }

  /** An operator's change, accepted and not yet written, that will take a mirrored record past the gate. */
  predicate PassesGate(s: System, job: Job) {
    && job.Moving? && PastGate(job.to)
    && job.id < |s.db.files| && s.db.files[job.id].record.externalId.Some?
  }

  /**
   * Every record that looks finished was signed for, and so was every one an operator is
   * about to move past the gate.
   */
  predicate OnlySigned(s: System, signed: set<Id>) {
    && (forall id :: 0 <= id < |s.db.files| && LooksCertified(s.db.files[id]) ==> id in signed)
    && (forall j :: 0 <= j < |s.jobs| && PassesGate(s, s.jobs[j]) ==> s.jobs[j].id in signed)
  }

  /** Operators' changes under way stay what they were, on records that stay what they are. */
  lemma PassingStays(s: System, step: Step)
    requires SysInv(s) && !step.AskChange?
    ensures forall j :: 0 <= j < |Next(s, step).jobs| && PassesGate(Next(s, step), Next(s, step).jobs[j]) ==>
              j < |s.jobs| && Next(s, step).jobs[j] == s.jobs[j] && PassesGate(s, s.jobs[j])
  {
    var after := Next(s, step);
    Runs.StepKeeps(s, step);
    forall j | 0 <= j < |after.jobs| && PassesGate(after, after.jobs[j])
      ensures j < |s.jobs| && after.jobs[j] == s.jobs[j] && PassesGate(s, s.jobs[j])
    {
      MovingIsOld(s, step, j);
      assert JobOk(s.db, s.jobs[j]);
      assert Continues(s.db.files[s.jobs[j].id], after.db.files[s.jobs[j].id]);
    }
  }

  lemma MovingIsOld(s: System, step: Step, j: nat)
    requires !step.AskChange? && j < |Next(s, step).jobs| && Next(s, step).jobs[j].Moving?
    ensures j < |s.jobs| && Next(s, step).jobs[j] == s.jobs[j]
  {
  }

  lemma SignedByMirror(s: System, step: Step, signed: set<Id>)
    requires SysInv(s) && OnlySigned(s, signed) && Mirroring(step)
    ensures OnlySigned(Next(s, step), signed)
  {
    var after := Next(s, step);
    PassingStays(s, step);
    MirrorCannotPassGate(s, step);
    Runs.StepKeeps(s, step);
    forall id | 0 <= id < |after.db.files| && LooksCertified(after.db.files[id])
      ensures id in signed
    {
      if id < |s.db.files| {
        MirrorMoves(s, step, id);
        assert Continues(s.db.files[id], after.db.files[id]);
      } else {
        NewRecordBelowGate(s, step);
      }
    }
  }

  /** An operator's edge past the gate starts past the gate, or is the guarded one. */
  lemma EdgesRespectGate(from: Status, to: Status)
    requires to in NextStatuses(from) && PastGate(to)
    ensures PastGate(from) || (from == CertificatePending && to == CertificateUploaded)
  {
  }

  lemma SignedByAsking(s: System, step: Step, signed: set<Id>)
    requires SysInv(s) && OnlySigned(s, signed) && step.AskChange?
    ensures OnlySigned(Next(s, step), signed)
  {
    if ChangeAccepted(s.db, step.id, step.to, step.permitted) && PastGate(step.to) {
      EdgesRespectGate(StatusOf(s.db, step.id), step.to);
    }
  }

  /** A record that newly looks finished was just signed for, or an operator just moved it. */
  lemma OthersCertify(s: System, step: Step, id: Id)
    requires SysInv(s) && !Mirroring(step)
    requires id < |Next(s, step).db.files| && LooksCertified(Next(s, step).db.files[id])
    ensures || (id < |s.db.files| && LooksCertified(s.db.files[id]))
            || id in SignedBy(s, step)
            || (step.Change? && step.job < |s.jobs| && PassesGate(s, s.jobs[step.job]) && s.jobs[step.job].id == id)
  {
    match step
    case Upload(_, stored, number, minted, issuedOn, pdfKey) =>
      UploadCertifies(s.db, step.id, stored, number, minted, issuedOn, pdfKey, id);
    case Queue(queued) => QueueCertifies(s.db, queued, {PaymentReceived}, id);
    case SettleInvoice(queued) => QueueCertifies(s.db, queued, {PaymentPending, PaymentReceived}, id);
    case EnterByHand(owner, status, number, terms) => EnterCertifies(s.db, owner, status, number, terms, id);
    case _ =>
  }

  lemma UploadCertifies(db: Db, uploaded: Id, stored: bool, number: Option<Text>, minted: Text, issuedOn: Time,
                        pdfKey: string, id: Id)
    requires id < |UploadTo(db, uploaded, stored, number, minted, issuedOn, pdfKey).files|
    ensures LooksCertified(UploadTo(db, uploaded, stored, number, minted, issuedOn, pdfKey).files[id]) ==>
              id < |db.files| && LooksCertified(db.files[id])
  {
  }

  lemma QueueCertifies(db: Db, queued: Id, from: set<Status>, id: Id)
    requires id < |QueueCertificate(db, queued, from).files|
    ensures LooksCertified(QueueCertificate(db, queued, from).files[id]) ==>
              id < |db.files| && LooksCertified(db.files[id])
  {
  }

  lemma EnterCertifies(db: Db, owner: Option<Id>, status: Status, number: Option<Text>, terms: Terms, id: Id)
    requires id < |EnterRecord(db, owner, status, number, terms).files|
    ensures LooksCertified(EnterRecord(db, owner, status, number, terms).files[id]) ==>
              id < |db.files| && LooksCertified(db.files[id])
  {
  }

  lemma SignedByOthers(s: System, step: Step, signed: set<Id>)
    requires SysInv(s) && OnlySigned(s, signed) && !Mirroring(step) && !step.AskChange?
    ensures OnlySigned(Next(s, step), signed + SignedBy(s, step))
  {
    PassingStays(s, step);
    forall id | 0 <= id < |Next(s, step).db.files| && LooksCertified(Next(s, step).db.files[id])
      ensures id in signed + SignedBy(s, step)
    {
      OthersCertify(s, step, id);
    }
  }

  lemma {:induction false} SignedThroughout(s: System, steps: seq<Step>)
    requires SysInv(s) && OnlySigned(s, {})
    ensures OnlySigned(Run(s, steps), Signers(s, steps))
  {
    if steps != [] {
      var front, last := steps[..|steps| - 1], steps[|steps| - 1];
      var before := Run(s, front);
      Runs.EveryRunKeeps(s, front);
      SignedThroughout(s, front);
      if Mirroring(last) {
        SignedByMirror(before, last, Signers(s, front));
      } else if last.AskChange? {
        SignedByAsking(before, last, Signers(s, front));
      } else {
        SignedByOthers(before, last, Signers(s, front));
      }
    }
  }

  /** Whoever was signed for has an uploaded file. */
  predicate HaveUploads(db: Db, signed: set<Id>) {
    forall id <- signed ::
      && id < |db.files|
      && db.files[id].certificate.Some?
      && db.files[id].certificate.value.versions != []
  }

  lemma UploadsKept(s: System, step: Step, signed: set<Id>)
    requires SysInv(s) && HaveUploads(s.db, signed)
    ensures HaveUploads(Next(s, step).db, signed + SignedBy(s, step))
  {
    var after := Next(s, step).db;
    Runs.StepKeeps(s, step);
    assert forall j :: 0 <= j < |s.jobs| && s.jobs[j].SigningOff? ==> JobOk(s.db, s.jobs[j]);
    forall id | id in signed + SignedBy(s, step)
      ensures id < |after.files| && after.files[id].certificate.Some? && after.files[id].certificate.value.versions != []
    {
      assert Continues(s.db.files[id], after.files[id]);
    }
  }

  lemma {:induction false} SignersHaveUploads(s: System, steps: seq<Step>)
    requires SysInv(s)
    ensures HaveUploads(Run(s, steps).db, Signers(s, steps))
  {
    if steps != [] {
      var front := steps[..|steps| - 1];
      Runs.EveryRunKeeps(s, front);
      SignersHaveUploads(s, front);
      UploadsKept(Run(s, front), steps[|steps| - 1], Signers(s, front));
    }
  }

  lemma {:induction false} SignerSteps(s: System, steps: seq<Step>, id: Id)
    requires id in Signers(s, steps)
    ensures exists k :: 0 <= k < |steps| && Signs(Run(s, steps[..k]), steps[k], id)
  {
    var front, last := steps[..|steps| - 1], steps[|steps| - 1];
    if id in Signers(s, front) {
      SignerSteps(s, front, id);
      var k :| 0 <= k < |front| && Signs(Run(s, front[..k]), front[k], id);
      assert steps[..k] == front[..k] && steps[k] == front[k];
    } else {
      assert Signs(Run(s, steps[..|steps| - 1]), steps[|steps| - 1], id);
    }
  }

  /**
   * However the parts of imports, snapshots, replays, uploads, sign-offs, operators'
   * changes, invoices and resets interleave, a mirrored record found past Certificate
   * Verification has had its certificate signed off by an employee at some earlier step
   * of the run, and a file had been uploaded for it and still is.
   */
  lemma NothingAutomaticCompletesTheStage(steps: seq<Step>, id: Id)
    requires id < |Run(IDLE, steps).db.files|
    requires Run(IDLE, steps).db.files[id].record.externalId.Some?
    requires PastGate(StatusOf(Run(IDLE, steps).db, id))
    ensures exists k :: 0 <= k < |steps| && Signs(Run(IDLE, steps[..k]), steps[k], id)
    ensures Run(IDLE, steps).db.files[id].certificate.Some?
    ensures Run(IDLE, steps).db.files[id].certificate.value.versions != []
  {
    SignedThroughout(IDLE, steps);
    SignerSteps(IDLE, steps, id);
    SignersHaveUploads(IDLE, steps);
  }

  // ── Approval ─────────────────────────────────────────────────────────────

  /**
   * In every reachable state: versions are numbered 1 to n with `currentVersion` n; a
   * sign-off is of one of them; and the workflow's guard accepts exactly a sign-off of
   * version n.
   */
  lemma SignOffIsOfAnUpload(steps: seq<Step>, id: Id)
    requires id < |Run(IDLE, steps).db.files| && Run(IDLE, steps).db.files[id].certificate.Some?
    ensures var c := Run(IDLE, steps).db.files[id].certificate.value;
            && (forall k :: 0 <= k < |c.versions| ==> c.versions[k].version == k + 1)
            && (c.versions != [] ==> c.currentVersion == |c.versions|)
            && (c.verification == Verified ==> c.verifiedVersion.Some? && 1 <= c.verifiedVersion.value <= |c.versions|)
            && (CertificateVerified(Some(c)) <==> c.verification == Verified && SignedLatest(c))
  {
    Runs.EveryRunKeeps(IDLE, steps);
    var f := Run(IDLE, steps).db.files[id];
    assert f in Run(IDLE, steps).db.files;
  }

  /** A sign-off is of the latest upload exactly when nothing was uploaded after it was asked for. */
  lemma SignOffOfLatestIff(s: System, j: nat)
    requires SysInv(s) && j < |s.jobs| && s.jobs[j].SigningOff?
    ensures var id := s.jobs[j].id;
            && id < |s.db.files| && s.db.files[id].certificate.Some?
            && SignedOff(Next(s, SignOff(j)).db.files[id].certificate)
            && (CertificateVerified(Next(s, SignOff(j)).db.files[id].certificate)
                <==> s.jobs[j].latest == |s.db.files[id].certificate.value.versions|)
  {
    assert JobOk(s.db, s.jobs[j]);
    assert s.db.files[s.jobs[j].id] in s.db.files;
  }

  /** A sign-off that an upload has overtaken since it was asked for. */
  predicate SignsOldVersion(s: System, step: Step) {
    && step.SignOff? && step.job < |s.jobs| && s.jobs[step.job].SigningOff?
    && s.jobs[step.job].id < |s.db.files| && s.db.files[s.jobs[step.job].id].certificate.Some?
    && s.jobs[step.job].latest != |s.db.files[s.jobs[step.job].id].certificate.value.versions|
  }

  predicate AllLatest(db: Db) {
    forall i :: 0 <= i < |db.files| && db.files[i].certificate.Some? ==> SignedLatest(db.files[i].certificate.value)
  }

  lemma StepKeepsLatest(s: System, step: Step)
    requires SysInv(s) && AllLatest(s.db) && !SignsOldVersion(s, step)
    ensures AllLatest(Next(s, step).db)
  {
    var after := Next(s, step).db;
    if Mirroring(step) {
      forall i | 0 <= i < |after.files| && after.files[i].certificate.Some?
        ensures SignedLatest(after.files[i].certificate.value)
      {
        MirrorKeepsLatest(s, step, i);
      }
    } else if step.SignOff? && step.job < |s.jobs| && s.jobs[step.job].SigningOff? {
      assert JobOk(s.db, s.jobs[step.job]);
    }
  }

  lemma CommitKeepsLatest(db: Db, known: Known, p: Payload, now: Time, i: Id)
    requires Inv(db) && AllLatest(db) && i < |db.files|
    requires known.id < |db.files| && db.files[known.id].record.externalId == Some(p.externalId)
    ensures var after := CommitUpdate(db, known, p, now).files;
            |after| == |db.files| && (after[i].certificate.Some? ==> SignedLatest(after[i].certificate.value))
  {
    Crm.CommitKeeps(db, known, p, now);
    ApplyMoves(Book(db.files[known.id], db.ledger), known.id, p, known.status, now);
  }

  lemma CommitStepKeepsLatest(s: System, j: nat, now: Time, i: Id)
    requires SysInv(s) && AllLatest(s.db) && i < |s.db.files|
    ensures i < |CommitStep(s, j, now).db.files|
    ensures CommitStep(s, j, now).db.files[i].certificate.Some? ==>
              SignedLatest(CommitStep(s, j, now).db.files[i].certificate.value)
  {
    if j < |s.jobs| && s.jobs[j].Applying? {
      assert JobOk(s.db, s.jobs[j]);
      CommitKeepsLatest(s.db, s.jobs[j].known, s.jobs[j].payload, now, i);
    }
  }

  lemma MirrorKeepsLatest(s: System, step: Step, i: Id)
    requires SysInv(s) && AllLatest(s.db) && Mirroring(step)
    requires i < |Next(s, step).db.files| && Next(s, step).db.files[i].certificate.Some?
    ensures SignedLatest(Next(s, step).db.files[i].certificate.value)
  {
    if i >= |s.db.files| {
      NewRecordBelowGate(s, step);
    } else if step.Wake? {
      WakeKeepsLatest(s, step.job, i);
    } else if step.Commit? {
      CommitStepKeepsLatest(s, step.job, step.now, i);
    } else {
      ReadingKeepsPlaces(s, step);
    }
  }

  lemma WakeKeepsLatest(s: System, j: nat, i: Id)
    requires SysInv(s) && AllLatest(s.db)
    requires i < |WakeStep(s, j).db.files| && WakeStep(s, j).db.files[i].certificate.Some?
    ensures SignedLatest(WakeStep(s, j).db.files[i].certificate.value)
  {
    if j < |s.jobs| && s.jobs[j].Updating? {
      ReviveKeeps(s.db, s.jobs[j].known);
    }
  }

  /**
   * Approval never transfers, over any run in which no sign-off is overtaken by an
   * upload: a certificate that reads as verified is verified in its latest version.
   */
  lemma {:induction false} ApprovalNeverTransfers(s: System, steps: seq<Step>)
    requires SysInv(s) && AllLatest(s.db)
    requires forall k :: 0 <= k < |steps| ==> !SignsOldVersion(Run(s, steps[..k]), steps[k])
    ensures AllLatest(Run(s, steps).db)
  {
    if steps != [] {
      var front := steps[..|steps| - 1];
      forall k | 0 <= k < |front|
        ensures !SignsOldVersion(Run(s, front[..k]), front[k])
      {
        assert front[..k] == steps[..k] && front[k] == steps[k];
      }
      ApprovalNeverTransfers(s, front);
      Runs.EveryRunKeeps(s, front);
      StepKeepsLatest(Run(s, front), steps[|steps| - 1]);
    }
  }

  /**
   * An upload between a sign-off's read and its transaction: the new version has been
   * seen by nobody, the record is released to Dispatch, the mirror takes the certificate
   * for verified, and only the workflow's guard can tell.
   */
  lemma UploadOvertakesSignOff(s: System, id: Id, number: Option<Text>, minted: Text, issuedOn: Time, pdfKey: string)
    requires SysInv(s) && VerifyAccepted(s.db, id) && StatusOf(s.db, id) == CertificatePending
    ensures var asked := Next(s, AskSignOff(id));
            var uploaded := Next(asked, Upload(id, true, number, minted, issuedOn, pdfKey));
            var after := Next(uploaded, SignOff(|s.jobs|)).db;
            && |after.files| == |s.db.files|
            && |after.files[id].certificate.value.versions| == |s.db.files[id].certificate.value.versions| + 1
            && StatusOf(after, id) == DispatchPending
            && SignedOff(after.files[id].certificate)
            && !CertificateVerified(after.files[id].certificate)
  {
    assert s.db.files[id] in s.db.files;
    LatestIsCount(s.db.files[id].certificate.value.versions);
  }

  /** Along any run, a certificate's versions are only appended to and an uploaded number stays. */
  lemma VersionsNeverChange(s: System, steps: seq<Step>, id: Id)
    requires SysInv(s) && id < |s.db.files| && s.db.files[id].certificate.Some?
    ensures var before := s.db.files[id].certificate.value;
            var after := Run(s, steps).db.files;
            && id < |after| && after[id].certificate.Some?
            && before.versions <= after[id].certificate.value.versions
            && (before.versions != [] ==> after[id].certificate.value.number == before.number)
  {
    Runs.EveryRunKeeps(s, steps);
    assert Continues(s.db.files[id], Run(s, steps).db.files[id]);
  }

  /** A new upload always takes the sign-off away, whatever it was on. */
  lemma UploadWithdrawsApproval(s: System, step: Step)
    requires SysInv(s) && step.Upload? && Present(s.db, step.id) && step.stored
    ensures var before, after := s.db.files[step.id], Next(s, step).db.files[step.id];
            && !SignedOff(after.certificate)
            && !CertificateVerified(after.certificate)
            && |after.certificate.value.versions| ==
               1 + (if before.certificate.Some? then |before.certificate.value.versions| else 0)
            && after.record.status == before.record.status
  {
  }

  // ── What the certificate screen shows ────────────────────────────────────

  function ShownVerification(c: Certificate): Verification {
    if c.versions == [] then AwaitingUpload else c.verification
  }

  predicate ShownCurrentVerified(c: Certificate) {
    ShownVerification(c) == Verified && c.verifiedVersion == Some(c.currentVersion)
  }

  predicate ShownVersionVerified(c: Certificate, v: Version) {
    ShownVerification(c) == Verified && c.verifiedVersion == Some(v.version)
  }

  /** Without an upload the screen says one is awaited, whatever the row says; otherwise it says what the row says. */
  lemma ScreenStatus(c: Certificate)
    ensures c.versions == [] ==> ShownVerification(c) == AwaitingUpload && !ShownCurrentVerified(c)
    ensures c.versions != [] ==> ShownVerification(c) == c.verification
  {
  }

  lemma ScreenOf(c: Certificate, k: nat)
    requires CertificateOk(c) && k < |c.versions|
    ensures ShownCurrentVerified(c) <==> CertificateVerified(Some(c))
    ensures ShownVersionVerified(c, c.versions[k]) <==> SignedOff(Some(c)) && c.verifiedVersion == Some(k + 1)
  {
  }

  /** The screen marks exactly the version that was signed off, and calls the current one verified only if it is that one. */
  lemma ScreenTellsTheTruth(steps: seq<Step>, id: Id, k: nat)
    requires id < |Run(IDLE, steps).db.files| && Run(IDLE, steps).db.files[id].certificate.Some?
    requires k < |Run(IDLE, steps).db.files[id].certificate.value.versions|
    ensures var c := Run(IDLE, steps).db.files[id].certificate.value;
            && (ShownCurrentVerified(c) <==> CertificateVerified(Some(c)))
            && (ShownVersionVerified(c, c.versions[k]) <==> SignedOff(Some(c)) && c.verifiedVersion == Some(k + 1))
  {
    Runs.EveryRunKeeps(IDLE, steps);
    assert Run(IDLE, steps).db.files[id] in Run(IDLE, steps).db.files;
    ScreenOf(Run(IDLE, steps).db.files[id].certificate.value, k);
  }

  // ── Money over runs ──────────────────────────────────────────────────────

  /** Along any run the amount paid never falls, and no receipt is written twice. */
  lemma MoneyOnlyForward(s: System, steps: seq<Step>, id: Id)
    requires SysInv(s) && id < |s.db.files|
    ensures var after := Run(s, steps).db;
            && id < |after.files|
            && AmountPaid(after.files[id].payment) >= AmountPaid(s.db.files[id].payment)
            && s.db.ledger <= after.ledger
            && UniqueReceipts(after.ledger)
  {
    Runs.EveryRunKeeps(s, steps);
    assert Continues(s.db.files[id], Run(s, steps).db.files[id]);
  }
}
