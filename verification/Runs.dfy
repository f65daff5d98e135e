/**
 * The CRM in motion. An import, a sign-off and an operator's change each read first and
 * write in a transaction later, and any number of them may be under way; between any two
 * of their steps anything else may commit. Together the steps are every writer of a
 * record's status there is.
 */
module Runs {
  import opened Wrappers
  import opened Stages
  import opened StatusLadder
  import opened Lifecycle
  import opened Crm

  /** What a request that has read, and not yet written, remembers. */
  datatype Job =
    | Opening(key: Fingerprint, payload: Payload, owner: Option<Id>)
    | Updating(key: Fingerprint, payload: Payload, known: Known)
    | Applying(key: Fingerprint, payload: Payload, known: Known)
    | SigningOff(id: Id, latest: nat)
    | Moving(id: Id, from: Status, to: Status)
    | Finished

  /** A job keeps its number; a request whose reads already refuse it gets none. */
  datatype System = System(db: Db, jobs: seq<Job>)

  datatype Step =
    | Receive(payload: Payload)
    | Begin(key: Fingerprint, match_: Match)
    | Wake(job: nat)
    | Commit(job: nat, now: Time)
    | Fail(job: nat)
    | Upload(id: Id, stored: bool, number: Option<Text>, minted: Text, issuedOn: Time, pdfKey: string)
    | AskSignOff(id: Id)
    | SignOff(job: nat)
    | AskChange(id: Id, to: Status, permitted: bool)
    | Change(job: nat)
    | Queue(id: Id)
    | SettleInvoice(id: Id)
    | EnterByHand(owner: Option<Id>, status: Status, certificateNumber: Option<Text>, terms: Terms)
    | Reset

  function With(s: System, job: Job): System {
    s.(jobs := s.jobs + [job])
  }

  function Done(s: System, j: nat, db: Db): System
    requires j < |s.jobs|
  {
    System(db, s.jobs[j := Finished])
  }

  // ── An import, in its parts ────────────────────────────────────────────────

  /** The event is marked, and the record (or, for a new one, its owner) looked up. */
  function BeginStep(s: System, key: Fingerprint, m: Match): System {
    if key !in s.db.events then s
    else
      var p, db := s.db.events[key].payload, Attempted(s.db, key);
      var found := FindExternal(db.files, p.externalId);
      if found.Some? then With(s.(db := db), Updating(key, p, ReadKnown(db, found.value)))
      else if m.OnBlacklist? then s.(db := Note(db, key, BlockedByBlacklist))
      else With(s.(db := db), Opening(key, p, MatchedOwner(db, m)))
  }

  /** The record is revived if it was read as cleared, and the mirror row looked at. */
  function WakeStep(s: System, j: nat): System {
    if j >= |s.jobs| || !s.jobs[j].Updating? || s.jobs[j].known.id >= |s.db.files| then s
    else
      var Updating(key, p, known) := s.jobs[j];
      var db := Revive(s.db, known);
      if AlreadyApplied(db.files[known.id], p) then Done(s, j, Note(db, key, DuplicateSkipped))
      else System(db, s.jobs[j := Applying(key, p, known)])
  }

  /** The transaction. Opening an application that has a record by now breaks a unique index, and fails. */
  function CommitStep(s: System, j: nat, now: Time): System {
    if j >= |s.jobs| then s
    else
      match s.jobs[j]
      case Opening(key, p, owner) =>
        if FindExternal(s.db.files, p.externalId).Some? then Done(s, j, Note(s.db, key, Failed))
        else Done(s, j, Note(Import(s.db, p, owner, now), key, if owner.Some? then Merged else Imported))
      case Applying(key, p, known) =>
        if known.id >= |s.db.files| then s
        else Done(s, j, Note(CommitUpdate(s.db, known, p, now), key, Merged))
      case _ => s
  }

  /** Whatever goes wrong, the transaction leaves nothing behind; what was written before it stays. */
  function FailStep(s: System, j: nat): System {
    if j >= |s.jobs| then s
    else
      match s.jobs[j]
      case Opening(key, _, _) => Done(s, j, Note(s.db, key, Failed))
      case Updating(key, _, _) => Done(s, j, Note(s.db, key, Failed))
      case Applying(key, _, _) => Done(s, j, Note(s.db, key, Failed))
      case _ => Done(s, j, s.db)
  }

  // ── Every step ─────────────────────────────────────────────────────────────

  function Next(s: System, step: Step): System {
    match step
    case Receive(p) => s.(db := ReceiveEvent(s.db, p))
    case Begin(key, m) => BeginStep(s, key, m)
    case Wake(j) => WakeStep(s, j)
    case Commit(j, now) => CommitStep(s, j, now)
    case Fail(j) => FailStep(s, j)
    case Upload(id, stored, number, minted, issuedOn, pdfKey) =>
      s.(db := UploadTo(s.db, id, stored, number, minted, issuedOn, pdfKey))
    case AskSignOff(id) =>
      if VerifyAccepted(s.db, id) then With(s, SigningOff(id, Latest(s.db.files[id].certificate.value.versions))) else s
    case SignOff(j) =>
      if j < |s.jobs| && s.jobs[j].SigningOff? then Done(s, j, SignOffOf(s.db, s.jobs[j].id, s.jobs[j].latest)) else s
    case AskChange(id, to, permitted) =>
      if ChangeAccepted(s.db, id, to, permitted) then With(s, Moving(id, s.db.files[id].record.status, to)) else s
    case Change(j) =>
      if j < |s.jobs| && s.jobs[j].Moving? then Done(s, j, MoveTo(s.db, s.jobs[j].id, s.jobs[j].to)) else s
    case Queue(id) => s.(db := QueueCertificate(s.db, id, {PaymentReceived}))
    case SettleInvoice(id) => s.(db := SettleInvoiceOf(s.db, id))
    case EnterByHand(owner, status, number, terms) => s.(db := EnterRecord(s.db, owner, status, number, terms))
    case Reset => s.(db := ResetAll(s.db))
  }

  function Run(s: System, steps: seq<Step>): System {
    if steps == [] then s else Next(Run(s, steps[..|steps| - 1]), steps[|steps| - 1])
  }

  const IDLE := System(EMPTY, [])

  // ── What every step keeps ──────────────────────────────────────────────────

  /** What a job remembers was true when it read it, in every way that cannot change since. */
  predicate JobOk(db: Db, job: Job) {
    match job
    case Opening(_, p, owner) => owner.Some? ==> owner.value < |db.applicants|
    case Updating(_, p, known) => known.id < |db.files| && db.files[known.id].record.externalId == Some(p.externalId)
    case Applying(_, p, known) => known.id < |db.files| && db.files[known.id].record.externalId == Some(p.externalId)
    case SigningOff(id, latest) =>
      && id < |db.files| && db.files[id].certificate.Some?
      && 1 <= latest <= |db.files[id].certificate.value.versions|
    case Moving(id, from, to) => id < |db.files| && to in NextStatuses(from)
    case Finished => true
  }

  predicate SysInv(s: System) {
    Inv(s.db) && forall j :: 0 <= j < |s.jobs| ==> JobOk(s.db, s.jobs[j])
  }

  lemma JobsStayOk(before: Db, after: Db, jobs: seq<Job>)
    requires Grows(before, after) && forall j :: 0 <= j < |jobs| ==> JobOk(before, jobs[j])
    ensures forall j :: 0 <= j < |jobs| ==> JobOk(after, jobs[j])
  {
    forall j | 0 <= j < |jobs|
      ensures JobOk(after, jobs[j])
    {
      assert JobOk(before, jobs[j]);
      assert forall i :: 0 <= i < |before.files| ==> Continues(before.files[i], after.files[i]);
    }
  }

  lemma BeginKeeps(s: System, key: Fingerprint, m: Match)
    requires SysInv(s)
    ensures SysInv(BeginStep(s, key, m)) && Grows(s.db, BeginStep(s, key, m).db)
  {
    if key in s.db.events {
      var db := Attempted(s.db, key);
      EventsOnly(s.db, key, BlockedByBlacklist);
      EventsOnly(db, key, BlockedByBlacklist);
      JobsStayOk(s.db, BeginStep(s, key, m).db, s.jobs);
    }
  }

  lemma WakeKeeps(s: System, j: nat)
    requires SysInv(s)
    ensures SysInv(WakeStep(s, j)) && Grows(s.db, WakeStep(s, j).db)
  {
    if j < |s.jobs| && s.jobs[j].Updating? {
      var db := Revive(s.db, s.jobs[j].known);
      ReviveKeeps(s.db, s.jobs[j].known);
      EventsOnly(db, s.jobs[j].key, DuplicateSkipped);
      JobsStayOk(s.db, WakeStep(s, j).db, s.jobs);
    }
  }

  lemma CommitOpeningKeeps(s: System, j: nat, now: Time)
    requires SysInv(s) && j < |s.jobs| && s.jobs[j].Opening?
    ensures SysInv(CommitStep(s, j, now)) && Grows(s.db, CommitStep(s, j, now).db)
  {
    var Opening(key, p, owner) := s.jobs[j];
    EventsOnly(s.db, key, Failed);
    if FindExternal(s.db.files, p.externalId).None? {
      assert JobOk(s.db, s.jobs[j]);
      ImportKeeps(s.db, p, owner, now);
      EventsOnly(Import(s.db, p, owner, now), key, if owner.Some? then Merged else Imported);
    }
    JobsStayOk(s.db, CommitStep(s, j, now).db, s.jobs);
  }

  lemma CommitApplyingKeeps(s: System, j: nat, now: Time)
    requires SysInv(s) && j < |s.jobs| && s.jobs[j].Applying?
    ensures SysInv(CommitStep(s, j, now)) && Grows(s.db, CommitStep(s, j, now).db)
  {
    var Applying(key, p, known) := s.jobs[j];
    assert JobOk(s.db, s.jobs[j]);
    Crm.CommitKeeps(s.db, known, p, now);
    EventsOnly(CommitUpdate(s.db, known, p, now), key, Merged);
    JobsStayOk(s.db, CommitStep(s, j, now).db, s.jobs);
  }

  lemma FailKeeps(s: System, j: nat)
    requires SysInv(s)
    ensures SysInv(FailStep(s, j)) && Grows(s.db, FailStep(s, j).db)
  {
    if j < |s.jobs| {
      if s.jobs[j].Opening? || s.jobs[j].Updating? || s.jobs[j].Applying? {
        EventsOnly(s.db, s.jobs[j].key, Failed);
      }
      JobsStayOk(s.db, FailStep(s, j).db, s.jobs);
    }
  }

  lemma AskSignOffKeeps(s: System, id: Id)
    requires SysInv(s)
    ensures SysInv(Next(s, AskSignOff(id)))
  {
    if VerifyAccepted(s.db, id) {
      assert s.db.files[id] in s.db.files;
      LatestIsCount(s.db.files[id].certificate.value.versions);
    }
  }

  lemma SignOffStepKeeps(s: System, j: nat)
    requires SysInv(s) && j < |s.jobs| && s.jobs[j].SigningOff?
    ensures SysInv(Next(s, SignOff(j))) && Grows(s.db, Next(s, SignOff(j)).db)
  {
    assert JobOk(s.db, s.jobs[j]);
    SignOffKeeps(s.db, s.jobs[j].id, s.jobs[j].latest);
    JobsStayOk(s.db, Next(s, SignOff(j)).db, s.jobs);
  }

  lemma QueueKeeps(db: Db, id: Id, from: set<Status>)
    requires Inv(db)
    ensures Inv(QueueCertificate(db, id, from)) && Grows(db, QueueCertificate(db, id, from))
  {
    if id < |db.files| {
      MoveKeeps(db, id, Advance(db.files[id].record.status, from, CertificatePending));
    }
  }

  lemma TablesKeep(s: System, step: Step)
    requires SysInv(s)
    requires step.Receive? || step.EnterByHand? || step.Reset?
    ensures Inv(Next(s, step).db) && Grows(s.db, Next(s, step).db)
  {
    match step
    case Receive(p) =>
    case EnterByHand(owner, status, number, terms) => EnterKeeps(s.db, owner, status, number, terms);
    case Reset => ResetKeeps(s.db);
  }

  lemma OneFileKeeps(s: System, step: Step)
    requires SysInv(s) && (step.Upload? || step.Queue? || step.SettleInvoice?)
    ensures Inv(Next(s, step).db) && Grows(s.db, Next(s, step).db)
  {
    match step
    case Upload(id, stored, number, minted, issuedOn, pdfKey) =>
      UploadKeeps(s.db, id, stored, number, minted, issuedOn, pdfKey);
    case Queue(id) => QueueKeeps(s.db, id, {PaymentReceived});
    case SettleInvoice(id) => QueueKeeps(s.db, id, {PaymentPending, PaymentReceived});
  }

  lemma ImportStepsKeep(s: System, step: Step)
    requires SysInv(s) && (step.Begin? || step.Wake? || step.Commit? || step.Fail?)
    ensures SysInv(Next(s, step)) && Grows(s.db, Next(s, step).db)
  {
    match step
    case Begin(key, m) => BeginKeeps(s, key, m);
    case Wake(j) => WakeKeeps(s, j);
    case Commit(j, now) =>
      if j < |s.jobs| && s.jobs[j].Opening? {
        CommitOpeningKeeps(s, j, now);
      } else if j < |s.jobs| && s.jobs[j].Applying? {
        CommitApplyingKeeps(s, j, now);
      }
    case Fail(j) => FailKeeps(s, j);
  }

  lemma EmployeeStepsKeep(s: System, step: Step)
    requires SysInv(s) && (step.AskSignOff? || step.SignOff? || step.AskChange? || step.Change?)
    ensures SysInv(Next(s, step)) && Grows(s.db, Next(s, step).db)
  {
    match step
    case AskSignOff(id) => AskSignOffKeeps(s, id);
    case SignOff(j) =>
      if j < |s.jobs| && s.jobs[j].SigningOff? {
        SignOffStepKeeps(s, j);
      }
    case AskChange(_, _, _) =>
    case Change(j) =>
      if j < |s.jobs| && s.jobs[j].Moving? {
        MoveKeeps(s.db, s.jobs[j].id, s.jobs[j].to);
        JobsStayOk(s.db, Next(s, step).db, s.jobs);
      }
  }

  lemma StepKeeps(s: System, step: Step)
    requires SysInv(s)
    ensures SysInv(Next(s, step)) && Grows(s.db, Next(s, step).db)
  {
    if step.Begin? || step.Wake? || step.Commit? || step.Fail? {
      ImportStepsKeep(s, step);
    } else if step.AskSignOff? || step.SignOff? || step.AskChange? || step.Change? {
      EmployeeStepsKeep(s, step);
    } else {
      if step.Upload? || step.Queue? || step.SettleInvoice? {
        OneFileKeeps(s, step);
      } else {
        TablesKeep(s, step);
      }
      JobsStayOk(s.db, Next(s, step).db, s.jobs);
    }
  }

  /**
   * In every reachable state, however the parts of requests interleave and whichever of
   * them fail: no external id has two records, no receipt is banked twice, every
   * certificate is in order; and along the way money, receipts, versions and uploaded
   * numbers are only ever added to.
   */
  lemma {:induction false} EveryRunKeeps(s: System, steps: seq<Step>)
    requires SysInv(s)
    ensures SysInv(Run(s, steps)) && Grows(s.db, Run(s, steps).db)
  {
    if steps != [] {
      var before := Run(s, steps[..|steps| - 1]);
      EveryRunKeeps(s, steps[..|steps| - 1]);
      StepKeeps(before, steps[|steps| - 1]);
      GrowsTransitive(s.db, before.db, Run(s, steps).db);
    }
  }

  /** While an import is under way its event says so, and counts the attempt. */
  lemma BegunIsProcessing(s: System, key: Fingerprint, m: Match)
    requires key in s.db.events && Next(s, Begin(key, m)).jobs != s.jobs
    ensures key in Next(s, Begin(key, m)).db.events
    ensures Next(s, Begin(key, m)).db.events[key] ==
              Event(s.db.events[key].payload, Processing, s.db.events[key].attempts + 1)
  {
  }

  /** A first import that another one of its application has overtaken fails, and writes nothing else. */
  lemma OpenedTwiceFails(s: System, j: nat, now: Time)
    requires SysInv(s) && j < |s.jobs| && s.jobs[j].Opening? && s.jobs[j].key in s.db.events
    requires FindExternal(s.db.files, s.jobs[j].payload.externalId).Some?
    ensures var key, after := s.jobs[j].key, Next(s, Commit(j, now)).db;
            && after.files == s.db.files && after.ledger == s.db.ledger && after.applicants == s.db.applicants
            && after.events == s.db.events[key := s.db.events[key].(status := Failed)]
  {
  }

  /** A failure ends the request it happens to. */
  lemma FailureEnds(s: System, j: nat)
    requires j < |s.jobs|
    ensures Next(s, Fail(j)).jobs == s.jobs[j := Finished]
    ensures Next(s, Fail(j)).db.files == s.db.files && Next(s, Fail(j)).db.ledger == s.db.ledger
  {
  }

  /** An invoice settled, a record entered at the desk and a reset happen at once. */
  lemma AtOnce(s: System, id: Id, owner: Option<Id>, status: Status, number: Option<Text>, terms: Terms)
    ensures id < |s.db.files| && s.db.files[id].record.status in {PaymentPending, PaymentReceived} ==>
              var after := Next(s, SettleInvoice(id)).db;
              |after.files| == |s.db.files| && after.files[id].record.status == CertificatePending
    ensures var after := Next(s, EnterByHand(owner, status, number, terms)).db;
            |after.files| == |s.db.files| + 1 && after.files[|s.db.files|].record.status == status
    ensures Next(s, Reset).db.events == map[] && forall f <- Next(s, Reset).db.files :: f.mirror.None?
  {
    var reset := Next(s, Reset).db;
    assert forall i :: 0 <= i < |reset.files| ==> reset.files[i] == Cleared(s.db.files[i]);
  }

  // ── Undisturbed, the parts are the whole ───────────────────────────────────

  function Three(s: System, a: Step, b: Step, c: Step): System {
    Next(Next(Next(s, a), b), c)
  }

  /** What an import of a known application has in hand once it has begun, and once it has revived the record. */
  lemma BegunOnKnown(s: System, key: Fingerprint, m: Match)
    requires key in s.db.events && FindExternal(s.db.files, s.db.events[key].payload.externalId).Some?
    ensures var p, db := s.db.events[key].payload, Attempted(s.db, key);
            Next(s, Begin(key, m)) ==
              System(db, s.jobs + [Updating(key, p, ReadKnown(db, FindExternal(db.files, p.externalId).value))])
  {
  }

  lemma WokenUp(db: Db, jobs: seq<Job>, key: Fingerprint, p: Payload, known: Known)
    requires known.id < |db.files|
    ensures var revived := Revive(db, known);
            Next(System(db, jobs + [Updating(key, p, known)]), Wake(|jobs|)) ==
              if AlreadyApplied(revived.files[known.id], p) then System(Note(revived, key, DuplicateSkipped), jobs + [Finished])
              else System(revived, jobs + [Applying(key, p, known)])
  {
    assert (jobs + [Updating(key, p, known)])[|jobs| := Finished] == jobs + [Finished];
    assert (jobs + [Updating(key, p, known)])[|jobs| := Applying(key, p, known)] == jobs + [Applying(key, p, known)];
  }

  lemma UndisturbedUpdate(s: System, key: Fingerprint, m: Match, now: Time)
    requires SysInv(s) && key in s.db.events
    requires FindExternal(s.db.files, s.db.events[key].payload.externalId).Some?
    ensures Three(s, Begin(key, m), Wake(|s.jobs|), Commit(|s.jobs|, now)).db == ProcessEvent(s.db, key, m, now)
  {
    var p, db := s.db.events[key].payload, Attempted(s.db, key);
    BegunOnKnown(s, key, m);
    WokenUp(db, s.jobs, key, p, ReadKnown(db, FindExternal(db.files, p.externalId).value));
  }

  /** An import none of whose parts is overtaken is one `ProcessEvent`. */
  lemma UndisturbedImport(s: System, key: Fingerprint, m: Match, now: Time)
    requires SysInv(s)
    ensures Three(s, Begin(key, m), Wake(|s.jobs|), Commit(|s.jobs|, now)).db == ProcessEvent(s.db, key, m, now)
  {
    if key in s.db.events && FindExternal(s.db.files, s.db.events[key].payload.externalId).Some? {
      UndisturbedUpdate(s, key, m, now);
    }
  }

  lemma FailsBeforeWriting(s: System, key: Fingerprint, m: Match, now: Time)
    requires key in s.db.events && Next(s, Begin(key, m)).jobs != s.jobs
    ensures Next(Next(s, Begin(key, m)), Fail(|s.jobs|)).db == ProcessWith(s.db, key, m, now, BeforeWriting)
  {
  }

  lemma FailsUpdating(s: System, key: Fingerprint, m: Match, now: Time)
    requires SysInv(s) && key in s.db.events
    requires FindExternal(s.db.files, s.db.events[key].payload.externalId).Some?
    ensures Three(s, Begin(key, m), Wake(|s.jobs|), Fail(|s.jobs|)).db == ProcessWith(s.db, key, m, now, InTransaction)
  {
    var p, db := s.db.events[key].payload, Attempted(s.db, key);
    BegunOnKnown(s, key, m);
    WokenUp(db, s.jobs, key, p, ReadKnown(db, FindExternal(db.files, p.externalId).value));
  }

  lemma FailsOpening(s: System, key: Fingerprint, m: Match, now: Time)
    requires key in s.db.events ==> FindExternal(s.db.files, s.db.events[key].payload.externalId).None?
    ensures Three(s, Begin(key, m), Wake(|s.jobs|), Fail(|s.jobs|)).db == ProcessWith(s.db, key, m, now, InTransaction)
  {
    if key in s.db.events && !m.OnBlacklist? {
      assert Next(Next(s, Begin(key, m)), Wake(|s.jobs|)) == Next(s, Begin(key, m));
    }
  }

  /** And one that fails is the same with the fault. */
  lemma UndisturbedFailure(s: System, key: Fingerprint, m: Match, now: Time)
    requires SysInv(s)
    ensures key in s.db.events && Next(s, Begin(key, m)).jobs != s.jobs ==>
              Next(Next(s, Begin(key, m)), Fail(|s.jobs|)).db == ProcessWith(s.db, key, m, now, BeforeWriting)
    ensures Three(s, Begin(key, m), Wake(|s.jobs|), Fail(|s.jobs|)).db == ProcessWith(s.db, key, m, now, InTransaction)
  {
    if key in s.db.events && Next(s, Begin(key, m)).jobs != s.jobs {
      FailsBeforeWriting(s, key, m, now);
    }
    if key in s.db.events && FindExternal(s.db.files, s.db.events[key].payload.externalId).Some? {
      FailsUpdating(s, key, m, now);
    } else {
      FailsOpening(s, key, m, now);
    }
  }

  lemma UndisturbedSignOff(s: System, id: Id)
    ensures Next(Next(s, AskSignOff(id)), SignOff(|s.jobs|)).db == VerifyCertificate(s.db, id)
  {
  }

  lemma UndisturbedChange(s: System, id: Id, to: Status, permitted: bool)
    ensures ChangeStatusOf(s.db, id, to, permitted) ==
              if ChangeAccepted(s.db, id, to, permitted) && to == PaymentReceived
              then Three(s, AskChange(id, to, permitted), Change(|s.jobs|), Queue(id)).db
              else Next(Next(s, AskChange(id, to, permitted)), Change(|s.jobs|)).db
  {
  }

  // ── What most steps leave alone ────────────────────────────────────────────

  /** Every record keeps its owner, its place on the website, its mirror row, and whether it is deleted. */
  predicate SamePlaces(before: Db, after: Db) {
    && before.applicants == after.applicants
    && |before.files| == |after.files|
    && forall i :: 0 <= i < |before.files| ==> SamePlace(before.files[i], after.files[i])
  }

  predicate SamePlace(before: File, after: File) {
    && after.record.applicant == before.record.applicant
    && after.record.externalId == before.record.externalId
    && after.record.deleted == before.record.deleted
    && after.mirror == before.mirror
  }

  predicate Reading(step: Step) {
    step.Receive? || step.Begin? || step.Fail? || step.AskSignOff? || step.AskChange?
  }

  predicate Writing(step: Step) {
    step.Upload? || step.SignOff? || step.Change? || step.Queue? || step.SettleInvoice?
  }

  lemma ReadingKeepsPlaces(s: System, step: Step)
    requires Reading(step)
    ensures Next(s, step).db.files == s.db.files && SamePlaces(s.db, Next(s, step).db)
  {
  }

  lemma WritingKeepsPlaces(s: System, step: Step)
    requires Writing(step)
    ensures SamePlaces(s.db, Next(s, step).db)
  {
  }

  // ── Live records have live owners ──────────────────────────────────────────

  predicate OwnersLive(s: System) {
    && RowsOwned(s.db)
    && (forall j :: 0 <= j < |s.jobs| && s.jobs[j].Opening? && s.jobs[j].owner.Some? ==>
          LiveApplicant(s.db, s.jobs[j].owner.value))
  }

  /** No import under way is opening a record for someone a reset would clear. */
  predicate ResetSafe(s: System) {
    forall j :: 0 <= j < |s.jobs| && s.jobs[j].Opening? && s.jobs[j].owner.Some? ==>
      Survives(s.db, s.jobs[j].owner.value) || !OwnsMirrored(s.db, s.jobs[j].owner.value)
  }

  /** A reset leaves every live record, and every import under way, a live owner exactly when it is safe. */
  lemma ResetKeepsOwnersIff(s: System)
    requires SysInv(s) && OwnersLive(s)
    ensures OwnersLive(Next(s, Reset)) <==> ResetSafe(s)
  {
    var after := Next(s, Reset);
    forall f | f in after.db.files && !f.record.deleted
      ensures LiveApplicant(after.db, f.record.applicant)
    {
      var i :| 0 <= i < |after.db.files| && after.db.files[i] == f;
      assert s.db.files[i] in s.db.files;
      assert Survives(s.db, f.record.applicant);
    }
  }

  predicate RowsOwned(db: Db) {
    forall f <- db.files :: !f.record.deleted ==> LiveApplicant(db, f.record.applicant)
  }

  lemma SamePlacesOwned(before: Db, after: Db)
    requires SamePlaces(before, after) && RowsOwned(before)
    ensures RowsOwned(after)
  {
    forall f | f in after.files && !f.record.deleted
      ensures LiveApplicant(after, f.record.applicant)
    {
      var i :| 0 <= i < |after.files| && after.files[i] == f;
      assert SamePlace(before.files[i], after.files[i]) && before.files[i] in before.files;
    }
  }

  /** Jobs only come with a live owner, and applicants stay as they are. */
  lemma JobsOwned(s: System, step: Step)
    requires OwnersLive(s) && (Reading(step) || Writing(step))
    ensures var after := Next(s, step);
            forall j :: 0 <= j < |after.jobs| && after.jobs[j].Opening? && after.jobs[j].owner.Some? ==>
              LiveApplicant(after.db, after.jobs[j].owner.value)
  {
    if Reading(step) {
      ReadingKeepsPlaces(s, step);
    } else {
      WritingKeepsPlaces(s, step);
    }
  }

  lemma ReviveKeepsOwners(s: System, known: Known)
    requires SysInv(s) && OwnersLive(s)
    ensures OwnersLive(s.(db := Revive(s.db, known)))
  {
    ReviveKeeps(s.db, known);
    var after := Revive(s.db, known);
    forall f | f in after.files && !f.record.deleted
      ensures LiveApplicant(after, f.record.applicant)
    {
      var i :| 0 <= i < |after.files| && after.files[i] == f;
      assert s.db.files[i] in s.db.files;
    }
  }

  lemma CommitApplyingOwned(db: Db, known: Known, p: Payload, now: Time)
    requires Inv(db) && RowsOwned(db)
    requires known.id < |db.files| && db.files[known.id].record.externalId == Some(p.externalId)
    ensures RowsOwned(CommitUpdate(db, known, p, now))
  {
    Crm.CommitKeeps(db, known, p, now);
    var after := CommitUpdate(db, known, p, now);
    forall f | f in after.files && !f.record.deleted
      ensures LiveApplicant(after, f.record.applicant)
    {
      var i :| 0 <= i < |after.files| && after.files[i] == f;
      assert Continues(db.files[i], after.files[i]) && db.files[i] in db.files;
    }
  }

  lemma ImportOwned(db: Db, p: Payload, owner: Option<Id>, now: Time)
    requires RowsOwned(db) && (owner.Some? ==> LiveApplicant(db, owner.value))
    ensures RowsOwned(Import(db, p, owner, now))
  {
    ImportedFile(db, p, owner, now);
  }

  lemma EnterOwned(s: System, step: Step)
    requires OwnersLive(s) && step.EnterByHand?
    ensures OwnersLive(Next(s, step))
  {
  }

  lemma CommitKeepsOwners(s: System, j: nat, now: Time)
    requires SysInv(s) && OwnersLive(s)
    ensures OwnersLive(CommitStep(s, j, now))
  {
    if j < |s.jobs| && s.jobs[j].Applying? {
      assert JobOk(s.db, s.jobs[j]);
      CommitApplyingOwned(s.db, s.jobs[j].known, s.jobs[j].payload, now);
    } else if j < |s.jobs| && s.jobs[j].Opening? {
      ImportOwned(s.db, s.jobs[j].payload, s.jobs[j].owner, now);
    }
  }

  lemma StepKeepsOwners(s: System, step: Step)
    requires SysInv(s) && OwnersLive(s) && (step.Reset? ==> ResetSafe(s))
    ensures OwnersLive(Next(s, step))
  {
    if Reading(step) || Writing(step) {
      if Reading(step) {
        ReadingKeepsPlaces(s, step);
      } else {
        WritingKeepsPlaces(s, step);
      }
      SamePlacesOwned(s.db, Next(s, step).db);
      JobsOwned(s, step);
    } else if step.Wake? {
      WakeKeepsOwners(s, step.job);
    } else if step.Commit? {
      CommitKeepsOwners(s, step.job, step.now);
    } else if step.Reset? {
      ResetKeepsOwnersIff(s);
    } else {
      EnterOwned(s, step);
    }
  }

  lemma WakeKeepsOwners(s: System, j: nat)
    requires SysInv(s) && OwnersLive(s)
    ensures OwnersLive(WakeStep(s, j))
  {
    if j < |s.jobs| && s.jobs[j].Updating? {
      ReviveKeepsOwners(s, s.jobs[j].known);
    }
  }

  /** Over any run whose resets are safe, every live record's owner is live. */
  lemma {:induction false} OwnersStayLive(s: System, steps: seq<Step>)
    requires SysInv(s) && OwnersLive(s)
    requires forall k :: 0 <= k < |steps| && steps[k].Reset? ==> ResetSafe(Run(s, steps[..k]))
    ensures OwnersLive(Run(s, steps))
  {
    if steps != [] {
      var front := steps[..|steps| - 1];
      forall k | 0 <= k < |front| && front[k].Reset?
        ensures ResetSafe(Run(s, front[..k]))
      {
        assert front[..k] == steps[..k] && front[k] == steps[k];
      }
      OwnersStayLive(s, front);
      EveryRunKeeps(s, front);
      StepKeepsOwners(Run(s, front), steps[|steps| - 1]);
    }
  }

  /** An import that a reset overtakes opens a live record under an applicant who has been cleared. */
  lemma ResetDuringImport(s: System, j: nat, now: Time)
    requires SysInv(s) && j < |s.jobs| && s.jobs[j].Opening? && s.jobs[j].owner.Some?
    requires FindExternal(s.db.files, s.jobs[j].payload.externalId).None?
    requires OwnsMirrored(s.db, s.jobs[j].owner.value) && !Survives(s.db, s.jobs[j].owner.value)
    ensures var after := Next(Next(s, Reset), Commit(j, now)).db;
            && |after.files| == |s.db.files| + 1
            && !after.files[|s.db.files|].record.deleted
            && !LiveApplicant(after, after.files[|s.db.files|].record.applicant)
  {
    var reset := Next(s, Reset);
    ImportedFile(reset.db, s.jobs[j].payload, s.jobs[j].owner, now);
    assert JobOk(s.db, s.jobs[j]);
  }

  // ── Live website records have mirror rows ──────────────────────────────────

  predicate BeingApplied(s: System, id: Id) {
    exists j :: 0 <= j < |s.jobs| && s.jobs[j].Applying? && s.jobs[j].known.id == id
  }

  predicate MirrorMissing(f: File) {
    f.record.externalId.Some? && !f.record.deleted && f.mirror.None?
  }

  /** A live website record without a mirror row is one that a snapshot is just being applied to. */
  predicate MirrorsPresent(s: System) {
    forall i :: 0 <= i < |s.db.files| && MirrorMissing(s.db.files[i]) ==> BeingApplied(s, i)
  }

  /** Nothing but the failure of an application loses the mirror row of a record that has been revived. */
  lemma StepKeepsMirrors(s: System, step: Step)
    requires SysInv(s) && MirrorsPresent(s)
    requires step.Fail? && step.job < |s.jobs| ==> !s.jobs[step.job].Applying?
    ensures MirrorsPresent(Next(s, step))
  {
    var after := Next(s, step);
    StepKeeps(s, step);
    forall i | 0 <= i < |after.db.files| && MirrorMissing(after.db.files[i])
      ensures BeingApplied(after, i)
    {
      MirrorAfter(s, step, i);
    }
  }

  /** A record that lacked its row before still does, and the job that will write it is still there. */
  lemma StillApplied(s: System, after: System, i: Id, changed: nat)
    requires MirrorsPresent(s) && i < |s.db.files| && MirrorMissing(s.db.files[i])
    requires |s.jobs| <= |after.jobs|
    requires forall j :: 0 <= j < |s.jobs| && j != changed ==> after.jobs[j] == s.jobs[j]
    requires changed < |s.jobs| && s.jobs[changed].Applying? && s.jobs[changed].known.id == i ==>
               after.jobs[changed] == s.jobs[changed]
    ensures BeingApplied(after, i)
  {
    var j :| 0 <= j < |s.jobs| && s.jobs[j].Applying? && s.jobs[j].known.id == i;
    assert after.jobs[j] == s.jobs[j];
  }

  lemma MirrorAfterWake(s: System, j: nat, i: Id)
    requires SysInv(s) && MirrorsPresent(s)
    requires i < |WakeStep(s, j).db.files| && MirrorMissing(WakeStep(s, j).db.files[i])
    ensures BeingApplied(WakeStep(s, j), i)
  {
    var after := WakeStep(s, j);
    if j < |s.jobs| && s.jobs[j].Updating? {
      ReviveKeeps(s.db, s.jobs[j].known);
      if s.jobs[j].known.id == i {
        assert after.jobs[j].Applying?;
      } else {
        StillApplied(s, after, i, j);
      }
    }
  }

  lemma RowWritten(db: Db, known: Known, p: Payload, now: Time, i: Id)
    requires Inv(db) && i < |db.files|
    requires known.id < |db.files| && db.files[known.id].record.externalId == Some(p.externalId)
    ensures var after := CommitUpdate(db, known, p, now).files;
            |after| == |db.files| && (MirrorMissing(after[i]) ==> i != known.id && after[i] == db.files[i])
  {
    Crm.CommitKeeps(db, known, p, now);
  }

  lemma RowOpened(db: Db, p: Payload, owner: Option<Id>, now: Time, i: Id)
    requires i < |Import(db, p, owner, now).files|
    ensures MirrorMissing(Import(db, p, owner, now).files[i]) ==>
              i < |db.files| && Import(db, p, owner, now).files[i] == db.files[i]
  {
    ImportedFile(db, p, owner, now);
  }

  lemma MirrorAfterCommit(s: System, j: nat, now: Time, i: Id)
    requires SysInv(s) && MirrorsPresent(s)
    requires i < |CommitStep(s, j, now).db.files| && MirrorMissing(CommitStep(s, j, now).db.files[i])
    ensures BeingApplied(CommitStep(s, j, now), i)
  {
    var after := CommitStep(s, j, now);
    if j < |s.jobs| && s.jobs[j].Applying? {
      assert JobOk(s.db, s.jobs[j]);
      RowWritten(s.db, s.jobs[j].known, s.jobs[j].payload, now, i);
      StillApplied(s, after, i, j);
    } else if j < |s.jobs| && s.jobs[j].Opening? {
      if after.db.files != s.db.files {
        RowOpened(s.db, s.jobs[j].payload, s.jobs[j].owner, now, i);
      }
      StillApplied(s, after, i, j);
    }
  }

  lemma MirrorAfterQuiet(s: System, step: Step, i: Id)
    requires SysInv(s) && MirrorsPresent(s) && (Reading(step) || Writing(step))
    requires step.Fail? && step.job < |s.jobs| ==> !s.jobs[step.job].Applying?
    requires i < |Next(s, step).db.files| && MirrorMissing(Next(s, step).db.files[i])
    ensures BeingApplied(Next(s, step), i)
  {
    if Reading(step) {
      ReadingKeepsPlaces(s, step);
    } else {
      WritingKeepsPlaces(s, step);
    }
    assert SamePlace(s.db.files[i], Next(s, step).db.files[i]);
    var changed := if step.Fail? || step.SignOff? || step.Change? then step.job else |s.jobs|;
    StillApplied(s, Next(s, step), i, changed);
  }

  lemma MirrorAfter(s: System, step: Step, i: Id)
    requires SysInv(s) && MirrorsPresent(s)
    requires step.Fail? && step.job < |s.jobs| ==> !s.jobs[step.job].Applying?
    requires i < |Next(s, step).db.files| && MirrorMissing(Next(s, step).db.files[i])
    ensures BeingApplied(Next(s, step), i)
  {
    if Reading(step) || Writing(step) {
      MirrorAfterQuiet(s, step, i);
    } else if step.Wake? {
      MirrorAfterWake(s, step.job, i);
    } else if step.Commit? {
      MirrorAfterCommit(s, step.job, step.now, i);
    } else {
      StillApplied(s, Next(s, step), i, |s.jobs|);
    }
  }

  /** Over any run in which no application fails, only a record a snapshot is just being applied to lacks its row. */
  lemma {:induction false} MirrorsStayPresent(s: System, steps: seq<Step>)
    requires SysInv(s) && MirrorsPresent(s)
    requires forall k :: 0 <= k < |steps| && steps[k].Fail? && steps[k].job < |Run(s, steps[..k]).jobs| ==>
               !Run(s, steps[..k]).jobs[steps[k].job].Applying?
    ensures MirrorsPresent(Run(s, steps))
  {
    if steps != [] {
      var front := steps[..|steps| - 1];
      forall k | 0 <= k < |front| && front[k].Fail? && front[k].job < |Run(s, front[..k]).jobs|
        ensures !Run(s, front[..k]).jobs[front[k].job].Applying?
      {
        assert front[..k] == steps[..k] && front[k] == steps[k];
      }
      MirrorsStayPresent(s, front);
      EveryRunKeeps(s, front);
      StepKeepsMirrors(Run(s, front), steps[|steps| - 1]);
    }
  }
}
