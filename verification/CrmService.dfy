/**
 * The services that change the mirror's tables, step by step, each tied to the meaning
 * of its transaction in `Lifecycle` and `Crm`.
 */
module CrmService {
  import opened Wrappers
  import opened Stages
  import opened StatusLadder
  import opened Lifecycle
  import opened Crm

  class Service {
    var files: seq<File>
    var ledger: seq<Receipt>
    var applicants: seq<Applicant>
    var events: map<Fingerprint, Event>

    function View(): Db
      reads this
    {
      Db(files, ledger, applicants, events)
    }

    function BookOf(id: Id): Book
      requires id < |files|
      reads this
    {
      Book(files[id], ledger)
    }

    constructor ()
      ensures View() == EMPTY
    {
      files, ledger, applicants, events := [], [], [], map[];
    }

    // ── Lifecycle blocks ───────────────────────────────────────────────────

    method ApplyPayment(id: Id, p: Payload, now: Time) returns (applied: bool)
      requires id < |files|
      modifies this`files, this`ledger
      ensures |files| == |old(files)| && files == old(files)[id := files[id]]
      ensures BookOf(id) == Bank(old(BookOf(id)), id, p, now)
      ensures applied <==> ledger != old(ledger)
    {
      if p.payment.None? || p.payment.value.status != Some(PAID_STATUS) { return false; }
      var legacy := p.payment.value;

      var amount := legacy.amount.GetOr(legacy.amountPaise.GetOr(0));
      if amount <= 0 { return false; }

      var plan: Payment;
      if files[id].payment.Some? {
        plan := files[id].payment.value;
        // Money the CRM put there itself is not banked again.
        if plan.amountPaid >= amount { return false; }
      } else {
        plan := Payment(amount, 0, PaymentDue, None, legacy.deadline);
        files := files[id := files[id].(payment := Some(plan))];
      }

      var key: Text := "legacy:" + legacy.externalId.GetOr(p.externalId);
      if exists r <- ledger :: SameKey(r, key) { return false; }
      if legacy.reference.Some? && exists r <- ledger :: SameReference(r, id, legacy.reference) { return false; }

      var paidOn := legacy.paidAt.GetOr(now);
      ledger := ledger + [Receipt(id, amount, paidOn, legacy.reference, Some(key))];
      files := files[id := files[id].(
        payment := Some(plan.(amountPaid := amount, status := PaymentSettled, settledAt := Some(paidOn))))];
      files := files[id := files[id].(record := files[id].record.(paymentStatus := PaymentSettled))];
      return true;
    }

    method ApplyCertificate(id: Id, p: Payload) returns (applied: bool)
      requires id < |files|
      modifies this`files
      ensures |files| == |old(files)|
      ensures var noted := NoteCertificate(old(files)[id].certificate, p.certificate);
              files == old(files)[id := old(files)[id].(certificate := noted)] &&
              (applied <==> noted != old(files)[id].certificate)
    {
      if p.certificate.None? { return false; }
      var legacy := p.certificate.value;
      var existing := files[id].certificate;
      if existing.Some? {
        var hasUploadedFile := |existing.value.versions| > 0;
        if hasUploadedFile || existing.value.number == Some(legacy.number) { return false; }
        files := files[id := files[id].(
          certificate := Some(existing.value.(number := Some(legacy.number), issueDate := legacy.issuedAt)))];
      } else {
        files := files[id := files[id].(
          certificate := Some(Certificate(Some(legacy.number), 0, legacy.issuedAt, AwaitingUpload, None, [])))];
      }
      return true;
    }

    method ApplyDispatch(id: Id, p: Payload) returns (applied: bool)
      requires id < |files|
      modifies this`files
      ensures |files| == |old(files)|
      ensures files == old(files)[id := NoteDispatch(old(files)[id], p.dispatch)]
      ensures applied <==> p.dispatch.Some? && !DispatchUnchanged(old(files)[id].dispatch, p.dispatch.value)
    {
      if p.dispatch.None? { return false; }
      var legacy := p.dispatch.value;
      var deliveryStatus := MapDelivery(legacy.status);
      var courier := legacy.courier.GetOr(COURIER_PLACEHOLDER);
      var existing := files[id].dispatch;
      var same := existing.Some? && existing.value.status == deliveryStatus && existing.value.tracking == legacy.tracking;
      if same { return false; }

      var remarks := if existing.Some? then legacy.notes else Some(legacy.notes.GetOr(DISPATCH_REMARK));
      files := files[id := files[id].(
        dispatch := Some(Dispatch(courier, legacy.tracking, legacy.url, deliveryStatus, legacy.sentOn, legacy.arrivedOn, remarks)))];
      files := files[id := files[id].(record := files[id].record.(deliveryStatus := deliveryStatus))];
      return true;
    }

    /** Where the stage points, held at Certificate Verification when the gate is shut, and the rank that goes with it. */
    static method Cap(stage: Stage, verified: bool) returns (move: Status, rank: real)
      ensures move == Effective(stage, verified)
      ensures !IsDecisionStage(stage) ==> !IsDecisionStatus(move) && rank == LadderRank(move)
    {
      move, rank := StageToStatus(stage), StageRank(stage);
      if rank >= StageRank(Paid) && !verified {
        move, rank := CertificatePending, CERTIFICATE_VERIFICATION_RANK;
      }
    }

    /** The "only advance" rule, between two points on the ladder. */
    static method NotAhead(targetRank: real, current: Status) returns (behind: bool)
      requires !IsDecisionStatus(current)
      ensures behind <==> targetRank <= LadderRank(current)
    {
      var currentRank := RankOf(current);
      behind := currentRank.Some? && targetRank <= currentRank.value;
    }

    /** Decides the move by comparing ranks; what it amounts to is `Settle`. */
    static method DecideMove(stage: Stage, verified: bool, current: Status) returns (target: Option<Status>)
      ensures var after := Settle(current, Report(Some(stage), verified));
              target == if after == current then None else Some(after)
    {
      var move, rank := Cap(stage, verified);
      SettleMeans(stage, verified, current, move);
      if move == current { return None; }
      if !IsDecisionStage(stage) && !IsDecisionStatus(current) {
        var behind := NotAhead(rank, current);
        if behind { return None; }
      }
      return Some(move);
    }

    method ApplyStatus(id: Id, current: Status, p: Payload) returns (moved: bool)
      requires id < |files|
      modifies this`files
      ensures |files| == |old(files)|
      ensures var f := old(files)[id];
              files == old(files)[id := f.(record := f.record.(status :=
                MoveStatus(f.record.status, current, Report(p.stage, SignedOff(f.certificate)))))]
      ensures moved <==> Settle(current, Report(p.stage, SignedOff(old(files)[id].certificate))) != current
    {
      if p.stage.None? { return false; }
      var verified := files[id].certificate.Some? && files[id].certificate.value.verification == Verified;
      var target := DecideMove(p.stage.value, verified, current);
      if target.None? { return false; }
      files := files[id := files[id].(record := files[id].record.(status := target.value))];
      return true;
    }

    method ApplySnapshot(id: Id, p: Payload, current: Status, now: Time)
      requires id < |files|
      modifies this`files, this`ledger
      ensures |files| == |old(files)| && files == old(files)[id := files[id]]
      ensures BookOf(id) == Apply(old(BookOf(id)), id, p, current, now)
    {
      files := files[id := files[id].(record := files[id].record.(terms := p.terms))];
      var paymentApplied := ApplyPayment(id, p, now);
      var certificateApplied := ApplyCertificate(id, p);
      var dispatchApplied := ApplyDispatch(id, p);
      var statusChanged := ApplyStatus(id, current, p);
    }

    // ── Inbound events ─────────────────────────────────────────────────────

    method Receive(p: Payload) returns (duplicate: bool)
      modifies this`events
      ensures View() == ReceiveEvent(old(View()), p)
      ensures duplicate <==> SnapshotHash(p) in old(events)
    {
      var key := SnapshotHash(p);
      if key in events { return true; }
      events := events[key := Event(p, Stored, 0)];
      return false;
    }

    /** `known` is what the caller read of the record, perhaps a while ago. */
    method UpdateExisting(known: Known, p: Payload, now: Time) returns (status: EventStatus)
      requires known.id < |files|
      modifies this
      ensures View() == Update(old(View()), known, p, now)
      ensures status == if AlreadyApplied(old(files)[known.id], p) then DuplicateSkipped else Merged
    {
      Reawaken(known);
      // Byte-identical to what was last applied: a retry, not a change.
      if files[known.id].mirror.Some? && files[known.id].mirror.value.inbound == SnapshotHash(p) {
        return DuplicateSkipped;
      }
      CommitSnapshot(known, p, now);
      return Merged;
    }

    method Reawaken(known: Known)
      requires known.id < |files|
      modifies this`files, this`applicants
      ensures View() == Revive(old(View()), known)
    {
      if known.wasDeleted {
        var owner := files[known.id].record.applicant;
        files := files[known.id := files[known.id].(record := files[known.id].record.(deleted := false))];
        if owner < |applicants| {
          applicants := applicants[owner := Applicant(false)];
        }
      }
    }

    method CommitSnapshot(known: Known, p: Payload, now: Time)
      requires known.id < |files|
      modifies this`files, this`ledger
      ensures View() == CommitUpdate(old(View()), known, p, now)
    {
      var owner := files[known.id].record.applicant;
      ApplySnapshot(known.id, p, known.status, now);
      files := files[known.id := files[known.id].(mirror := Some(MirrorRow(p, owner)))];
    }

    method ImportApplication(p: Payload, m: Match, now: Time) returns (status: EventStatus)
      modifies this
      ensures (View(), status) == ImportOrUpdate(old(View()), p, m, now)
    {
      var known := FindExternal(files, p.externalId);
      if known.Some? {
        status := UpdateExisting(ReadKnown(View(), known.value), p, now);
        return;
      }
      if m.OnBlacklist? { return BlockedByBlacklist; }

      var existing := MatchedOwner(View(), m);
      status := if existing.Some? then Merged else Imported;
      OpenRecord(p, existing, now);
    }

    method OpenRecord(p: Payload, existing: Option<Id>, now: Time)
      modifies this
      ensures View() == Import(old(View()), p, existing, now)
    {
      ghost var before := View();
      var owner: Id;
      if existing.Some? {
        owner := existing.value;
      } else {
        owner := |applicants|;
        applicants := applicants + [Applicant(false)];
      }
      assert owner == OwnerId(before, existing) && applicants == WithOwner(before, existing);

      var id := |files|;
      files := files + [NewFile(p, owner)];
      assert BookOf(id) == Book(NewFile(p, owner), before.ledger);
      ApplySnapshot(id, p, ApplicationSubmitted, now);
      files := files[id := files[id].(mirror := Some(MirrorRow(p, owner)))];
      assert files == before.files + [files[id]];
    }

    /** One attempt at a stored event, and what goes wrong in it: the event row says how it ended. */
    method ProcessStored(key: Fingerprint, m: Match, now: Time, fault: Fault)
      modifies this
      ensures View() == ProcessWith(old(View()), key, m, now, fault)
    {
      if key !in events { return; }
      var p := events[key].payload;
      MarkProcessing(key);
      if fault == NoFault {
        var status := ImportApplication(p, m, now);
        MarkOutcome(key, status);
      } else if fault == InTransaction {
        var status := ImportWithoutCommit(p, m);
        MarkOutcome(key, status);
      } else {
        MarkOutcome(key, Failed);
      }
    }

    method MarkProcessing(key: Fingerprint)
      requires key in events
      modifies this`events
      ensures View() == Attempted(old(View()), key)
    {
      events := events[key := events[key].(status := Processing, attempts := events[key].attempts + 1)];
    }

    method MarkOutcome(key: Fingerprint, status: EventStatus)
      modifies this`events
      ensures View() == Note(old(View()), key, status)
    {
      if key in events {
        events := events[key := events[key].(status := status)];
      }
    }

    /** An import as far as its transaction, which is rolled back. */
    method ImportWithoutCommit(p: Payload, m: Match) returns (status: EventStatus)
      modifies this`files, this`applicants
      ensures match FindExternal(old(files), p.externalId)
              case None => View() == old(View()) && status == (if m.OnBlacklist? then BlockedByBlacklist else Failed)
              case Some(id) =>
                && View() == Revive(old(View()), ReadKnown(old(View()), id))
                && status == if AlreadyApplied(old(files)[id], p) then DuplicateSkipped else Failed
    {
      var known := FindExternal(files, p.externalId);
      if known.None? {
        return if m.OnBlacklist? then BlockedByBlacklist else Failed;
      }
      Reawaken(ReadKnown(View(), known.value));
      return if AlreadyApplied(files[known.value], p) then DuplicateSkipped else Failed;
    }

    // ── Certificates ───────────────────────────────────────────────────────

    method UploadCertificate(id: Id, stored: bool, number: Option<Text>, minted: Text, issuedOn: Time, pdfKey: string)
      returns (version: Option<nat>)
      modifies this`files
      ensures View() == UploadTo(old(View()), id, stored, number, minted, issuedOn, pdfKey)
      ensures version.Some? <==> Present(old(View()), id) && stored
      ensures version.Some? ==> files[id].certificate.Some? && version.value == |files[id].certificate.value.versions|
    {
      if id >= |files| || files[id].record.deleted || !stored { return None; }
      var existing := files[id].certificate;
      var certificateNumber := (if existing.Some? then existing.value.number else None).OrElse(number);
      var issued := certificateNumber.GetOr(minted);
      var uploadedSoFar := if existing.Some? then existing.value.versions else [];
      var nextVersion := |uploadedSoFar| + 1;
      var head := if existing.Some?
                  then existing.value.(currentVersion := nextVersion, issueDate := Some(issuedOn),
                                       verification := PendingVerification, verifiedVersion := None)
                  else Certificate(Some(issued), nextVersion, Some(issuedOn), PendingVerification, None, []);
      files := files[id := files[id].(
        certificate := Some(head.(versions := uploadedSoFar + [Version(nextVersion, issued, pdfKey)])))];
      files := files[id := files[id].(record := files[id].record.(hasCertificate := true))];
      return Some(nextVersion);
    }

    method AdvanceRecord(id: Id, expectedFrom: set<Status>, to: Status) returns (advanced: bool)
      requires id < |files|
      modifies this`files
      ensures var f := old(files)[id];
              files == old(files)[id := f.(record := f.record.(status := Advance(f.record.status, expectedFrom, to)))]
      ensures advanced <==> files != old(files)
    {
      var from := files[id].record.status;
      if from == to || from !in expectedFrom { return false; }
      files := files[id := files[id].(record := files[id].record.(status := to))];
      return true;
    }

    /** Asks for a sign-off: which version an employee is looking at, if there is one to sign. */
    method LatestToSign(id: Id) returns (latest: Option<nat>)
      ensures latest == if VerifyAccepted(View(), id) then Some(Latest(files[id].certificate.value.versions)) else None
    {
      if id >= |files| || files[id].record.deleted || files[id].certificate.None? { return None; }
      var certificate := files[id].certificate.value;
      if certificate.versions == [] { return None; }
      var version := Latest(certificate.versions);
      if certificate.verification == Verified && certificate.verifiedVersion == Some(version) { return None; }
      return Some(version);
    }

    /** The transaction of a sign-off. */
    method CommitSignOff(id: Id, latest: nat)
      requires id < |files| && files[id].certificate.Some?
      modifies this`files
      ensures View() == SignOffOf(old(View()), id, latest)
    {
      files := files[id := files[id].(
        certificate := Some(files[id].certificate.value.(verification := Verified, verifiedVersion := Some(latest))))];
      var completed := AdvanceRecord(id, {PaymentReceived, CertificatePending}, CertificateUploaded);
      if completed {
        var queued := AdvanceRecord(id, {CertificateUploaded}, DispatchPending);
      }
    }

    method MarkVerified(id: Id) returns (accepted: bool)
      modifies this`files
      ensures View() == VerifyCertificate(old(View()), id)
      ensures accepted <==> VerifyAccepted(old(View()), id)
    {
      var latest := LatestToSign(id);
      if latest.None? { return false; }
      CommitSignOff(id, latest.value);
      return true;
    }

    // ── Operators ──────────────────────────────────────────────────────────

    /** The checks of an operator's change. */
    method MayChange(id: Id, to: Status, permitted: bool) returns (ok: bool)
      ensures ok == ChangeAccepted(View(), id, to, permitted)
    {
      if id >= |files| || files[id].record.deleted { return false; }
      if to !in NextStatuses(files[id].record.status) || !permitted { return false; }
      if to == CertificateUploaded {
        var certified := CertificateVerified(files[id].certificate);
        if !certified { return false; }
      }
      return true;
    }

    method ChangeRecordStatus(id: Id, to: Status, permitted: bool) returns (accepted: bool)
      modifies this`files
      ensures View() == ChangeStatusOf(old(View()), id, to, permitted)
      ensures accepted == ChangeAccepted(old(View()), id, to, permitted)
    {
      accepted := MayChange(id, to, permitted);
      if !accepted { return; }
      files := files[id := files[id].(record := files[id].record.(status := to))];
      if to == PaymentReceived {
        var advanced := AdvanceRecord(id, {PaymentReceived}, CertificatePending);
      }
    }

    // ── Reset ──────────────────────────────────────────────────────────────

    /** Walks the owners of mirror rows, clearing those with no record left. */
    method ClearOwners(ghost before: Db) returns (applicantsCleared: nat)
      requires files == MarkedFiles(before.files) && applicants == before.applicants
      modifies `applicants
      ensures applicants == ResetAll(before).applicants
      ensures applicantsCleared == |ClearedOwners(before, |before.applicants|)|
    {
      applicantsCleared := 0;
      for a := 0 to |applicants|
        invariant |applicants| == |before.applicants|
        invariant forall o :: 0 <= o < |applicants| ==>
                    applicants[o] == if o < a then ResetAll(before).applicants[o] else before.applicants[o]
        invariant applicantsCleared == |ClearedOwners(before, a)|
      {
        MarkedOwners(before, a);
        MarkedSurvivors(before, a);
        ClearedOwnersStep(before, a);
        var owner := exists f <- files :: f.mirror.Some? && f.mirror.value.applicant == a;
        var survivor := exists f <- files :: f.record.applicant == a && !f.record.deleted;
        if owner && !survivor {
          applicants := applicants[a := Applicant(true)];
          applicantsCleared := applicantsCleared + 1;
        }
      }
    }

    /**
     * Marks every mirrored record deleted, clears the owners that leaves with nothing, then
     * drops the mirror rows and the event keys.
     */
    method ResetWebsiteData() returns (applicantsCleared: nat)
      modifies this
      ensures View() == ResetAll(old(View()))
      ensures applicantsCleared == |ClearedOwners(old(View()), |old(applicants)|)|
    {
      ghost var before := View();
      files := MarkedFiles(files);
      applicantsCleared := ClearOwners(before);
      files := seq(|files|, i requires 0 <= i < |files| reads this => files[i].(mirror := None));
      assert files == ResetAll(before).files;
      events := map[];
    }
  }

  /** Settling, in terms of where the capped stage points. */
  lemma SettleMeans(stage: Stage, verified: bool, current: Status, move: Status)
    requires move == Effective(stage, verified)
    ensures IsDecisionStage(stage) || IsDecisionStatus(current) ==> Settle(current, Report(Some(stage), verified)) == move
    ensures !IsDecisionStage(stage) && !IsDecisionStatus(current) ==>
              && !IsDecisionStatus(move)
              && Settle(current, Report(Some(stage), verified)) ==
                 if LadderRank(move) > LadderRank(current) then move else current
  {
    EffectiveOnLadder(stage, verified);
  }

  function MarkedFiles(files: seq<File>): (marked: seq<File>)
    ensures |marked| == |files|
  {
    seq(|files|, i requires 0 <= i < |files| => Marked(files[i]))
  }

  function Marked(f: File): File {
    if f.mirror.Some? then f.(record := f.record.(deleted := true)) else f
  }

  /** The owners a reset clears: of a mirrored record, and of no record that stays. */
  function ClearedOwners(db: Db, n: nat): set<Id> {
    set a: Id | a < n && OwnsMirrored(db, a) && !Survives(db, a)
  }

  lemma ClearedOwnersStep(db: Db, a: nat)
    ensures |ClearedOwners(db, a + 1)| == |ClearedOwners(db, a)| + if OwnsMirrored(db, a) && !Survives(db, a) then 1 else 0
  {
    if OwnsMirrored(db, a) && !Survives(db, a) {
      assert ClearedOwners(db, a + 1) == ClearedOwners(db, a) + {a};
    } else {
      assert ClearedOwners(db, a + 1) == ClearedOwners(db, a);
    }
  }

  /** Looking for a live record after the marking is asking who survives it. */
  lemma MarkedSurvivors(db: Db, a: Id)
    ensures Survives(db, a) <==> exists f <- MarkedFiles(db.files) :: f.record.applicant == a && !f.record.deleted
  {
    var marked := MarkedFiles(db.files);
    if Survives(db, a) {
      var f :| f in db.files && f.record.applicant == a && !Cleared(f).record.deleted;
      var i :| 0 <= i < |db.files| && db.files[i] == f;
      assert marked[i] in marked;
    }
    if f :| f in marked && f.record.applicant == a && !f.record.deleted {
      var i :| 0 <= i < |marked| && marked[i] == f;
      assert db.files[i] in db.files;
    }
  }

  /** The marking leaves the mirror rows in place. */
  lemma MarkedOwners(db: Db, a: Id)
    ensures OwnsMirrored(db, a) <==> exists f <- MarkedFiles(db.files) :: f.mirror.Some? && f.mirror.value.applicant == a
  {
    var marked := MarkedFiles(db.files);
    if OwnsMirrored(db, a) {
      var f :| f in db.files && f.mirror.Some? && f.mirror.value.applicant == a;
      var i :| 0 <= i < |db.files| && db.files[i] == f;
      assert marked[i] in marked;
    }
    if f :| f in marked && f.mirror.Some? && f.mirror.value.applicant == a {
      var i :| 0 <= i < |marked| && marked[i] == f;
      assert db.files[i] in db.files;
    }
  }
}
