/**
 * What each operation on a record writes, field by field, in terms of what it is given:
 * the payment and its receipt, the website's certificate number, the parcel, an upload, an
 * import, an update, an operator's change, a desk entry, a reset.
 */
module Effects {
  import opened Wrappers
  import opened Stages
  import opened StatusLadder
  import opened Lifecycle
  import opened Crm

  // ── Money ────────────────────────────────────────────────────────────────

  function Or<T>(given: Option<T>, otherwise: T): T {
    match given
    case Some(value) => value
    case None => otherwise
  }

  lemma BookedFirst(b: Book, id: Id, p: Payload, amount: nat, now: Time)
    requires WillBank(b, id, p, amount)
    ensures var after, block, paidOn := Bank(b, id, p, now), p.payment.value, Or(p.payment.value.paidAt, now);
            && after.ledger == b.ledger + [Receipt(id, amount, paidOn, block.reference, Some(KeyFor(p)))]
            && after.file.payment == Some(
                 match b.file.payment
                 case None => Payment(amount, amount, PaymentSettled, Some(paidOn), block.deadline)
                 case Some(plan) => Payment(plan.finalAmount, amount, PaymentSettled, Some(paidOn), plan.dueDate))
            && after.file.record.paymentStatus == PaymentSettled
  {
    WillBankAmount(b, id, p, amount);
  }

  /**
   * Money the record does not have is banked: one receipt at the end of the ledger, the
   * plan settled at that amount (a plan opened here is for that amount and due at the
   * block's deadline), and the record settled.
   */
  lemma MoneyBanked(b: Book, id: Id, p: Payload, amount: nat, current: Status, now: Time)
    requires WillBank(b, id, p, amount)
    ensures var after, block, paidOn := Apply(b, id, p, current, now), p.payment.value, Or(p.payment.value.paidAt, now);
            && after.ledger == b.ledger + [Receipt(id, amount, paidOn, block.reference, Some(KeyFor(p)))]
            && after.file.payment == Some(
                 match b.file.payment
                 case None => Payment(amount, amount, PaymentSettled, Some(paidOn), block.deadline)
                 case Some(plan) => Payment(plan.finalAmount, amount, PaymentSettled, Some(paidOn), plan.dueDate))
            && after.file.record.paymentStatus == PaymentSettled
  {
    BookedFirst(b.(file := b.file.(record := b.file.record.(terms := p.terms))), id, p, amount, now);
  }

  /** The block's amount, as the receipt would show it. */
  predicate SaysPaid(p: Payload, amount: nat) {
    && p.payment.Some? && p.payment.value.status == Some("paid")
    && (p.payment.value.amount == Some(amount)
        || (p.payment.value.amount.None? && p.payment.value.amountPaise == Some(amount)))
    && amount > 0
  }

  /** Otherwise no money moves; the most that happens is that a plan is opened, unpaid, for money banked elsewhere. */
  lemma NothingBanked(b: Book, id: Id, p: Payload, current: Status, now: Time)
    requires forall amount: nat :: !WillBank(b, id, p, amount)
    ensures var after := Apply(b, id, p, current, now);
            && after.ledger == b.ledger
            && AmountPaid(after.file.payment) == AmountPaid(b.file.payment)
            && after.file.record.paymentStatus == b.file.record.paymentStatus
            && (b.file.payment.Some? || (forall amount: nat :: !SaysPaid(p, amount)) ==> after.file.payment == b.file.payment)
            && (forall amount: nat :: b.file.payment.None? && SaysPaid(p, amount) ==>
                  after.file.payment == Some(Payment(amount, 0, PaymentDue, None, p.payment.value.deadline)))
  {
    if ReportsMoney(p) {
      var amount := Amount(p.payment.value);
      assert SaysPaid(p, amount);
      if amount > AmountPaid(b.file.payment) && !AlreadyBanked(b.ledger, id, ReceiptKey(p), p.payment.value.reference) {
        BanksMeansWillBank(b, id, p);
      }
    } else {
      forall amount: nat
        ensures !SaysPaid(p, amount)
      {
      }
    }
  }

  // ── Certificate, parcel, terms ───────────────────────────────────────────

  /**
   * The website's number goes on the record when nothing has been uploaded for it, with
   * its issue date; a row opened for it waits for an upload. Anything else leaves the
   * certificate as it was, and no snapshot says that a file is on record.
   */
  lemma CertificateNoted(b: Book, id: Id, p: Payload, current: Status, now: Time)
    ensures var was, after := b.file.certificate, Apply(b, id, p, current, now).file;
            && after.record.hasCertificate == b.file.record.hasCertificate
            && (p.certificate.None? || (was.Some? && was.value.versions != []) ==> after.certificate == was)
            && (p.certificate.Some? && was.None? ==>
                  after.certificate == Some(Certificate(Some(p.certificate.value.number), 0, p.certificate.value.issuedAt,
                                                        AwaitingUpload, None, [])))
            && (p.certificate.Some? && was.Some? && was.value.versions == [] ==>
                  && after.certificate.Some?
                  && after.certificate.value.number == Some(p.certificate.value.number)
                  && after.certificate.value.issueDate == (if was.value.number == Some(p.certificate.value.number)
                                                           then was.value.issueDate else p.certificate.value.issuedAt)
                  && after.certificate.value.currentVersion == was.value.currentVersion
                  && after.certificate.value.verification == was.value.verification
                  && after.certificate.value.verifiedVersion == was.value.verifiedVersion
                  && after.certificate.value.versions == [])
  {
    ApplyMoves(b, id, p, current, now);
  }

  /** What the website's four words for a parcel come to. */
  predicate Meant(word: Option<Text>, d: Delivery) {
    if word.None? then d == NotDispatched
    else
      && (word.value == "preparing" ==> d == Packed)
      && (word.value == "dispatched" ==> d == OnItsWay)
      && (word.value == "delivered" ==> d == Arrived)
      && (word.value != "preparing" && word.value != "dispatched" && word.value != "delivered" ==> d == NotDispatched)
  }

  /** The parcel is told of anew when its status or its tracking number differs, or there was none; then all of it is as told. */
  lemma ParcelNoted(b: Book, id: Id, p: Payload, current: Status, now: Time)
    requires p.dispatch.Some?
    ensures var block, was, after := p.dispatch.value, b.file.dispatch, Apply(b, id, p, current, now).file;
            && after.dispatch.Some?
            && Meant(block.status, after.dispatch.value.status)
            && after.dispatch.value.tracking == block.tracking
            && (was.Some? && Meant(block.status, was.value.status) && was.value.tracking == block.tracking ==>
                  after.dispatch == was && after.record.deliveryStatus == b.file.record.deliveryStatus)
            && (was.None? || !Meant(block.status, was.value.status) || was.value.tracking != block.tracking ==>
                  && after.dispatch.value.courier == Or(block.courier, "To be assigned")
                  && after.dispatch.value.url == block.url
                  && after.dispatch.value.sentOn == block.sentOn
                  && after.dispatch.value.arrivedOn == block.arrivedOn
                  && after.dispatch.value.remarks ==
                     (if was.None? then Some(Or(block.notes, "Created on the NBR website")) else block.notes)
                  && after.record.deliveryStatus == after.dispatch.value.status)
  {
  }

  lemma NoParcelNoted(b: Book, id: Id, p: Payload, current: Status, now: Time)
    requires p.dispatch.None?
    ensures var after := Apply(b, id, p, current, now).file;
            after.dispatch == b.file.dispatch && after.record.deliveryStatus == b.file.record.deliveryStatus
  {
  }

  lemma TermsTaken(b: Book, id: Id, p: Payload, current: Status, now: Time)
    ensures Apply(b, id, p, current, now).file.record.terms == p.terms
  {
  }

  /** Two snapshots count as one exactly when they differ in nothing but the extras. */
  lemma SameContentIff(p: Payload, q: Payload)
    ensures SnapshotHash(p) == SnapshotHash(q) <==> p == q.(extra := p.extra)
  {
  }

  // ── Events and imports ───────────────────────────────────────────────────

  /** A snapshot with new content is stored, not attempted yet; a repeat changes nothing. */
  lemma SnapshotStored(db: Db, p: Payload)
    ensures var after, key := ReceiveEvent(db, p), SnapshotHash(p);
            && after == db.(events := after.events)
            && (key in db.events ==> after.events == db.events)
            && (key !in db.events ==> after.events == db.events[key := Event(p, Stored, 0)])
  {
  }

  /** What a first import opens, and under whom. */
  lemma RecordOpened(db: Db, p: Payload, owner: Option<Id>, now: Time)
    ensures var n, after := |db.files|, Import(db, p, owner, now);
            && |after.files| == n + 1 && after.files[..n] == db.files && after.events == db.events
            && after.applicants == (if owner.Some? then db.applicants else db.applicants + [Applicant(false)])
            && var f := after.files[n];
               && f.record.applicant == (if owner.Some? then owner.value else |db.applicants|)
               && f.record.externalId == Some(p.externalId) && !f.record.deleted
               && f.record.terms == p.terms && !f.record.hasCertificate
               && f.record.status == (if p.stage.Some? then Effective(p.stage.value, false) else ApplicationSubmitted)
               && f.mirror == Some(Mirror(p.externalId, f.record.applicant, p.stage, SnapshotHash(p)))
  {
    ImportedFile(db, p, owner, now);
    var blank := Book(NewFile(p, OwnerId(db, owner)), db.ledger);
    TermsTaken(blank, |db.files|, p, ApplicationSubmitted, now);
    CertificateNoted(blank, |db.files|, p, ApplicationSubmitted, now);
  }

  /** No receipt of the ledger carries the block's key. */
  predicate NotBankedYet(ledger: seq<Receipt>, id: Id, p: Payload)
    requires p.payment.Some?
  {
    forall r <- ledger ::
      && r.key != Some(KeyFor(p))
      && (p.payment.value.reference.Some? ==> r.record != id || r.reference != p.payment.value.reference)
  }

  /** A first import that brings money banks it at once; one that brings none opens no plan. */
  lemma OpenedWithMoney(db: Db, p: Payload, owner: Option<Id>, now: Time)
    ensures var n, after := |db.files|, Import(db, p, owner, now);
            && |after.files| == n + 1
            && (forall amount: nat :: SaysPaid(p, amount) && NotBankedYet(db.ledger, n, p) ==>
                  && var block, paidOn := p.payment.value, Or(p.payment.value.paidAt, now);
                     && after.ledger == db.ledger + [Receipt(n, amount, paidOn, block.reference, Some(KeyFor(p)))]
                     && after.files[n].payment == Some(Payment(amount, amount, PaymentSettled, Some(paidOn), block.deadline))
                     && after.files[n].record.paymentStatus == PaymentSettled)
            && ((forall amount: nat :: !SaysPaid(p, amount)) ==>
                  after.ledger == db.ledger && after.files[n].payment.None? && after.files[n].record.paymentStatus == PaymentDue)
  {
    var n, blank := |db.files|, Book(NewFile(p, OwnerId(db, owner)), db.ledger);
    if amount: nat :| SaysPaid(p, amount) {
      if NotBankedYet(db.ledger, n, p) {
        assert WillBank(blank, n, p, amount);
        MoneyBanked(blank, n, p, amount, ApplicationSubmitted, now);
      }
    } else {
      forall amount: nat
        ensures !WillBank(blank, n, p, amount)
      {
        assert !SaysPaid(p, amount);
      }
      NothingBanked(blank, n, p, ApplicationSubmitted, now);
    }
  }

  /** What the other blocks of a first snapshot open. */
  lemma OpenedWithBlocks(db: Db, p: Payload, owner: Option<Id>, now: Time)
    ensures var n, after := |db.files|, Import(db, p, owner, now);
            && |after.files| == n + 1
            && var f := after.files[n];
               && f.certificate == (if p.certificate.None? then None
                                    else Some(Certificate(Some(p.certificate.value.number), 0, p.certificate.value.issuedAt,
                                                          AwaitingUpload, None, [])))
               && (p.dispatch.None? ==> f.dispatch.None? && f.record.deliveryStatus == NotDispatched)
               && (p.dispatch.Some? ==>
                     && f.dispatch.Some? && f.record.deliveryStatus == f.dispatch.value.status
                     && Meant(p.dispatch.value.status, f.dispatch.value.status)
                     && f.dispatch.value.tracking == p.dispatch.value.tracking)
  {
    var blank := Book(NewFile(p, OwnerId(db, owner)), db.ledger);
    CertificateNoted(blank, |db.files|, p, ApplicationSubmitted, now);
    if p.dispatch.Some? {
      ParcelNoted(blank, |db.files|, p, ApplicationSubmitted, now);
    } else {
      NoParcelNoted(blank, |db.files|, p, ApplicationSubmitted, now);
    }
  }

  predicate HeldAlready(db: Db, externalId: Text) {
    exists f <- db.files :: f.record.externalId == Some(externalId)
  }

  lemma FindsHeld(db: Db, externalId: Text)
    ensures FindExternal(db.files, externalId).Some? <==> HeldAlready(db, externalId)
  {
    if FindExternal(db.files, externalId).Some? {
      assert db.files[FindExternal(db.files, externalId).value] in db.files;
    }
  }

  /**
   * An application not held yet: a match on the blacklist stops it; a live person it
   * matches gets the record, and nobody is added; otherwise it comes with a new applicant.
   */
  lemma NewApplicationTaken(db: Db, p: Payload, m: Match, now: Time)
    requires !HeldAlready(db, p.externalId)
    ensures var n, (after, status) := |db.files|, ImportOrUpdate(db, p, m, now);
            && (m.OnBlacklist? ==> after == db && status == BlockedByBlacklist)
            && (m.SamePerson? && LiveApplicant(db, m.applicant) ==>
                  && status == Merged && |after.files| == n + 1 && after.files[..n] == db.files
                  && after.files[n].record.applicant == m.applicant && after.applicants == db.applicants)
            && (m.NoMatch? || (m.SamePerson? && !LiveApplicant(db, m.applicant)) ==>
                  && status == Imported && |after.files| == n + 1 && after.files[..n] == db.files
                  && after.files[n].record.applicant == |db.applicants|
                  && after.applicants == db.applicants + [Applicant(false)])
  {
    FindsHeld(db, p.externalId);
    RecordOpened(db, p, MatchedOwner(db, m), now);
  }

  /** A record that was cleared is live again, and so is its applicant; nothing else of it changes. */
  lemma Revived(db: Db, known: Known)
    requires Inv(db) && known.id < |db.files|
    ensures var f, after := db.files[known.id], Revive(db, known);
            && f.record.applicant < |db.applicants|
            && (!known.wasDeleted ==> after == db)
            && (known.wasDeleted ==>
                  after == db.(files := db.files[known.id := f.(record := f.record.(deleted := false))],
                               applicants := db.applicants[f.record.applicant := Applicant(false)]))
  {
    assert db.files[known.id] in db.files;
  }

  /**
   * One that is held already opens nothing: the record comes back if it was cleared, a
   * snapshot it holds already is skipped, and any other is applied by the status the record
   * has, and remembered.
   */
  lemma KnownApplicationTaken(db: Db, p: Payload, m: Match, now: Time, i: Id)
    requires Inv(db) && i < |db.files| && db.files[i].record.externalId == Some(p.externalId)
    ensures var was, (after, status) := db.files[i], ImportOrUpdate(db, p, m, now);
            && |after.files| == |db.files|
            && (forall j :: 0 <= j < |db.files| && j != i ==> after.files[j] == db.files[j])
            && was.record.applicant < |db.applicants|
            && after.applicants == (if was.record.deleted then db.applicants[was.record.applicant := Applicant(false)]
                                    else db.applicants)
            && var back := was.(record := was.record.(deleted := false));
               if was.mirror.Some? && was.mirror.value.inbound == SnapshotHash(p)
               then status == DuplicateSkipped && after.files[i] == back && after.ledger == db.ledger
               else
                 && status == Merged
                 && after.files[i].mirror == Some(Mirror(p.externalId, was.record.applicant, p.stage, SnapshotHash(p)))
                 && Book(after.files[i].(mirror := was.mirror), after.ledger) ==
                    Apply(Book(back, db.ledger), i, p, was.record.status, now)
  {
    assert db.files[i] in db.files;
    FindsHeld(db, p.externalId);
    var id := FindExternal(db.files, p.externalId).value;
    assert id < i ==> Distinct(db.files[id], db.files[i]);
    assert i < id ==> Distinct(db.files[i], db.files[id]);
    Revived(db, ReadKnown(db, i));
    var back := db.files[i].(record := db.files[i].record.(deleted := false));
    ApplyMoves(Book(back, db.ledger), i, p, db.files[i].record.status, now);
  }

  /** Taking an application has nothing to do with the events. */
  lemma TakenWithoutEvents(db: Db, events: map<Fingerprint, Event>, p: Payload, m: Match, now: Time)
    ensures var (after, status) := ImportOrUpdate(db, p, m, now);
            ImportOrUpdate(db.(events := events), p, m, now) == (after.(events := events), status)
  {
  }

  /** Every attempt counts one on its event and leaves the others alone. */
  lemma AttemptCounted(db: Db, key: Fingerprint, m: Match, now: Time, fault: Fault)
    requires key in db.events
    ensures var after := ProcessWith(db, key, m, now, fault);
            && after.events.Keys == db.events.Keys
            && (forall k <- db.events :: k != key ==> after.events[k] == db.events[k])
            && after.events[key].payload == db.events[key].payload
            && after.events[key].attempts == db.events[key].attempts + 1
  {
    TakenWithoutEvents(db, Attempted(db, key).events, db.events[key].payload, m, now);
    TakingKeepsEvents(db, db.events[key].payload, m, now);
  }

  lemma TakingKeepsEvents(db: Db, p: Payload, m: Match, now: Time)
    ensures ImportOrUpdate(db, p, m, now).0.events == db.events
  {
  }

  /** How an attempt ended stands on its event: as taken, or failed with nothing written. */
  lemma AttemptRecorded(db: Db, key: Fingerprint, m: Match, now: Time, fault: Fault)
    requires key in db.events
    ensures var p, after, (taken, outcome) := db.events[key].payload, ProcessWith(db, key, m, now, fault),
                                              ImportOrUpdate(db, db.events[key].payload, m, now);
            && key in after.events
            && (fault.NoFault? ==> after.events[key].status == outcome && SameTables(after, taken))
            && (fault.BeforeWriting? ==> after.events[key].status == Failed && SameTables(after, db))
            && (fault.InTransaction? && !HeldAlready(db, p.externalId) ==>
                  after.events[key].status == (if m.OnBlacklist? then BlockedByBlacklist else Failed) && SameTables(after, db))
  {
    FindsHeld(db, db.events[key].payload.externalId);
    TakenWithoutEvents(db, Attempted(db, key).events, db.events[key].payload, m, now);
  }

  predicate SameTables(a: Db, b: Db) {
    a.files == b.files && a.ledger == b.ledger && a.applicants == b.applicants
  }

  /** A transaction that fails on a record it knows leaves the revival before it, and nothing else. */
  lemma FailedUpdateLeaves(db: Db, key: Fingerprint, m: Match, now: Time, i: Id)
    requires Inv(db) && key in db.events && i < |db.files|
    requires db.files[i].record.externalId == Some(db.events[key].payload.externalId)
    ensures var was, after := db.files[i], ProcessWith(db, key, m, now, InTransaction);
            && after.files == db.files[i := was.(record := was.record.(deleted := false))]
            && after.ledger == db.ledger
            && after.events.Keys == db.events.Keys
            && after.events[key].status == (if was.mirror.Some? && was.mirror.value.inbound == SnapshotHash(db.events[key].payload)
                                            then DuplicateSkipped else Failed)
  {
    assert db.files[i] in db.files;
    FindsHeld(db, db.events[key].payload.externalId);
    var id := FindExternal(db.files, db.events[key].payload.externalId).value;
    assert id < i ==> Distinct(db.files[id], db.files[i]);
    assert i < id ==> Distinct(db.files[i], db.files[id]);
    Revived(Attempted(db, key), ReadKnown(Attempted(db, key), i));
  }

  // ── Uploads and sign-offs ────────────────────────────────────────────────

  /**
   * An upload for a record that is there, of a file that is stored, appends one version
   * holding that file, under the number the certificate has, or else the one given, or else
   * the one minted; it dates the certificate and leaves it to be verified. Nothing else in
   * the database changes.
   */
  lemma FileUploaded(db: Db, id: Id, number: Option<Text>, minted: Text, issuedOn: Time, pdfKey: string)
    requires id < |db.files| && !db.files[id].record.deleted
    ensures var f := db.files[id];
            var was := if f.certificate.Some? then f.certificate.value.versions else [];
            var held := if f.certificate.Some? then f.certificate.value.number else None;
            var issued := if held.Some? then held.value else if number.Some? then number.value else minted;
            var after := UploadTo(db, id, true, number, minted, issuedOn, pdfKey);
            && after == db.(files := db.files[id := after.files[id]])
            && after.files[id] == f.(certificate := after.files[id].certificate, record := f.record.(hasCertificate := true))
            && after.files[id].certificate == Some(Certificate(
                 if f.certificate.Some? then held else Some(issued), |was| + 1, Some(issuedOn), PendingVerification, None,
                 was + [Version(|was| + 1, issued, pdfKey)]))
  {
  }

  lemma NothingUploaded(db: Db, id: Id, stored: bool, number: Option<Text>, minted: Text, issuedOn: Time, pdfKey: string)
    requires id >= |db.files| || db.files[id].record.deleted || !stored
    ensures UploadTo(db, id, stored, number, minted, issuedOn, pdfKey) == db
  {
  }

  /** A sign-off is taken exactly for a live record with an upload whose latest version is not signed off yet. */
  lemma SignOffTakenIff(db: Db, id: Id)
    requires Inv(db)
    ensures VerifyAccepted(db, id) <==>
              && id < |db.files| && !db.files[id].record.deleted
              && db.files[id].certificate.Some?
              && var c := db.files[id].certificate.value;
                 c.versions != [] && !(c.verification == Verified && c.verifiedVersion == Some(|c.versions|))
  {
    if id < |db.files| && db.files[id].certificate.Some? {
      assert db.files[id] in db.files;
      LatestIsCount(db.files[id].certificate.value.versions);
    }
  }

  /** It marks the version it is of, releases a record that is paid or at its certificate to Dispatch, and no other. */
  lemma SignedOffWrites(db: Db, id: Id, latest: nat)
    requires id < |db.files| && db.files[id].certificate.Some?
    ensures var f := db.files[id];
            SignOffOf(db, id, latest) == db.(files := db.files[id := f.(
              certificate := Some(f.certificate.value.(verification := Verified, verifiedVersion := Some(latest))),
              record := f.record.(status := if f.record.status == PaymentReceived || f.record.status == CertificatePending
                                            then DispatchPending else f.record.status))])
  {
  }

  // ── The workflow ─────────────────────────────────────────────────────────

  /** A status's place on the main line, from a new lead to a completed record. */
  function Place(status: Status): Option<nat> {
    match status
    case NewLead => Some(0)
    case ApplicationSubmitted => Some(1)
    case UnderReview => Some(2)
    case VerificationPending => Some(3)
    case Selected => Some(4)
    case PaymentPending => Some(5)
    case PaymentReceived => Some(6)
    case CertificatePending => Some(7)
    case CertificateUploaded => Some(8)
    case DispatchPending => Some(9)
    case Dispatched => Some(10)
    case Delivered => Some(11)
    case Publication => Some(12)
    case Completed => Some(13)
    case _ => None
  }

  /** One place along the main line. */
  predicate Onward(from: Status, to: Status) {
    Place(from).Some? && Place(to).Some? && Place(to).value == Place(from).value + 1
  }

  predicate BeforePayment(status: Status) {
    Place(status).Some? && Place(status).value < 6
  }

  /**
   * What the workflow allows: the next place on the main line; a hold at any place before
   * the payment; closing what has not been taken up, or is held; rejecting what is under
   * review; and the ways back.
   */
  lemma EdgeIff(from: Status, to: Status)
    ensures to in NextStatuses(from) <==>
              || Onward(from, to)
              || (to == OnHold && BeforePayment(from))
              || (to == Closed && from in {NewLead, ApplicationSubmitted, OnHold})
              || (to == Rejected && from in {UnderReview, VerificationPending})
              || (to == UnderReview && from in {VerificationPending, OnHold, Rejected})
              || (to == ApplicationSubmitted && from in {OnHold, Closed})
              || (from == Delivered && to == Completed)
              || (from == Completed && to == Delivered)
  {
    if BeforePayment(from) {
      EarlyEdges(from, to);
    }
  }

  lemma EarlyEdges(from: Status, to: Status)
    requires BeforePayment(from)
    ensures to in NextStatuses(from) <==>
              || Onward(from, to)
              || to == OnHold
              || (to == Closed && from in {NewLead, ApplicationSubmitted})
              || (to == Rejected && from in {UnderReview, VerificationPending})
              || (to == UnderReview && from == VerificationPending)
  {
  }

  /** An operator's change is taken exactly on a live record, along an edge, if permitted, and to "certificate uploaded" only with the latest version signed off. */
  lemma ChangeTakenIff(db: Db, id: Id, to: Status, permitted: bool)
    requires Inv(db)
    ensures ChangeAccepted(db, id, to, permitted) <==>
              && id < |db.files| && !db.files[id].record.deleted && permitted
              && to in NextStatuses(db.files[id].record.status)
              && (to == CertificateUploaded ==>
                    && db.files[id].certificate.Some?
                    && var c := db.files[id].certificate.value;
                       c.versions != [] && c.verification == Verified && c.verifiedVersion == Some(|c.versions|))
  {
    if id < |db.files| && db.files[id].certificate.Some? {
      assert db.files[id] in db.files;
    }
  }

  /** A change writes the status and nothing else; a payment goes on to Certificate Verification at once. */
  lemma ChangeWrites(db: Db, id: Id, to: Status, permitted: bool)
    ensures ChangeStatusOf(db, id, to, permitted) ==
              if !ChangeAccepted(db, id, to, permitted) then db
              else db.(files := db.files[id := db.files[id].(record := db.files[id].record.(
                     status := if to == PaymentReceived then CertificatePending else to))])
  {
  }

  /** A settled invoice takes a record that waits for its payment, or has it, to Certificate Verification, and no other. */
  lemma InvoiceWrites(db: Db, id: Id)
    requires id < |db.files|
    ensures var f, after := db.files[id], SettleInvoiceOf(db, id);
            && after == db.(files := db.files[id := after.files[id]])
            && after.files[id] == f.(record := f.record.(
                 status := if f.record.status == PaymentPending || f.record.status == PaymentReceived
                           then CertificatePending else f.record.status))
  {
  }

  /** A desk entry opens one record at the status given, outside the mirror, with the number it brings and no file behind it. */
  lemma DeskEntryWrites(db: Db, owner: Option<Id>, status: Status, number: Option<Text>, terms: Terms)
    ensures var after := EnterRecord(db, owner, status, number, terms);
            var live := owner.Some? && LiveApplicant(db, owner.value);
            && after == db.(files := after.files, applicants := if live then db.applicants else db.applicants + [Applicant(false)])
            && |after.files| == |db.files| + 1 && after.files[..|db.files|] == db.files
            && var f := after.files[|db.files|];
               && f.record == Record(if live then owner.value else |db.applicants|, None, status, false, terms, PaymentDue,
                                     NotDispatched, number.Some?)
               && f.payment.None? && f.dispatch.None? && f.mirror.None?
               && (number.None? ==> f.certificate.None?)
               && (number.Some? ==> f.certificate.Some? && f.certificate.value.number == number
                                    && f.certificate.value.versions == [] && f.certificate.value.verification == AwaitingUpload
                                    && f.certificate.value.currentVersion == 1 && f.certificate.value.verifiedVersion.None?)
  {
  }

  // ── The reset ────────────────────────────────────────────────────────────

  /** A reset clears the mirrored records and the owners it leaves with nothing, empties the mirror and the events, and keeps all else. */
  lemma ResetWrites(db: Db)
    ensures var after := ResetAll(db);
            && after.events == map[] && after.ledger == db.ledger
            && |after.files| == |db.files| && |after.applicants| == |db.applicants|
            && (forall i :: 0 <= i < |db.files| && db.files[i].mirror.None? ==> after.files[i] == db.files[i])
            && (forall i :: 0 <= i < |db.files| && db.files[i].mirror.Some? ==>
                  after.files[i] == db.files[i].(record := db.files[i].record.(deleted := true), mirror := None))
            && (forall a :: 0 <= a < |db.applicants| ==>
                  after.applicants[a].deleted ==
                    (db.applicants[a].deleted ||
                     ((exists i :: 0 <= i < |db.files| && db.files[i].mirror.Some? && db.files[i].mirror.value.applicant == a) &&
                      forall i :: 0 <= i < |after.files| && after.files[i].record.applicant == a ==> after.files[i].record.deleted)))
  {
    var after := ResetAll(db);
    forall a | 0 <= a < |db.applicants|
      ensures OwnsMirrored(db, a) <==>
                exists i :: 0 <= i < |db.files| && db.files[i].mirror.Some? && db.files[i].mirror.value.applicant == a
      ensures Survives(db, a) <==>
                exists i :: 0 <= i < |after.files| && after.files[i].record.applicant == a && !after.files[i].record.deleted
    {
      assert forall i :: 0 <= i < |db.files| ==> db.files[i] in db.files && after.files[i] == Cleared(db.files[i]);
    }
  }
}
