/**
 * One mirrored record and what a website snapshot does to it.
 *
 * A table with a unique index on the record id (payments, certificates, the current
 * dispatch, the mirror row) is an optional part of the record's `File`. Receipts are
 * kept in one ledger, because their idempotency keys are unique across records.
 */
module Lifecycle {
  import opened Wrappers
  import opened Stages
  import opened StatusLadder

  type Id = nat
  type Time = int

  /** A trimmed, non-empty string, as the webhook schema delivers it. */
  type Text = s: string | s != "" witness "-"

  /** Delivery statuses, in the order the catalogue declares them. */
  datatype Delivery = NotDispatched | Packed | OnItsWay | InTransit | OutForDelivery | Arrived | Returned | Lost

  datatype PaymentStatus = PaymentDue | PaymentPartial | PaymentSettled

  datatype Verification = AwaitingUpload | PendingVerification | Verified

  datatype Terms = Terms(processingType: string, adjudicatorRequested: bool, adjudicatorFeeDue: bool)

  // ── What the website sends ───────────────────────────────────────────────

  /** Amounts are in paise; `amount` is the rupee string, `amountPaise` the integer field. */
  datatype PaymentBlock = PaymentBlock(
    externalId: Option<Text>, amount: Option<nat>, amountPaise: Option<nat>, status: Option<Text>,
    reference: Option<Text>, paidAt: Option<Time>, deadline: Option<Time>)

  datatype CertificateBlock = CertificateBlock(number: Text, issuedAt: Option<Time>)

  datatype DispatchBlock = DispatchBlock(
    status: Option<Text>, courier: Option<Text>, tracking: Option<Text>, url: Option<Text>,
    sentOn: Option<Time>, arrivedOn: Option<Time>, notes: Option<Text>)

  /** `rest` stands for the other hashed fields; `extra` for what the hash leaves out. */
  datatype Payload = Payload(
    externalId: Text, stage: Option<Stage>, terms: Terms, payment: Option<PaymentBlock>,
    certificate: Option<CertificateBlock>, dispatch: Option<DispatchBlock>, rest: string, extra: string)

  /** The content hash of a snapshot, as an ideal hash: exactly the fields it covers. */
  datatype Fingerprint = Fingerprint(
    externalId: Text, stage: Option<Stage>, terms: Terms, payment: Option<PaymentBlock>,
    certificate: Option<CertificateBlock>, dispatch: Option<DispatchBlock>, rest: string)

  function SnapshotHash(p: Payload): Fingerprint {
    Fingerprint(p.externalId, p.stage, p.terms, p.payment, p.certificate, p.dispatch, p.rest)
  }

  // ── What the CRM holds ───────────────────────────────────────────────────

  datatype Record = Record(
    applicant: Id, externalId: Option<Text>, status: Status, deleted: bool, terms: Terms,
    paymentStatus: PaymentStatus, deliveryStatus: Delivery, hasCertificate: bool)

  datatype Payment = Payment(
    finalAmount: nat, amountPaid: nat, status: PaymentStatus, settledAt: Option<Time>, dueDate: Option<Time>)

  datatype Receipt = Receipt(record: Id, amount: nat, paidOn: Time, reference: Option<Text>, key: Option<Text>)

  datatype Version = Version(version: nat, number: Text, pdfKey: string)

  datatype Certificate = Certificate(
    number: Option<Text>, currentVersion: nat, issueDate: Option<Time>,
    verification: Verification, verifiedVersion: Option<nat>, versions: seq<Version>)

  datatype Dispatch = Dispatch(
    courier: Text, tracking: Option<Text>, url: Option<Text>, status: Delivery,
    sentOn: Option<Time>, arrivedOn: Option<Time>, remarks: Option<Text>)

  datatype Mirror = Mirror(externalId: Text, applicant: Id, stage: Option<Stage>, inbound: Fingerprint)

  datatype File = File(
    record: Record, payment: Option<Payment>, certificate: Option<Certificate>,
    dispatch: Option<Dispatch>, mirror: Option<Mirror>)

  /** One record's file together with the ledger every record shares. */
  datatype Book = Book(file: File, ledger: seq<Receipt>)

  predicate SignedOff(certificate: Option<Certificate>) {
    certificate.Some? && certificate.value.verification == Verified
  }

  // ── The meaning of each block ────────────────────────────────────────────

  const PAID_STATUS: Text := "paid"
  const COURIER_PLACEHOLDER: Text := "To be assigned"
  const DISPATCH_REMARK: Text := "Created on the NBR website"

  function Amount(block: PaymentBlock): nat {
    block.amount.GetOr(block.amountPaise.GetOr(0))
  }

  predicate ReportsMoney(p: Payload) {
    p.payment.Some? && p.payment.value.status == Some(PAID_STATUS) && Amount(p.payment.value) > 0
  }

  function ReceiptKey(p: Payload): Text
    requires p.payment.Some?
  {
    "legacy:" + p.payment.value.externalId.GetOr(p.externalId)
  }

  predicate SameKey(r: Receipt, key: Text) {
    r.key == Some(key)
  }

  predicate SameReference(r: Receipt, record: Id, reference: Option<Text>) {
    reference.Some? && r.record == record && r.reference == reference
  }

  /** The receipt is in the ledger already, under its key or under its reference. */
  predicate AlreadyBanked(ledger: seq<Receipt>, record: Id, key: Text, reference: Option<Text>) {
    exists r <- ledger :: SameKey(r, key) || SameReference(r, record, reference)
  }

  function AmountPaid(payment: Option<Payment>): nat {
    if payment.Some? then payment.value.amountPaid else 0
  }

  function Bank(b: Book, id: Id, p: Payload, now: Time): Book {
    if !ReportsMoney(p) then b
    else
      var block := p.payment.value;
      if b.file.payment.Some? && b.file.payment.value.amountPaid >= Amount(block) then b
      else
        var plan := b.file.payment.OrElse(Some(Payment(Amount(block), 0, PaymentDue, None, block.deadline))).value;
        if AlreadyBanked(b.ledger, id, ReceiptKey(p), block.reference) then b.(file := b.file.(payment := Some(plan)))
        else
          var paidOn := block.paidAt.GetOr(now);
          Book(
            b.file.(payment := Some(plan.(amountPaid := Amount(block), status := PaymentSettled, settledAt := Some(paidOn))),
                    record := b.file.record.(paymentStatus := PaymentSettled)),
            b.ledger + [Receipt(id, Amount(block), paidOn, block.reference, Some(ReceiptKey(p)))])
  }

  function NoteCertificate(certificate: Option<Certificate>, block: Option<CertificateBlock>): Option<Certificate> {
    if block.None? then certificate
    else if certificate.None? then
      Some(Certificate(Some(block.value.number), 0, block.value.issuedAt, AwaitingUpload, None, []))
    else if certificate.value.versions != [] || certificate.value.number == Some(block.value.number) then certificate
    else Some(certificate.value.(number := Some(block.value.number), issueDate := block.value.issuedAt))
  }

  function MapDelivery(status: Option<Text>): Delivery {
    if status == Some("preparing") then Packed
    else if status == Some("dispatched") then OnItsWay
    else if status == Some("delivered") then Arrived
    else NotDispatched
  }

  predicate DispatchUnchanged(dispatch: Option<Dispatch>, block: DispatchBlock) {
    && dispatch.Some?
    && dispatch.value.status == MapDelivery(block.status)
    && dispatch.value.tracking == block.tracking
  }

  function NoteDispatch(file: File, block: Option<DispatchBlock>): File {
    if block.None? || DispatchUnchanged(file.dispatch, block.value) then file
    else
      var d := block.value;
      var remarks := if file.dispatch.Some? then d.notes else Some(d.notes.GetOr(DISPATCH_REMARK));
      file.(dispatch := Some(Dispatch(d.courier.GetOr(COURIER_PLACEHOLDER), d.tracking, d.url, MapDelivery(d.status),
                                      d.sentOn, d.arrivedOn, remarks)),
            record := file.record.(deliveryStatus := MapDelivery(d.status)))
  }

  /** `row` is what the record holds, `current` what the caller says it holds. */
  function MoveStatus(row: Status, current: Status, report: Report): Status {
    if Settle(current, report) == current then row else Settle(current, report)
  }

  /** One snapshot, on every part of the file. */
  function Apply(b: Book, id: Id, p: Payload, current: Status, now: Time): Book {
    var banked := Bank(b.(file := b.file.(record := b.file.record.(terms := p.terms))), id, p, now);
    var noted := banked.file.(certificate := NoteCertificate(banked.file.certificate, p.certificate));
    var sent := NoteDispatch(noted, p.dispatch);
    var report := Report(p.stage, SignedOff(sent.certificate));
    Book(sent.(record := sent.record.(status := MoveStatus(sent.record.status, current, report))), banked.ledger)
  }

  // ── Status ───────────────────────────────────────────────────────────────

  /** Banking writes the payment, its status and a receipt, and nothing else. */
  lemma BankFrame(b: Book, id: Id, p: Payload, now: Time)
    ensures var after := Bank(b, id, p, now).file;
            after == b.file.(payment := after.payment,
                             record := b.file.record.(paymentStatus := after.record.paymentStatus))
  {
  }

  /** The courier block writes the parcel and its status, and nothing else. */
  lemma DispatchFrame(file: File, block: Option<DispatchBlock>)
    ensures var after := NoteDispatch(file, block);
            after == file.(dispatch := after.dispatch,
                           record := file.record.(deliveryStatus := after.record.deliveryStatus))
  {
  }

  /** What a snapshot does to the record, by whatever status its caller remembers and the sign-off of the moment. */
  lemma ApplyMoves(b: Book, id: Id, p: Payload, current: Status, now: Time)
    ensures var after := Apply(b, id, p, current, now).file;
            && after.record.status ==
               MoveStatus(b.file.record.status, current, Report(p.stage, SignedOff(b.file.certificate)))
            && SignedOff(after.certificate) == SignedOff(b.file.certificate)
            && after.record.externalId == b.file.record.externalId
            && after.record.applicant == b.file.record.applicant
            && after.record.deleted == b.file.record.deleted
            && after.mirror == b.file.mirror
            && after.certificate == NoteCertificate(b.file.certificate, p.certificate)
  {
    var started := b.(file := b.file.(record := b.file.record.(terms := p.terms)));
    var banked := Bank(started, id, p, now);
    BankFrame(started, id, p, now);
    DispatchFrame(banked.file.(certificate := NoteCertificate(banked.file.certificate, p.certificate)), p.dispatch);
  }

  /** Applied by the status the record holds, a snapshot settles it. */
  lemma ApplySettles(b: Book, id: Id, p: Payload, now: Time)
    ensures var after := Apply(b, id, p, b.file.record.status, now).file;
            && after.record.status == Settle(b.file.record.status, Report(p.stage, SignedOff(b.file.certificate)))
            && SignedOff(after.certificate) == SignedOff(b.file.certificate)
            && after.record.externalId == b.file.record.externalId
            && after.record.applicant == b.file.record.applicant
            && after.record.deleted == b.file.record.deleted
            && after.mirror == b.file.mirror
            && after.certificate == NoteCertificate(b.file.certificate, p.certificate)
  {
    ApplyMoves(b, id, p, b.file.record.status, now);
  }

  function ImportStatus(stage: Option<Stage>): Status {
    if stage.Some? then StageToStatus(stage.value) else ApplicationSubmitted
  }

  /**
   * A first import writes the raw mapped status and then applies the snapshot as if the
   * record were a new application; it lands exactly where the gate allows.
   */
  lemma ImportLands(stage: Option<Stage>)
    ensures MoveStatus(ImportStatus(stage), ApplicationSubmitted, Report(stage, false)) ==
            if stage.Some? then Effective(stage.value, false) else ApplicationSubmitted
  {
  }

  /** A run of snapshots on one record, each judged by the sign-off of its moment. */
  function ApplyAll(b: Book, id: Id, ps: seq<Payload>, now: Time): Book {
    if ps == [] then b
    else
      var before := ApplyAll(b, id, ps[..|ps| - 1], now);
      Apply(before, id, ps[|ps| - 1], before.file.record.status, now)
  }

  function Reports(ps: seq<Payload>, verified: bool): (rs: seq<Report>)
    ensures |rs| == |ps|
    ensures forall i :: 0 <= i < |ps| ==> rs[i] == Report(ps[i].stage, verified)
  {
    seq(|ps|, i requires 0 <= i < |ps| => Report(ps[i].stage, verified))
  }

  /** Whole snapshots move the status exactly as their reports do. */
  lemma {:induction false} ApplyAllRuns(b: Book, id: Id, ps: seq<Payload>, now: Time)
    ensures SignedOff(ApplyAll(b, id, ps, now).file.certificate) == SignedOff(b.file.certificate)
    ensures ApplyAll(b, id, ps, now).file.record.status ==
            Reach(b.file.record.status, Reports(ps, SignedOff(b.file.certificate)))
  {
    if ps != [] {
      var front := ps[..|ps| - 1];
      ApplyAllRuns(b, id, front, now);
      ApplySettles(ApplyAll(b, id, front, now), id, ps[|ps| - 1], now);
      var rs := Reports(ps, SignedOff(b.file.certificate));
      assert rs[..|rs| - 1] == Reports(front, SignedOff(b.file.certificate));
    }
  }

  predicate NoDecisions(ps: seq<Payload>) {
    forall p <- ps :: p.stage.Some? ==> !IsDecisionStage(p.stage.value)
  }

  /** Convergence: the same snapshots, in any order and any number of times, end in the same status. */
  lemma {:induction false} MirrorConverges(b: Book, id: Id, ps: seq<Payload>, qs: seq<Payload>, now: Time)
    requires !IsDecisionStatus(b.file.record.status) && NoDecisions(ps)
    requires forall p :: p in ps <==> p in qs
    ensures ApplyAll(b, id, ps, now).file.record.status == ApplyAll(b, id, qs, now).file.record.status
    ensures forall p <- ps :: p.stage.Some? ==>
              var reached := ApplyAll(b, id, ps, now).file.record.status;
              var put := Effective(p.stage.value, SignedOff(b.file.certificate));
              !IsDecisionStatus(reached) && !IsDecisionStatus(put) && LadderRank(put) <= LadderRank(reached)
  {
    var start, signed := b.file.record.status, SignedOff(b.file.certificate);
    var rs, ss := Reports(ps, signed), Reports(qs, signed);
    ApplyAllRuns(b, id, ps, now);
    ApplyAllRuns(b, id, qs, now);
    assert NoDecision(rs) by {
      forall r | r in rs ensures r.stage.Some? ==> !IsDecisionStage(r.stage.value) {
        var i :| 0 <= i < |rs| && rs[i] == r;
        assert ps[i] in ps;
      }
    }
    forall r ensures r in rs <==> r in ss {
      SameReports(ps, qs, signed, r);
      SameReports(qs, ps, signed, r);
    }
    OrderAndRepetitionIrrelevant(start, rs, ss);
    RunIsGreatest(start, rs);
    forall p | p in ps && p.stage.Some?
      ensures Reported(start, rs, Effective(p.stage.value, signed))
    {
      var i :| 0 <= i < |ps| && ps[i] == p;
      assert rs[i] in rs;
    }
  }

  lemma SameReports(ps: seq<Payload>, qs: seq<Payload>, verified: bool, r: Report)
    requires forall p :: p in ps ==> p in qs
    ensures r in Reports(ps, verified) ==> r in Reports(qs, verified)
  {
    var rs, ss := Reports(ps, verified), Reports(qs, verified);
    if r in rs {
      var i :| 0 <= i < |rs| && rs[i] == r;
      assert ps[i] in ps;
      var j :| 0 <= j < |qs| && qs[j] == ps[i];
      assert ss[j] == r;
    }
  }

  // ── Idempotence ──────────────────────────────────────────────────────────

  lemma BankIdempotent(b: Book, id: Id, p: Payload, now: Time, later: Time)
    ensures Bank(Bank(b, id, p, now), id, p, later) == Bank(b, id, p, now)
  {
  }

  lemma NotesIdempotent(file: File, p: Payload)
    ensures NoteCertificate(NoteCertificate(file.certificate, p.certificate), p.certificate)
            == NoteCertificate(file.certificate, p.certificate)
    ensures NoteDispatch(NoteDispatch(file, p.dispatch), p.dispatch) == NoteDispatch(file, p.dispatch)
  {
  }

  /** The same snapshot twice in a row is the snapshot once, whenever the second one lands. */
  lemma SnapshotIdempotent(b: Book, id: Id, p: Payload, now: Time, later: Time)
    ensures var once := Apply(b, id, p, b.file.record.status, now);
            Apply(once, id, p, once.file.record.status, later) == once
  {
    var started := b.(file := b.file.(record := b.file.record.(terms := p.terms)));
    var banked := Bank(started, id, p, now);
    var once := Apply(b, id, p, b.file.record.status, now);
    BankFixed(once, id, p, now, later, started);
    NotesIdempotent(banked.file, p);
    SettleIdempotent(b.file.record.status, Report(p.stage, SignedOff(b.file.certificate)));
    ApplySettles(b, id, p, now);
    ApplySettles(once, id, p, later);
    DispatchFixed(banked.file.(certificate := NoteCertificate(banked.file.certificate, p.certificate)), once.file, p);
  }

  /** Money already banked stays banked, whatever else changed in the file. */
  lemma BankFixed(once: Book, id: Id, p: Payload, now: Time, later: Time, started: Book)
    requires once.ledger == Bank(started, id, p, now).ledger
    requires once.file.payment == Bank(started, id, p, now).file.payment
    ensures Bank(once, id, p, later) == once
  {
    BankIdempotent(started, id, p, now, later);
    assert once.file.(payment := once.file.payment) == once.file;
  }

  lemma DispatchFixed(before: File, after: File, p: Payload)
    requires after.dispatch == NoteDispatch(before, p.dispatch).dispatch
    ensures NoteDispatch(after, p.dispatch) == after
  {
  }

  // ── Money only moves forward, and never twice ────────────────────────────

  predicate DistinctReceipts(a: Receipt, b: Receipt) {
    && (a.key.Some? ==> a.key != b.key)
    && (a.reference.Some? && a.record == b.record ==> a.reference != b.reference)
  }

  /** The two partial unique indexes on the receipts table. */
  predicate UniqueReceipts(ledger: seq<Receipt>) {
    forall i, j :: 0 <= i < j < |ledger| ==> DistinctReceipts(ledger[i], ledger[j])
  }

  lemma MoneyMovesForward(b: Book, id: Id, p: Payload, current: Status, now: Time)
    ensures var after := Apply(b, id, p, current, now);
            && AmountPaid(after.file.payment) >= AmountPaid(b.file.payment)
            && b.ledger <= after.ledger
            && |after.ledger| <= |b.ledger| + 1
            && (UniqueReceipts(b.ledger) ==> UniqueReceipts(after.ledger))
  {
    var started := b.(file := b.file.(record := b.file.record.(terms := p.terms)));
    BankForward(started, id, p, now);
  }

  lemma BankForward(b: Book, id: Id, p: Payload, now: Time)
    ensures var after := Bank(b, id, p, now);
            && AmountPaid(after.file.payment) >= AmountPaid(b.file.payment)
            && b.ledger <= after.ledger
            && |after.ledger| <= |b.ledger| + 1
            && (UniqueReceipts(b.ledger) ==> UniqueReceipts(after.ledger))
  {
    var after := Bank(b, id, p, now);
    if after.ledger != b.ledger && UniqueReceipts(b.ledger) {
      forall i, j | 0 <= i < j < |after.ledger|
        ensures DistinctReceipts(after.ledger[i], after.ledger[j])
      {
        if j == |b.ledger| {
          assert b.ledger[i] in b.ledger;
          assert !SameKey(b.ledger[i], ReceiptKey(p));
        } else {
          assert DistinctReceipts(b.ledger[i], b.ledger[j]);
        }
      }
    }
  }

  // ── The ledger and the plan ──────────────────────────────────────────────

  function Banked(ledger: seq<Receipt>, id: Id): nat {
    if ledger == [] then 0
    else Banked(ledger[..|ledger| - 1], id) +
         if ledger[|ledger| - 1].record == id then ledger[|ledger| - 1].amount else 0
  }

  /**
   * The snapshot brings money the record does not have yet: it says paid, of more than the
   * plan holds, and no receipt carries its key, or its reference on this record. The
   * amount is the rupee field's if it is there, and the paise field's otherwise.
   */
  predicate WillBank(b: Book, id: Id, p: Payload, amount: nat) {
    && p.payment.Some?
    && p.payment.value.status == Some("paid")
    && (p.payment.value.amount == Some(amount)
        || (p.payment.value.amount.None? && p.payment.value.amountPaise == Some(amount)))
    && amount > AmountPaid(b.file.payment)
    && forall r <- b.ledger ::
         && r.key != Some(KeyFor(p))
         && (p.payment.value.reference.Some? ==> r.record != id || r.reference != p.payment.value.reference)
  }

  /** The website's payment id, or else the application's, under the website's own prefix. */
  function KeyFor(p: Payload): string
    requires p.payment.Some?
  {
    if p.payment.value.externalId.Some? then "legacy:" + p.payment.value.externalId.value else "legacy:" + p.externalId
  }

  lemma WillBankAmount(b: Book, id: Id, p: Payload, amount: nat)
    requires WillBank(b, id, p, amount)
    ensures ReportsMoney(p) && Amount(p.payment.value) == amount && ReceiptKey(p) == KeyFor(p)
    ensures !AlreadyBanked(b.ledger, id, ReceiptKey(p), p.payment.value.reference)
  {
  }

  lemma BanksMeansWillBank(b: Book, id: Id, p: Payload)
    requires ReportsMoney(p) && Amount(p.payment.value) > AmountPaid(b.file.payment)
    requires !AlreadyBanked(b.ledger, id, ReceiptKey(p), p.payment.value.reference)
    ensures WillBank(b, id, p, Amount(p.payment.value))
  {
    forall r | r in b.ledger
      ensures r.key != Some(KeyFor(p))
      ensures p.payment.value.reference.Some? ==> r.record != id || r.reference != p.payment.value.reference
    {
      assert !SameKey(r, ReceiptKey(p)) && !SameReference(r, id, p.payment.value.reference);
    }
  }

  /**
   * A snapshot sets the amount paid rather than adding to it, so the plan and its
   * receipts stay in agreement exactly when nothing was paid before the snapshot's
   * receipt is written, or none is written.
   */
  lemma ReceiptsAgreeIff(b: Book, id: Id, p: Payload, current: Status, now: Time)
    requires AmountPaid(b.file.payment) == Banked(b.ledger, id)
    ensures var after := Apply(b, id, p, current, now);
            AmountPaid(after.file.payment) == Banked(after.ledger, id) <==>
            !(exists amount: nat :: WillBank(b, id, p, amount)) || AmountPaid(b.file.payment) == 0
  {
    if amount: nat :| WillBank(b, id, p, amount) {
      WillBankAmount(b, id, p, amount);
    } else if ReportsMoney(p) && Amount(p.payment.value) > AmountPaid(b.file.payment)
              && !AlreadyBanked(b.ledger, id, ReceiptKey(p), p.payment.value.reference) {
      BanksMeansWillBank(b, id, p);
    }
  }

  // ── The website's certificate ────────────────────────────────────────────

  /**
   * What every certificate keeps: its versions are numbered from one without a gap, a
   * sign-off is of one of them, and they all carry the number on the head row.
   */
  predicate CertificateOk(c: Certificate) {
    && (forall k :: 0 <= k < |c.versions| ==> c.versions[k].version == k + 1)
    && (c.versions != [] ==> c.currentVersion == |c.versions|)
    && (c.verification == Verified ==> c.verifiedVersion.Some? && 1 <= c.verifiedVersion.value <= |c.versions|)
    && (c.number.Some? ==> forall v <- c.versions :: v.number == c.number.value)
  }

  /** The sign-off, if it stands, is of the latest upload. */
  predicate SignedLatest(c: Certificate) {
    c.verification == Verified ==> c.verifiedVersion == Some(|c.versions|)
  }

  /** `after` is a later state of the certificate `before`. */
  predicate CertificateKept(before: Option<Certificate>, after: Option<Certificate>) {
    before.Some? ==>
      && after.Some?
      && before.value.versions <= after.value.versions
      && (before.value.versions != [] ==> after.value.number == before.value.number)
  }

  lemma NotingNeverAdopts(certificate: Option<Certificate>, block: Option<CertificateBlock>)
    ensures var after := NoteCertificate(certificate, block);
            && CertificateKept(certificate, after)
            && (certificate.Some? && CertificateOk(certificate.value) ==> CertificateOk(after.value))
            && (certificate.None? && after.Some? ==> CertificateOk(after.value) && after.value.versions == [])
            && (block.Some? ==> after.Some? && (after.value.versions == [] ==>
              after.value.number == Some(block.value.number)))
  {
  }

  // ── The courier row does not merge forward ───────────────────────────────

  /** A dispatch block overwrites the parcel's status and tracking number, whatever they were. */
  lemma DispatchLastWriterWins(b: Book, id: Id, p: Payload, current: Status, now: Time)
    ensures var after := Apply(b, id, p, current, now).file;
            && (p.dispatch.Some? ==>
                  && after.dispatch.Some?
                  && after.dispatch.value.status == MapDelivery(p.dispatch.value.status)
                  && after.dispatch.value.tracking == p.dispatch.value.tracking)
            && (p.dispatch.None? ==> after.dispatch == b.file.dispatch)
  {
  }

  function Parcel(file: File): Delivery {
    if file.dispatch.Some? then file.dispatch.value.status else NotDispatched
  }

  /** Whatever order the statuses are taken to be in, the parcel is not moved back exactly when the block is not behind it. */
  lemma DispatchForwardIff(b: Book, id: Id, p: Payload, current: Status, now: Time, place: Delivery -> int)
    requires b.file.dispatch.Some?
    ensures var after := Apply(b, id, p, current, now).file;
            place(Parcel(after)) >= place(Parcel(b.file)) <==>
            p.dispatch.None? || place(MapDelivery(p.dispatch.value.status)) >= place(Parcel(b.file))
  {
  }

  /** Unlike statuses, parcels do not merge: two reports in the two orders agree only if they are of one status. */
  lemma DispatchOrderMatters(file: File, first: DispatchBlock, second: DispatchBlock)
    ensures Parcel(NoteDispatch(NoteDispatch(file, Some(first)), Some(second))) ==
            Parcel(NoteDispatch(NoteDispatch(file, Some(second)), Some(first)))
            <==> MapDelivery(first.status) == MapDelivery(second.status)
  {
  }

  /** So a late "dispatched" snapshot un-delivers a delivered parcel. */
  lemma DeliveredParcelDraggedBack(b: Book, id: Id, p: Payload, current: Status, now: Time)
    requires b.file.dispatch.Some? && b.file.dispatch.value.status == Arrived
    requires p.dispatch.Some? && p.dispatch.value.status == Some("dispatched")
    ensures Apply(b, id, p, current, now).file.dispatch.value.status == OnItsWay
    ensures Apply(b, id, p, current, now).file.record.deliveryStatus == OnItsWay
  {
  }
}
