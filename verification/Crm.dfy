/**
 * The CRM's tables, and what each operation does to them.
 *
 * Records and applicants are only ever appended, so a row's id is its position. An
 * operation that reads first and writes in a transaction afterwards is given in its
 * parts; `Runs` says how the parts of several interleave.
 */
module Crm {
  import opened Wrappers
  import opened Stages
  import opened StatusLadder
  import opened Lifecycle

  datatype Applicant = Applicant(deleted: bool)

  datatype EventStatus = Stored | Processing | Imported | Merged | DuplicateSkipped | BlockedByBlacklist | Failed

  datatype Event = Event(payload: Payload, status: EventStatus, attempts: nat)

  datatype Db = Db(
    files: seq<File>, ledger: seq<Receipt>, applicants: seq<Applicant>, events: map<Fingerprint, Event>)

  /** What the duplicate check says about a new applicant; it only knows live ones. */
  datatype Match = NoMatch | SamePerson(applicant: Id) | OnBlacklist(applicant: Id)

  /** What an import reads of the record it is about, before anything else. */
  datatype Known = Known(id: Id, status: Status, wasDeleted: bool)

  // ── Inbound ──────────────────────────────────────────────────────────────

  /** The record a website application is known by, deleted or not. */
  function FindExternal(files: seq<File>, externalId: Text): (found: Option<Id>)
    ensures found.Some? ==> found.value < |files| && files[found.value].record.externalId == Some(externalId)
    ensures found.None? ==> forall f <- files :: f.record.externalId != Some(externalId)
  {
    if files == [] then None
    else
      var front := FindExternal(files[..|files| - 1], externalId);
      if front.Some? then front
      else if files[|files| - 1].record.externalId == Some(externalId) then Some(|files| - 1)
      else None
  }

  function ReceiveEvent(db: Db, p: Payload): Db {
    var key := SnapshotHash(p);
    if key in db.events then db else db.(events := db.events[key := Event(p, Stored, 0)])
  }

  predicate LiveApplicant(db: Db, a: Id) {
    a < |db.applicants| && !db.applicants[a].deleted
  }

  /** The applicant a match names, if it is still there. */
  function LiveOwner(db: Db, a: Option<Id>): Option<Id> {
    if a.Some? && LiveApplicant(db, a.value) then a else None
  }

  function MatchedOwner(db: Db, m: Match): Option<Id> {
    LiveOwner(db, if m.SamePerson? then Some(m.applicant) else None)
  }

  /** A record without an owner to go to brings a new one. */
  function OwnerId(db: Db, owner: Option<Id>): Id {
    owner.GetOr(|db.applicants|)
  }

  function WithOwner(db: Db, owner: Option<Id>): seq<Applicant> {
    if owner.Some? then db.applicants else db.applicants + [Applicant(false)]
  }

  function MirrorRow(p: Payload, owner: Id): Mirror {
    Mirror(p.externalId, owner, p.stage, SnapshotHash(p))
  }

  /** A record is first written at the raw status its stage maps to. */
  function NewFile(p: Payload, owner: Id): File {
    File(Record(owner, Some(p.externalId), ImportStatus(p.stage), false, p.terms, PaymentDue, NotDispatched, false),
         None, None, None, None)
  }

  /** The transaction that opens a record, under the owner found before it began. */
  function Import(db: Db, p: Payload, owner: Option<Id>, now: Time): Db {
    var a := OwnerId(db, owner);
    var book := Apply(Book(NewFile(p, a), db.ledger), |db.files|, p, ApplicationSubmitted, now);
    db.(files := db.files + [book.file.(mirror := Some(MirrorRow(p, a)))],
        ledger := book.ledger,
        applicants := WithOwner(db, owner))
  }

  function ReadKnown(db: Db, id: Id): Known
    requires id < |db.files|
  {
    Known(id, db.files[id].record.status, db.files[id].record.deleted)
  }

  /** The website still holds the application, so a record read as cleared is made live again. */
  function Revive(db: Db, known: Known): Db {
    if !known.wasDeleted || known.id >= |db.files| then db
    else
      var f := db.files[known.id];
      db.(files := db.files[known.id := f.(record := f.record.(deleted := false))],
          applicants := if f.record.applicant < |db.applicants|
                        then db.applicants[f.record.applicant := Applicant(false)] else db.applicants)
  }

  predicate AlreadyApplied(f: File, p: Payload) {
    f.mirror.Some? && f.mirror.value.inbound == SnapshotHash(p)
  }

  /** The transaction that applies a snapshot, by the status that was read before it began. */
  function CommitUpdate(db: Db, known: Known, p: Payload, now: Time): Db
    requires known.id < |db.files|
  {
    var f := db.files[known.id];
    var book := Apply(Book(f, db.ledger), known.id, p, known.status, now);
    db.(files := db.files[known.id := book.file.(mirror := Some(MirrorRow(p, f.record.applicant)))],
        ledger := book.ledger)
  }

  /** Revive, look at the mirror row, apply: with nothing else in between. */
  function Update(db: Db, known: Known, p: Payload, now: Time): Db
    requires known.id < |db.files|
  {
    var revived := Revive(db, known);
    if AlreadyApplied(revived.files[known.id], p) then revived else CommitUpdate(revived, known, p, now)
  }

  function ImportOrUpdate(db: Db, p: Payload, m: Match, now: Time): (Db, EventStatus) {
    var known := FindExternal(db.files, p.externalId);
    if known.Some? then
      (Update(db, ReadKnown(db, known.value), p, now),
       if AlreadyApplied(db.files[known.value], p) then DuplicateSkipped else Merged)
    else if m.OnBlacklist? then (db, BlockedByBlacklist)
    else (Import(db, p, MatchedOwner(db, m), now), if MatchedOwner(db, m).Some? then Merged else Imported)
  }

  function Note(db: Db, key: Fingerprint, status: EventStatus): Db {
    if key in db.events then db.(events := db.events[key := db.events[key].(status := status)]) else db
  }

  function Attempted(db: Db, key: Fingerprint): Db
    requires key in db.events
  {
    var e := db.events[key];
    db.(events := db.events[key := e.(status := Processing, attempts := e.attempts + 1)])
  }

  /** A stored event taken all the way through with nothing else in between. */
  function ProcessEvent(db: Db, key: Fingerprint, m: Match, now: Time): Db {
    if key !in db.events then db
    else
      var (after, status) := ImportOrUpdate(Attempted(db, key), db.events[key].payload, m, now);
      Note(after, key, status)
  }

  /** Where an attempt goes wrong, if it does. */
  datatype Fault = NoFault | BeforeWriting | InTransaction

  /** The same, with a fault: the event is marked failed, a revival stands, and a transaction leaves nothing. */
  function ProcessWith(db: Db, key: Fingerprint, m: Match, now: Time, fault: Fault): Db {
    if key !in db.events then db
    else
      match fault
      case NoFault => ProcessEvent(db, key, m, now)
      case BeforeWriting => Note(Attempted(db, key), key, Failed)
      case InTransaction =>
        var attempted, p := Attempted(db, key), db.events[key].payload;
        match FindExternal(attempted.files, p.externalId)
        case None => Note(attempted, key, if m.OnBlacklist? then BlockedByBlacklist else Failed)
        case Some(id) =>
          var revived := Revive(attempted, ReadKnown(attempted, id));
          Note(revived, key, if AlreadyApplied(revived.files[id], p) then DuplicateSkipped else Failed)
  }

  // ── Certificates ─────────────────────────────────────────────────────────

  /** A correction keeps the original number; only a first issue allocates one. */
  function IssueNumber(existing: Option<Certificate>, number: Option<Text>, minted: Text): Text {
    (if existing.Some? then existing.value.number else None).OrElse(number).GetOr(minted)
  }

  function UploadVersion(existing: Option<Certificate>, number: Option<Text>, minted: Text, issuedOn: Time,
                         pdfKey: string): Certificate {
    var versions := if existing.Some? then existing.value.versions else [];
    var issued := IssueNumber(existing, number, minted);
    Certificate(if existing.Some? then existing.value.number else Some(issued), |versions| + 1, Some(issuedOn),
                PendingVerification, None, versions + [Version(|versions| + 1, issued, pdfKey)])
  }

  function Present(db: Db, id: Id): bool {
    id < |db.files| && !db.files[id].record.deleted
  }

  function UploadTo(db: Db, id: Id, stored: bool, number: Option<Text>, minted: Text, issuedOn: Time,
                    pdfKey: string): Db {
    if !Present(db, id) || !stored then db
    else
      var f := db.files[id];
      db.(files := db.files[id := f.(certificate := Some(UploadVersion(f.certificate, number, minted, issuedOn, pdfKey)),
                                     record := f.record.(hasCertificate := true))])
  }

  /** The highest version number uploaded, if any. */
  function Latest(versions: seq<Version>): nat {
    if versions == [] then 0
    else
      var before, last := Latest(versions[..|versions| - 1]), versions[|versions| - 1].version;
      if last > before then last else before
  }

  predicate CanVerify(f: File) {
    && f.certificate.Some?
    && f.certificate.value.versions != []
    && !(f.certificate.value.verification == Verified
         && f.certificate.value.verifiedVersion == Some(Latest(f.certificate.value.versions)))
  }

  /** Move a record on only from where the caller expects it to be. */
  function Advance(status: Status, expectedFrom: set<Status>, to: Status): Status {
    if status in expectedFrom then to else status
  }

  function AfterSignOff(status: Status): Status {
    Advance(Advance(status, {PaymentReceived, CertificatePending}, CertificateUploaded),
            if status in {PaymentReceived, CertificatePending} then {CertificateUploaded} else {},
            DispatchPending)
  }

  predicate VerifyAccepted(db: Db, id: Id) {
    Present(db, id) && CanVerify(db.files[id])
  }

  /** The transaction of a sign-off, of the version that was the latest when it was asked for. */
  function SignOffOf(db: Db, id: Id, latest: nat): Db {
    if id >= |db.files| || db.files[id].certificate.None? then db
    else
      var f := db.files[id];
      var signed := f.certificate.value.(verification := Verified, verifiedVersion := Some(latest));
      db.(files := db.files[id := f.(certificate := Some(signed),
                                     record := f.record.(status := AfterSignOff(f.record.status)))])
  }

  function VerifyCertificate(db: Db, id: Id): Db {
    if !VerifyAccepted(db, id) then db else SignOffOf(db, id, Latest(db.files[id].certificate.value.versions))
  }

  // ── Operators ────────────────────────────────────────────────────────────

  /** The edges of the workflow. */
  function NextStatuses(from: Status): set<Status> {
    match from
    case NewLead => {ApplicationSubmitted, OnHold, Closed}
    case ApplicationSubmitted => {UnderReview, OnHold, Closed}
    case UnderReview => {VerificationPending, Rejected, OnHold}
    case VerificationPending => {Selected, Rejected, UnderReview, OnHold}
    case OnHold => {UnderReview, ApplicationSubmitted, Closed}
    case Selected => {PaymentPending, OnHold}
    case Rejected => {UnderReview}
    case PaymentPending => {PaymentReceived, OnHold}
    case PaymentReceived => {CertificatePending}
    case CertificatePending => {CertificateUploaded}
    case CertificateUploaded => {DispatchPending}
    case Publication => {Completed}
    case DispatchPending => {Dispatched}
    case Dispatched => {Delivered}
    case Delivered => {Publication, Completed}
    case Completed => {Delivered}
    case Closed => {ApplicationSubmitted}
  }

  /** The `certificate_verified` guard. */
  predicate CertificateVerified(c: Option<Certificate>) {
    && c.Some?
    && c.value.versions != []
    && c.value.verification == Verified
    && c.value.verifiedVersion == Some(c.value.currentVersion)
  }

  /** The checks of an operator's change; `permitted` stands for permissions, remarks, locks and the other data guards. */
  predicate ChangeAccepted(db: Db, id: Id, to: Status, permitted: bool) {
    && Present(db, id)
    && permitted
    && to in NextStatuses(db.files[id].record.status)
    && (to == CertificateUploaded ==> CertificateVerified(db.files[id].certificate))
  }

  /** The transaction of an operator's change. */
  function MoveTo(db: Db, id: Id, to: Status): Db {
    if id >= |db.files| then db
    else db.(files := db.files[id := db.files[id].(record := db.files[id].record.(status := to))])
  }

  /** Fees received: on to Certificate Verification without a second click. */
  function QueueCertificate(db: Db, id: Id, from: set<Status>): Db {
    if id >= |db.files| then db
    else MoveTo(db, id, Advance(db.files[id].record.status, from, CertificatePending))
  }

  function ChangeStatusOf(db: Db, id: Id, to: Status, permitted: bool): Db {
    if !ChangeAccepted(db, id, to, permitted) then db
    else if to == PaymentReceived then QueueCertificate(MoveTo(db, id, to), id, {PaymentReceived})
    else MoveTo(db, id, to)
  }

  function SettleInvoiceOf(db: Db, id: Id): Db {
    QueueCertificate(db, id, {PaymentPending, PaymentReceived})
  }

  /** A record entered at the desk; a back entry may bring a certificate number with no file behind it. */
  function EnterRecord(db: Db, owner: Option<Id>, status: Status, number: Option<Text>, terms: Terms): Db {
    var live := LiveOwner(db, owner);
    var certificate := if number.Some? then Some(Certificate(number, 1, None, AwaitingUpload, None, [])) else None;
    var record := Record(OwnerId(db, live), None, status, false, terms, PaymentDue, NotDispatched, number.Some?);
    db.(files := db.files + [File(record, None, certificate, None, None)], applicants := WithOwner(db, live))
  }

  // ── Reset ────────────────────────────────────────────────────────────────

  function Cleared(f: File): File {
    if f.mirror.Some? then f.(record := f.record.(deleted := true), mirror := None) else f
  }

  predicate OwnsMirrored(db: Db, a: Id) {
    exists f <- db.files :: f.mirror.Some? && f.mirror.value.applicant == a
  }

  predicate Survives(db: Db, a: Id) {
    exists f <- db.files :: f.record.applicant == a && !Cleared(f).record.deleted
  }

  function ResetAll(db: Db): Db {
    Db(seq(|db.files|, i requires 0 <= i < |db.files| => Cleared(db.files[i])),
       db.ledger,
       seq(|db.applicants|, a requires 0 <= a < |db.applicants| =>
         if OwnsMirrored(db, a) && !Survives(db, a) then Applicant(true) else db.applicants[a]),
       map[])
  }

  const EMPTY := Db([], [], [], map[])

  // ── Invariant ────────────────────────────────────────────────────────────

  predicate FileOk(f: File, applicants: seq<Applicant>) {
    && f.record.applicant < |applicants|
    && (f.certificate.Some? ==> CertificateOk(f.certificate.value))
    && (f.mirror.Some? ==> f.record.externalId == Some(f.mirror.value.externalId)
                           && f.mirror.value.applicant == f.record.applicant)
  }

  predicate Distinct(a: File, b: File) {
    a.record.externalId.Some? ==> a.record.externalId != b.record.externalId
  }

  predicate DistinctExternals(files: seq<File>) {
    forall i, j :: 0 <= i < j < |files| ==> Distinct(files[i], files[j])
  }

  predicate Inv(db: Db) {
    && (forall f <- db.files :: FileOk(f, db.applicants))
    && DistinctExternals(db.files)
    && UniqueReceipts(db.ledger)
    && (forall key <- db.events :: SnapshotHash(db.events[key].payload) == key)
  }

  /** What every step keeps of every file. */
  predicate Continues(before: File, after: File) {
    && after.record.externalId == before.record.externalId
    && after.record.applicant == before.record.applicant
    && AmountPaid(after.payment) >= AmountPaid(before.payment)
    && CertificateKept(before.certificate, after.certificate)
  }

  predicate Grows(before: Db, after: Db) {
    && |before.files| <= |after.files|
    && |before.applicants| <= |after.applicants|
    && before.ledger <= after.ledger
    && forall i :: 0 <= i < |before.files| ==> Continues(before.files[i], after.files[i])
  }

  // ── Every transaction keeps the invariant ────────────────────────────────

  /** A step that replaces one file by a later state of it, leaving the rest alone. */
  lemma ReplaceFile(db: Db, id: Id, f: File, ledger: seq<Receipt>)
    requires Inv(db) && id < |db.files| && FileOk(f, db.applicants) && Continues(db.files[id], f)
    requires db.ledger <= ledger && UniqueReceipts(ledger)
    ensures Inv(db.(files := db.files[id := f], ledger := ledger))
    ensures Grows(db, db.(files := db.files[id := f], ledger := ledger))
  {
  }

  /** A step that appends one file, perhaps with its owner. */
  lemma AppendFile(db: Db, f: File, ledger: seq<Receipt>, owner: Option<Id>)
    requires Inv(db) && FileOk(f, WithOwner(db, owner))
    requires f.record.externalId.Some? ==> forall g <- db.files :: g.record.externalId != f.record.externalId
    requires db.ledger <= ledger && UniqueReceipts(ledger)
    ensures var after := db.(files := db.files + [f], ledger := ledger, applicants := WithOwner(db, owner));
            Inv(after) && Grows(db, after)
  {
  }

  /** Changing an applicant's row in place disturbs nothing else. */
  lemma ApplicantKeeps(db: Db, a: Id, row: Applicant)
    requires Inv(db) && a < |db.applicants|
    ensures Inv(db.(applicants := db.applicants[a := row]))
  {
  }

  lemma ReviveKeeps(db: Db, known: Known)
    requires Inv(db)
    ensures var after := Revive(db, known);
            && Inv(after) && Grows(db, after) && |after.files| == |db.files|
            && (forall i :: 0 <= i < |db.files| ==>
                  after.files[i] == db.files[i].(record := after.files[i].record) &&
                  after.files[i].record == db.files[i].record.(deleted := after.files[i].record.deleted))
            && (forall i :: 0 <= i < |db.files| && i != known.id ==> after.files[i] == db.files[i])
  {
    if known.wasDeleted && known.id < |db.files| {
      var f := db.files[known.id];
      assert f in db.files;
      var woken := db.(applicants := db.applicants[f.record.applicant := Applicant(false)]);
      ApplicantKeeps(db, f.record.applicant, Applicant(false));
      ReplaceFile(woken, known.id, f.(record := f.record.(deleted := false)), db.ledger);
    }
  }

  lemma CommitKeeps(db: Db, known: Known, p: Payload, now: Time)
    requires Inv(db) && known.id < |db.files| && db.files[known.id].record.externalId == Some(p.externalId)
    ensures var after := CommitUpdate(db, known, p, now);
            && Inv(after) && Grows(db, after) && |after.files| == |db.files|
            && after.files[known.id].mirror.Some?
            && after.files[known.id].record.deleted == db.files[known.id].record.deleted
            && after.applicants == db.applicants && after.events == db.events
            && forall i :: 0 <= i < |db.files| && i != known.id ==> after.files[i] == db.files[i]
  {
    var f := db.files[known.id];
    assert f in db.files;
    var book := Apply(Book(f, db.ledger), known.id, p, known.status, now);
    ApplyMoves(Book(f, db.ledger), known.id, p, known.status, now);
    MoneyMovesForward(Book(f, db.ledger), known.id, p, known.status, now);
    NotingNeverAdopts(f.certificate, p.certificate);
    ReplaceFile(db, known.id, book.file.(mirror := Some(MirrorRow(p, f.record.applicant))), book.ledger);
  }

  lemma UpdateKeeps(db: Db, known: Known, p: Payload, now: Time)
    requires Inv(db) && known.id < |db.files| && db.files[known.id].record.externalId == Some(p.externalId)
    ensures var after := Update(db, known, p, now);
            && Inv(after) && Grows(db, after)
            && |after.files| == |db.files|
            && after.events == db.events
            && after.files[known.id].mirror.Some?
            && forall i :: 0 <= i < |db.files| && i != known.id ==> after.files[i] == db.files[i]
  {
    ReviveKeeps(db, known);
    var revived := Revive(db, known);
    if !AlreadyApplied(revived.files[known.id], p) {
      CommitKeeps(revived, known, p, now);
      GrowsTransitive(db, revived, Update(db, known, p, now));
    }
  }

  /** The file a first import opens: at the gated status, with no sign-off. */
  lemma ImportedFile(db: Db, p: Payload, owner: Option<Id>, now: Time)
    ensures var after := Import(db, p, owner, now);
            var f := after.files[|db.files|];
            && |after.files| == |db.files| + 1
            && f.record.externalId == Some(p.externalId)
            && f.record.applicant == OwnerId(db, owner)
            && !f.record.deleted
            && f.mirror == Some(MirrorRow(p, f.record.applicant))
            && f.record.status == (if p.stage.Some? then Effective(p.stage.value, false) else ApplicationSubmitted)
            && !SignedOff(f.certificate)
            && (f.certificate.Some? ==> CertificateOk(f.certificate.value))
  {
    var a := OwnerId(db, owner);
    ApplyMoves(Book(NewFile(p, a), db.ledger), |db.files|, p, ApplicationSubmitted, now);
    ImportLands(p.stage);
    NotingNeverAdopts(None, p.certificate);
  }

  lemma ImportKeeps(db: Db, p: Payload, owner: Option<Id>, now: Time)
    requires Inv(db) && FindExternal(db.files, p.externalId).None? && (owner.Some? ==> owner.value < |db.applicants|)
    ensures Inv(Import(db, p, owner, now)) && Grows(db, Import(db, p, owner, now))
  {
    var a := OwnerId(db, owner);
    var book := Apply(Book(NewFile(p, a), db.ledger), |db.files|, p, ApplicationSubmitted, now);
    MoneyMovesForward(Book(NewFile(p, a), db.ledger), |db.files|, p, ApplicationSubmitted, now);
    ImportedFile(db, p, owner, now);
    AppendFile(db, book.file.(mirror := Some(MirrorRow(p, a))), book.ledger, owner);
  }

  lemma EventsOnly(db: Db, key: Fingerprint, status: EventStatus)
    requires Inv(db)
    ensures Inv(Note(db, key, status)) && Grows(db, Note(db, key, status))
    ensures key in db.events ==> Inv(Attempted(db, key)) && Grows(db, Attempted(db, key))
  {
  }

  lemma ImportOrUpdateKeeps(db: Db, p: Payload, m: Match, now: Time)
    requires Inv(db)
    ensures var after := ImportOrUpdate(db, p, m, now).0;
            Inv(after) && Grows(db, after) && after.events == db.events
  {
    var known := FindExternal(db.files, p.externalId);
    if known.Some? {
      UpdateKeeps(db, ReadKnown(db, known.value), p, now);
    } else if !m.OnBlacklist? {
      ImportKeeps(db, p, MatchedOwner(db, m), now);
    }
  }

  lemma ProcessKeeps(db: Db, key: Fingerprint, m: Match, now: Time)
    requires Inv(db)
    ensures Inv(ProcessEvent(db, key, m, now)) && Grows(db, ProcessEvent(db, key, m, now))
  {
    if key in db.events {
      var attempted := Attempted(db, key);
      var (after, status) := ImportOrUpdate(attempted, db.events[key].payload, m, now);
      EventsOnly(db, key, status);
      ImportOrUpdateKeeps(attempted, db.events[key].payload, m, now);
      EventsOnly(after, key, status);
      GrowsTransitive(db, attempted, after);
      GrowsTransitive(db, after, Note(after, key, status));
    }
  }

  /** The highest, whatever the order of the rows. */
  lemma {:induction false} LatestIsHighest(versions: seq<Version>)
    ensures versions == [] ==> Latest(versions) == 0
    ensures forall k :: 0 <= k < |versions| ==> versions[k].version <= Latest(versions)
    ensures Latest(versions) != 0 ==> exists k :: 0 <= k < |versions| && versions[k].version == Latest(versions)
  {
    if versions != [] {
      var front := versions[..|versions| - 1];
      LatestIsHighest(front);
      if Latest(versions) == Latest(front) && Latest(front) != 0 {
        var k :| 0 <= k < |front| && front[k].version == Latest(front);
        assert versions[k].version == Latest(versions);
      }
    }
  }

  lemma LatestIsCount(versions: seq<Version>)
    requires forall k :: 0 <= k < |versions| ==> versions[k].version == k + 1
    ensures Latest(versions) == |versions|
  {
  }

  lemma UploadOk(existing: Option<Certificate>, number: Option<Text>, minted: Text, issuedOn: Time, pdfKey: string)
    requires existing.Some? ==> CertificateOk(existing.value)
    ensures var after := UploadVersion(existing, number, minted, issuedOn, pdfKey);
            && CertificateOk(after) && CertificateKept(existing, Some(after))
            && after.verification == PendingVerification
  {
  }

  lemma UploadKeeps(db: Db, id: Id, stored: bool, number: Option<Text>, minted: Text, issuedOn: Time, pdfKey: string)
    requires Inv(db)
    ensures var after := UploadTo(db, id, stored, number, minted, issuedOn, pdfKey); Inv(after) && Grows(db, after)
  {
    var after := UploadTo(db, id, stored, number, minted, issuedOn, pdfKey);
    if after != db {
      var f := db.files[id];
      assert f in db.files;
      UploadOk(f.certificate, number, minted, issuedOn, pdfKey);
      ReplaceFile(db, id, after.files[id], db.ledger);
    }
  }

  lemma SignOffKeeps(db: Db, id: Id, latest: nat)
    requires Inv(db)
    requires id < |db.files| && db.files[id].certificate.Some? ==>
               1 <= latest <= |db.files[id].certificate.value.versions|
    ensures Inv(SignOffOf(db, id, latest)) && Grows(db, SignOffOf(db, id, latest))
  {
    if id < |db.files| && db.files[id].certificate.Some? {
      assert db.files[id] in db.files;
      ReplaceFile(db, id, SignOffOf(db, id, latest).files[id], db.ledger);
    }
  }

  lemma MoveKeeps(db: Db, id: Id, to: Status)
    requires Inv(db)
    ensures Inv(MoveTo(db, id, to)) && Grows(db, MoveTo(db, id, to))
  {
    if id < |db.files| {
      assert db.files[id] in db.files;
      ReplaceFile(db, id, MoveTo(db, id, to).files[id], db.ledger);
    }
  }

  lemma EnterKeeps(db: Db, owner: Option<Id>, status: Status, number: Option<Text>, terms: Terms)
    requires Inv(db)
    ensures var after := EnterRecord(db, owner, status, number, terms); Inv(after) && Grows(db, after)
  {
    var after := EnterRecord(db, owner, status, number, terms);
    AppendFile(db, after.files[|db.files|], db.ledger, LiveOwner(db, owner));
  }

  lemma ResetKeeps(db: Db)
    requires Inv(db)
    ensures Inv(ResetAll(db)) && Grows(db, ResetAll(db))
  {
    var after := ResetAll(db);
    forall f | f in after.files ensures FileOk(f, after.applicants) {
      var i :| 0 <= i < |after.files| && after.files[i] == f;
      assert db.files[i] in db.files;
    }
    forall i, j | 0 <= i < j < |after.files| ensures Distinct(after.files[i], after.files[j]) {
      assert Distinct(db.files[i], db.files[j]);
    }
  }

  lemma GrowsTransitive(a: Db, b: Db, c: Db)
    requires Grows(a, b) && Grows(b, c)
    ensures Grows(a, c)
  {
  }
}
