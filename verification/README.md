# NBR CRM: a verified model

The CRM receives applications from the public NBR website, takes each one through payment,
certificate, dispatch and publication, and tells the website what it decides. This project
models the parts of it that run without anyone watching: the mirror of the website, the
certificate gate the mirror must not open, the migration run, sign-in sessions, the lists a
person pages through, the blacklist register, reference-data sync, the two text formats that
carry secrets, and two loops of the document kit. `dafny verify dfyconfig.toml` checks it.

## Layout

Each module states what an operation means as a function on values, proves the properties
about that function (over one call, over every run, or over every interleaving), and, where
the source changes rows, carries a class whose methods do it step by step and are proved
equal to the function.

| file | what it holds |
|---|---|
| `Stages`, `StatusLadder` | the website's stages, the CRM's statuses, their ranks; what a run of snapshots does to one status |
| `Lifecycle` | one snapshot applied to one record: payment, certificate, courier, status |
| `Crm`, `Runs` | the tables and what each operation does to them; the CRM as a state machine, in which imports, sign-offs and operators' changes read first and write later, and their parts interleave or fail |
| `Effects` | what each operation on a record writes, field by field, in terms of what it is given |
| `Gate`, `Resync` | the certificate gate and moving back, over whole runs; reset and re-push |
| `CrmService` | the services' methods, tied to `Lifecycle` and `Crm` |
| `Decisions` | close, reject and reopen crossing to the website and back; runs with the website's own moves, lost messages, and snapshots that arrive late or out of order |
| `Migrations` | ledger repair, high-water mark, completeness check, and any number of workers under the lock |
| `Sessions`, `Lockout`, `Durations` | refresh chains, revocation, the guard; the lockout; duration texts; one request at a time |
| `SessionRuns`, `LoginRuns` | refreshes and sign-in attempts that overlap |
| `Paging`, `Cursors` | keyset pages over a table that changes between requests; the text that carries a position from one page to the next, and what is lost when it is coarser than the column |
| `Blacklist`, `BlacklistRuns` | register, switch, flag and website in agreement; requests that overlap |
| `Sync` | category sync, retries, echo suppression |
| `Crypto`, `Strings` | encrypted fields under rotation, webhook signatures; splitting, joining, trimming |
| `PdfKit` | fitting a line, breaking styled runs into lines |

## Assumptions

- A database transaction is one step, and so is a single statement outside one. In `Runs`,
  `BlacklistRuns`, `SessionRuns` and `LoginRuns` what an operation reads before it writes is a step of
  its own, and any number of operations interleave; these are imports, sign-offs, operators' changes,
  register entries and lifts, refreshes and sign-in attempts. The two writes that revive a record are one
  step with the look at the mirror row after them; a revoke-all, and the issue of tokens at a sign-in, are
  one step each. `Sessions`, `Lockout` and `Blacklist` themselves take one request at a time.
- Hashes, the cipher and the MAC are ideal: a content hash is the fields it covers (also in the
  16 hex digits of the event key), a sealed value opens under its own key and no other, two
  different signed texts have two different signatures. `Crypto.Ideal` and `Crypto.IdealMac` say
  this in full. Base64 reads back and has no ':', as in section 4 of RFC 4648.
- Random tokens and ids are never guessed or repeated; a session, a token and a row are named by
  their position.
- One clock, in milliseconds, that does not run backwards. A JWT's times are whole seconds,
  rounded down, and it is refused from the second it names as its expiry.
- Drizzle's migrator, which is not in the repository, is taken as the source describes it: it
  reads the highest timestamp once, runs every entry above it in one transaction, and appends a
  row for each.
- A sort value stands for its place in the column's order. PostgreSQL keeps a `timestamptz` to the
  microsecond, and every row a transaction writes by `now()` has the transaction's own time; a
  JavaScript `Date`, and so a cursor, keeps milliseconds. Ids are uuids: they hold no '|'.
- The website's own routes are taken as the comments in `legacy-actions.service.ts` and
  `packages/shared/src/schemas/integration.ts` give them.

## Where the code and its documentation disagree

The model follows the code; a lemma shows each case and says exactly when the promise holds.

- `legacy-lifecycle.service.ts:101-105` promises "merge forward, never backward". The courier row
  does not: a late "dispatched" block un-delivers a delivered parcel
  (`Lifecycle.DispatchForwardIff`, `Lifecycle.DeliveredParcelDraggedBack`).
- A snapshot sets the amount paid to its own amount and adds one receipt of that amount, so the
  plan and its receipts agree afterwards only if nothing was paid before
  (`Lifecycle.ReceiptsAgreeIff`).
- The same comment's forward merge takes the record's status from a read made before the transaction
  (`nbr-website.service.ts:586-603`). A sign-off committed in between is undone: the record goes to
  Dispatch and the snapshot takes it back (`Gate.SignOffOvertakesSnapshot`). A record moves back exactly
  when the stage applied lies between the status read and the status found (`Gate.MovesBackIff`,
  `Gate.StepMovesBackIff`). The gate itself holds all the same (`Gate.MirrorCannotPassGate`).
- `workflow.service.ts:251-260` writes an operator's change whatever the record's status is by then. A
  payment mirrored in between is overwritten (`Gate.ChangeOvertakenByPayment`); when a change takes a
  record back is `Gate.ChangeTakesBackIff`.
- `certificates.service.ts:69-71` says approval never transfers. `markVerified` picks the version it signs
  off before its transaction (lines 288-316), so an upload in between is released to Dispatch unseen,
  and the mirror, which looks at the verification status only, takes it for verified
  (`Gate.UploadOvertakesSignOff`). The promise holds on every run in which no sign-off is overtaken
  (`Gate.ApprovalNeverTransfers`), and a sign-off is of the latest version exactly when nothing was
  uploaded since it was asked for (`Gate.SignOffOfLatestIff`).
- `nbr-website.service.ts:1244-1248` clears only applicants with nothing left, so that no record loses its
  owner. An import that looked its owner up before the reset opens a live record under a cleared
  applicant (`Runs.ResetDuringImport`); exactly which resets are safe is `Runs.ResetKeepsOwnersIff`.
- `migrate.ts:102-107` pairs rows with entries by position because "the nth row is the nth entry",
  and `178-183` says later workers find nothing to do. After a run that skipped an entry neither is
  so: the next worker re-stamps the wrong rows and can run an entry that was missing a second time,
  and then report success with another one never run (`Migrations.SkippedEntryNeverRuns`). Whether
  anything is repeated is decided by `Migrations.ExactlyOnceIff`. Whether a normal return can be
  believed is decided by `Migrations.NormalReturnHonestIff`: exactly when every missing entry is
  later than every recorded one. What was recorded at the start is never run again, on any journal
  (`Migrations.RecordedNeverRunAgain`).
- `legacy-actions.service.ts:112-117` gives two cases in which closing a record says nothing to the
  website. There is a third: an application the website has on hold
  (`Decisions.CloseEndsBothSidesIff`, `Decisions.HeldRecordClosedInSilence`).
- A close can be undone by a snapshot sent before it (`Decisions.LateSnapshotReopens`): nothing tells it
  from a reactivation, and every snapshot but the one applied last reopens a closed record unless it says
  ended itself (`Decisions.SnapshotReopensIff`).
- `auth.service.ts:349-353` says that reuse of a refresh token ends the whole chain. A refresh that has read
  its session by then still inserts a new one. A revoke-all leaves the user nothing to refresh, until they
  sign in, exactly when no refresh of theirs is under way (`SessionRuns.RevokeAllHoldsIff`). Two refreshes
  of one token that overlap both succeed (`SessionRuns.TwoRotations`, `SessionRuns.SecondChildIff`).
- `auth.service.ts:255-266` counts a failed attempt as the count it read plus one. Attempts that overlap are
  counted as one (`LoginRuns.OverlappingAttempts`), so the bound of `Lockout.GuessesBounded` is one for
  attempts that do not; the counter is right exactly while none is overtaken (`LoginRuns.CountsIff`,
  `LoginRuns.CounterExact`), and an overtaken one can lift a lock (`LoginRuns.LockLiftedIff`).
- `auth.service.ts:448-449` says a revoke-all invalidates every access token. If one deny-list write
  fails, the token version is not bumped and the tokens not reached stay good
  (`Sessions.FailedRevokeAll`); when all go through, the promise holds for good
  (`Sessions.RevokeAllIsForever`).
- `applicant-list.service.ts:41-43` says paging "never drops a row". A row whose sort value changes
  between two requests can be dropped or come twice; `Paging.MovedRow` says which, and
  `Paging.TouchedRowIsDropped` shows a touched row that no page lists.
- `applicant-list.service.ts:242-246`, `governance.service.ts:414-415` and `timeline.service.ts:177-179` say
  that rows of one millisecond are not lost at a page boundary. Their cursors are in milliseconds and
  their columns are not. Two audit entries of one transaction have the same time; unless that is a whole
  millisecond, the second is on no page when a page ends between them (`Cursors.SameMomentDropped`), and
  in ascending order a row that ends a page is listed again (`Cursors.AscendingComesAgain`) and the list
  can hand out one page for ever (`Cursors.TwoRowsForEver`, `Cursors.AscendingNeverEnds`). Newest first, a
  row that stays is listed exactly when no page ends before it at a cursor that reads back as past it
  (`Cursors.CoarseWalk`), so always if it shares its millisecond with no other
  (`Cursors.OwnTickExactlyOnce`). Oldest first, it is listed at least once, and once only exactly when no
  page ends at or after it with a cursor that reads back as before it (`Cursors.BackwardWalk`).
- `blacklist.service.ts:159-163` refuses an entry for someone who has one in force. It looks before the
  transaction and nothing in the schema stops a second: an operator's entry and a website's block that
  overlap leave two (`BlacklistRuns.OverlappingAdds`). Exactly an entry overtaken since it looked does
  that (`BlacklistRuns.SecondEntryOnlyIf`). Register, switch and flag agree all the same
  (`BlacklistRuns.EveryRunAgrees`), and one lift of two leaves the block standing
  (`BlacklistRuns.TwoEntriesTwoLifts`). A block told after its entry was lifted leaves the website blocking
  (`BlacklistRuns.LatePush`).
- `legacy-push.service.ts:132-135` says a push whose hash matches an inbound snapshot's is dropped as
  an echo. The code compares with the CRM's own last push: repeats are dropped even after the
  website has moved on, and true echoes are sent (`Sync.SuppressedIff`, `Sync.EchoesAndRepeats`). A reset
  forgets what was pushed (`Sync.ResetForgets`).
- `crypto.ts:132-133` says a value needs rotation when it was sealed under the previous key. It is
  also said of every four-part text that no key opens (`Crypto.NeedsRotationIff`).

## Model

| member | source | states |
|---|---|---|
| `Stages.RankOf` | apps/api/src/integrations/legacy-lifecycle.service.ts:695-703 | the stage-table lookup with its CRM-only fallback finds exactly the rank written out in full, and nothing for a decision status |
| `Stages.RankIsInjective` | apps/api/src/integrations/legacy-lifecycle.service.ts:75-84 | no two ladder statuses share a rank, so comparing ranks never confuses two places |
| `StatusLadder.SettleRespectsGate` | apps/api/src/integrations/legacy-lifecycle.service.ts:569-628 | one snapshot moves a record past Certificate Verification only if it is signed off, and never moves a record back along the ladder |
| `StatusLadder.SettleIsJoin` | apps/api/src/integrations/legacy-lifecycle.service.ts:596-628 | a ladder snapshot takes the further of where the record is and where the stage, capped by the gate, puts it |
| `StatusLadder.RunIsGreatest` | apps/api/src/integrations/legacy-lifecycle.service.ts:546-633 | any run of ladder snapshots ends at the greatest of the start and every effective stage reported |
| `StatusLadder.OrderAndRepetitionIrrelevant` | apps/api/src/integrations/legacy-lifecycle.service.ts:93-105 | two runs with the same snapshots, in any order and with any repetition, end in the same status |
| `StatusLadder.DecisionResets` | apps/api/src/integrations/legacy-lifecycle.service.ts:598-611 | a decision wipes out what came before it, the first ladder stage after it is taken whole, and from there the run is a join again |
| `Lifecycle.ImportLands` | apps/api/src/integrations/nbr-website.service.ts:698-810 | a first import, which writes the raw mapped status and then applies the snapshot as if the record were new, lands where the gate allows |
| `Lifecycle.ApplyMoves` | apps/api/src/integrations/legacy-lifecycle.service.ts:122-154 | a whole snapshot moves the status by the one the caller remembers and the sign-off the record had before it, and leaves identity, deletion, sign-off and mirror row alone |
| `Lifecycle.ApplySettles` | apps/api/src/integrations/legacy-lifecycle.service.ts:122-154 | with the status remembered as it is, that is settling the one snapshot |
| `Lifecycle.MirrorConverges` | apps/api/src/integrations/legacy-lifecycle.service.ts:93-105 | the same whole snapshots in any order and number end in the same status, at or past every stage reported |
| `Lifecycle.SnapshotIdempotent` | apps/api/src/integrations/legacy-lifecycle.service.ts:96-99 | applying a snapshot twice in a row is applying it once, on payment, receipts, certificate, courier and status, whenever the second lands |
| `Lifecycle.MoneyMovesForward` | apps/api/src/integrations/legacy-lifecycle.service.ts:205-303 | a snapshot never lowers the amount paid, adds at most one receipt, removes none, and keeps keys and per-record references unique |
| `Lifecycle.ReceiptsAgreeIff` | apps/api/src/integrations/legacy-lifecycle.service.ts:285-303 | plan and receipts that agreed before still agree exactly when no receipt is written or nothing had been paid |
| `Lifecycle.NotingNeverAdopts` | apps/api/src/integrations/legacy-lifecycle.service.ts:332-408 | the website's certificate number is recorded but replaces nothing that was uploaded, and signs nothing off |
| `Lifecycle.DispatchLastWriterWins` | apps/api/src/integrations/legacy-lifecycle.service.ts:438-503 | a courier block decides the parcel's status and tracking number, whatever they were; without one the parcel is as it was |
| `Lifecycle.DispatchForwardIff` | apps/api/src/integrations/legacy-lifecycle.service.ts:464-483 | in whatever order the delivery statuses are taken to be, the parcel does not move back exactly when the block told of it is not behind it |
| `Lifecycle.DispatchOrderMatters` | apps/api/src/integrations/legacy-lifecycle.service.ts:438-503 | unlike statuses, two courier blocks in the two orders leave the parcel in one status only if they report the same |
| `Lifecycle.DeliveredParcelDraggedBack` | apps/api/src/integrations/legacy-lifecycle.service.ts:471-502 | a late "dispatched" block un-delivers a delivered parcel |
| `Effects.MoneyBanked` | apps/api/src/integrations/legacy-lifecycle.service.ts:285-303 | a snapshot that says paid, of more than the plan holds, under a key and a reference not banked yet, adds one receipt with its amount (the rupee field, or else the paise field), date, reference and key, settles the plan at that amount and settles the record; a plan opened here is for that amount and due at the block's deadline |
| `Effects.NothingBanked` | apps/api/src/integrations/legacy-lifecycle.service.ts:170-283 | any other snapshot leaves ledger, amount paid and payment status as they were; at most it opens an unpaid plan for money banked elsewhere |
| `Effects.CertificateNoted` | apps/api/src/integrations/legacy-lifecycle.service.ts:332-408 | number and issue date of the website's certificate go on a record nothing was uploaded for; a row opened for it waits for an upload; nothing else of the certificate changes and no file is said to be on record |
| `Effects.ParcelNoted` | apps/api/src/integrations/legacy-lifecycle.service.ts:446-483 | what each word for a parcel comes to, that only a new status or tracking number rewrites the courier row, and what every field of it then holds |
| `Effects.NoParcelNoted` | apps/api/src/integrations/legacy-lifecycle.service.ts:444-445 | without a courier block the parcel and the delivery status stay |
| `Effects.TermsTaken` | apps/api/src/integrations/legacy-lifecycle.service.ts:139-145 | the record takes the snapshot's processing terms |
| `Effects.SameContentIff` | apps/api/src/integrations/nbr-website.service.ts:135-165 | two snapshots count as one content exactly when they differ in nothing but the extras |
| `Crm.ImportKeeps` | apps/api/src/integrations/nbr-website.service.ts:638-827 | a first import keeps every invariant and only adds |
| `Crm.UpdateKeeps` | apps/api/src/integrations/nbr-website.service.ts:869-945 | a snapshot on a known record, revived or not, keeps every invariant |
| `Crm.ProcessKeeps` | apps/api/src/integrations/nbr-website.service.ts:530-561 | a stored event taken all the way through keeps every invariant |
| `Effects.SnapshotStored` | apps/api/src/integrations/nbr-website.service.ts:275-303 | a snapshot with new content is stored, not attempted yet; a repeat changes nothing |
| `Effects.RecordOpened` | apps/api/src/integrations/nbr-website.service.ts:638-827 | what a first import opens: owner, terms, status, mirror row, and the one new applicant it may bring; every other record stays |
| `Effects.OpenedWithMoney` | apps/api/src/integrations/nbr-website.service.ts:790-812 | a first import that brings money banks it at once; one that brings none opens no plan |
| `Effects.OpenedWithBlocks` | apps/api/src/integrations/nbr-website.service.ts:790-812 | the certificate and the parcel a first snapshot brings |
| `Effects.NewApplicationTaken` | apps/api/src/integrations/nbr-website.service.ts:606-664 | a match on the blacklist stops an application not held yet; a live person it matches gets the record and nobody is added; otherwise it comes with a new applicant |
| `Effects.Revived` | apps/api/src/integrations/nbr-website.service.ts:886-902 | a cleared record is live again with its applicant, and nothing else changes |
| `Effects.KnownApplicationTaken` | apps/api/src/integrations/nbr-website.service.ts:869-945 | an application held already opens nothing: it comes back if it was cleared, is skipped if its content is held, and otherwise applied and remembered |
| `Effects.AttemptCounted` | apps/api/src/integrations/nbr-website.service.ts:530-537 | every attempt counts one on its event and touches no other |
| `Effects.AttemptRecorded` | apps/api/src/integrations/nbr-website.service.ts:548-575 | how it ended stands on the event, and a failure before or in the transaction of a new record leaves nothing else |
| `Effects.FailedUpdateLeaves` | apps/api/src/integrations/nbr-website.service.ts:562-575 | a failed update leaves only the revival before it |
| `Effects.FileUploaded` | apps/api/src/fulfilment/certificates.service.ts:117-198 | an upload appends one version with the file given, under the number held, given or minted, in that order, dates the certificate, leaves it to be verified, and changes nothing else |
| `Effects.NothingUploaded` | apps/api/src/fulfilment/certificates.service.ts:97-114 | without a live record or a stored file nothing changes |
| `Effects.SignOffTakenIff` | apps/api/src/fulfilment/certificates.service.ts:276-327 | a sign-off is taken exactly for a live record with an upload whose latest version is not signed off |
| `Effects.SignedOffWrites` | apps/api/src/fulfilment/certificates.service.ts:330-394 | it marks that version, and releases to Dispatch a record that is paid or at its certificate, and no other |
| `Effects.EdgeIff` | packages/shared/src/constants/workflow.ts:54-258 | the workflow's edges are one step along the main line, a hold before the payment, the closes and rejections, and the ways back |
| `Effects.ChangeTakenIff` | apps/api/src/records/workflow.service.ts:180-247 | an operator's change is taken exactly on a live record, along an edge, if permitted, and to certificate-uploaded only with the latest version signed off |
| `Effects.ChangeWrites` | apps/api/src/records/workflow.service.ts:251-304 | it writes the status and nothing else; a payment goes on to Certificate Verification at once |
| `Effects.InvoiceWrites` | apps/api/src/payments/payments.service.ts:289-299 | a settled invoice takes a record waiting for its payment, or paid, to Certificate Verification, and no other |
| `Effects.DeskEntryWrites` | apps/api/src/applicants/applicants.service.ts:182-215 | a desk entry opens one record at the status given, outside the mirror, with the number it brings and no file behind it |
| `Effects.ResetWrites` | apps/api/src/integrations/nbr-website.service.ts:1220-1284 | a reset clears the mirrored records and the owners it leaves with nothing, empties mirror and events, and keeps all else |
| `Crm.LatestIsCount` | apps/api/src/fulfilment/certificates.service.ts:303-308 | the highest version number is the number of uploads |
| `Crm.LatestIsHighest` | apps/api/src/fulfilment/certificates.service.ts:303-308 | the version picked for a sign-off is the highest there is, in whatever order the rows come |
| `Crm.UploadOk` | apps/api/src/fulfilment/certificates.service.ts:117-198 | an upload keeps the version numbering, appends one version, keeps an allocated number and takes the sign-off away |
| `Crm.ResetKeeps` | apps/api/src/integrations/nbr-website.service.ts:1220-1284 | clearing the website's data keeps every invariant and loses no money, receipt or certificate |
| `Crm.CommitKeeps` | apps/api/src/integrations/nbr-website.service.ts:919-933 | the transaction of a snapshot, by a status read earlier, keeps every invariant and touches one record |
| `Crm.SignOffKeeps` | apps/api/src/fulfilment/certificates.service.ts:330-394 | the transaction of a sign-off, of a version picked earlier, keeps every invariant |
| `Runs.EveryRunKeeps` | apps/api/src/integrations/nbr-website.service.ts:530-945 | over every interleaving of the parts of imports, sign-offs and operators' changes, with failures anywhere: one record per external id, one receipt per key and reference, well-formed certificates, and money, receipts, versions and uploaded numbers only added to |
| `Runs.UndisturbedImport` | apps/api/src/integrations/nbr-website.service.ts:530-561 | an import none of whose parts is overtaken is one `Crm.ProcessEvent` |
| `Runs.UndisturbedFailure` | apps/api/src/integrations/nbr-website.service.ts:562-575 | one that fails before or in its transaction is `Crm.ProcessWith` with that fault: the event is marked failed, the attempt is counted, and of the import only a revival stays |
| `Runs.BegunIsProcessing` | apps/api/src/integrations/nbr-website.service.ts:530-537 | while an import is under way its event says so |
| `Runs.OpenedTwiceFails` | apps/api/src/integrations/nbr-website.service.ts:638-690 | a first import overtaken by another of its application fails and writes nothing else |
| `Runs.FailureEnds` | apps/api/src/integrations/nbr-website.service.ts:562-575 | a failure ends its request and leaves records and receipts alone |
| `Runs.AtOnce` | apps/api/src/payments/payments.service.ts:289-299 | an invoice settled, a desk entry and a reset happen at once |
| `Runs.UndisturbedSignOff` | apps/api/src/fulfilment/certificates.service.ts:276-394 | a sign-off that is not overtaken is one `Crm.VerifyCertificate` |
| `Runs.UndisturbedChange` | apps/api/src/records/workflow.service.ts:180-304 | an operator's change that is not overtaken is one `Crm.ChangeStatusOf`, with the advance to Certificate Verification after a payment |
| `Runs.OwnersStayLive` | apps/api/src/integrations/nbr-website.service.ts:878-902 | over every run whose resets are safe, a live record's applicant is live |
| `Runs.ResetKeepsOwnersIff` | apps/api/src/integrations/nbr-website.service.ts:1244-1266 | a reset leaves every live record and every import under way a live owner exactly when no import is opening a record for someone it clears |
| `Runs.ResetDuringImport` | apps/api/src/integrations/nbr-website.service.ts:629-664 | otherwise the import opens a live record under a cleared applicant |
| `Runs.MirrorsStayPresent` | apps/api/src/integrations/nbr-website.service.ts:869-945 | over every run in which no application of a snapshot fails, a live website record without a mirror row is one to which a snapshot is just being applied |
| `Gate.MirrorCannotPassGate` | apps/api/src/integrations/legacy-lifecycle.service.ts:552-594 | no part of an import or a snapshot, however stale what it read, ends by having moved a record past Certificate Verification unless its certificate is signed off at that moment |
| `Gate.NewRecordBelowGate` | apps/api/src/integrations/nbr-website.service.ts:698-810 | a record opened by a first import is never past the gate and never signed off |
| `Gate.MovesBackIff` | apps/api/src/integrations/legacy-lifecycle.service.ts:596-628 | a snapshot moves a ladder record back exactly when its stage is behind the record and ahead of the status the caller remembers, or that one is a decision |
| `Gate.FreshNeverOvertakes` | apps/api/src/integrations/legacy-lifecycle.service.ts:618-627 | with the status read in step with the row it never does |
| `Gate.StepMovesBackIff` | apps/api/src/integrations/legacy-lifecycle.service.ts:618-627 | of everything that can happen, exactly the transaction of an overtaken snapshot of the record, and an operator's change of it to a status behind the one that is there, move it back |
| `Gate.ChangeTakesBackIff` | apps/api/src/records/workflow.service.ts:206-260 | a change written on the status it was asked at goes back along the workflow's two backward edges only; after the record has moved, exactly when what it writes is behind where the record got to |
| `Gate.ChangeOvertakenByPayment` | apps/api/src/records/workflow.service.ts:251-260 | a payment mirrored between an operator's request and its transaction is overwritten |
| `Gate.SignOffOvertakesSnapshot` | apps/api/src/integrations/nbr-website.service.ts:916-925 | a sign-off between a snapshot's read and its transaction is undone: the record goes to Dispatch and comes back |
| `Gate.NeverDraggedBack` | apps/api/src/integrations/legacy-lifecycle.service.ts:101-105 | over any run without a decision about the record, an overtaken snapshot of it or a change of it that takes it back, whatever happens to other records, the record never moves back along the ladder |
| `Gate.NothingAutomaticCompletesTheStage` | apps/api/src/fulfilment/certificates.service.ts:72-75 | however the parts of requests interleave, a mirrored record found past Certificate Verification was signed off by an employee at some earlier step, on an uploaded file that is still there |
| `Gate.ApprovalNeverTransfers` | apps/api/src/fulfilment/certificates.service.ts:69-71 | over any run in which no sign-off is overtaken by an upload, a certificate that reads as verified is verified in its latest version |
| `Gate.SignOffIsOfAnUpload` | apps/api/src/records/workflow.service.ts:569-607 | in every reachable state versions are 1 to n and the current one is n, a sign-off is of one of them, and the workflow's guard accepts exactly a sign-off of n |
| `Gate.SignOffOfLatestIff` | apps/api/src/fulfilment/certificates.service.ts:288-345 | a sign-off is of the latest version exactly when nothing was uploaded after it was asked for |
| `Gate.UploadOvertakesSignOff` | apps/api/src/fulfilment/certificates.service.ts:303-345 | otherwise a version nobody has seen is released to Dispatch and the mirror takes it for verified; only the workflow's guard can tell |
| `Gate.VersionsNeverChange` | apps/api/src/fulfilment/certificates.service.ts:64-68 | along any run versions are only appended, and a number backed by an upload stays |
| `Gate.UploadWithdrawsApproval` | apps/api/src/fulfilment/certificates.service.ts:162-198 | an upload always takes the sign-off away, adds one version and leaves the status |
| `Gate.ScreenTellsTheTruth` | apps/api/src/fulfilment/certificates.service.ts:421-490 | the certificate screen marks exactly the version that was signed off, and calls the current one verified only if it is that one |
| `Gate.ScreenStatus` | apps/api/src/fulfilment/certificates.service.ts:421-490 | without an upload the screen says one is awaited, whatever the row says |
| `Gate.MoneyOnlyForward` | apps/api/src/integrations/legacy-lifecycle.service.ts:216-258 | along any run the amount paid never falls and no receipt is banked twice |
| `Resync.ResetBoundsTheDamage` | apps/api/src/integrations/nbr-website.service.ts:1234-1276 | after a reset the CRM reports holding nothing, no record without a mirror row is touched, and an owner is cleared only if nothing of theirs stays |
| `Resync.ResetThenRepushRestores` | apps/api/src/integrations/nbr-website.service.ts:1226-1284 | after a reset, whatever was under way and whatever happens next short of another reset, with imports overlapping and failing: once a snapshot of a mirrored application is taken in again its record is held, live with its owner, with one mirror row and nothing lost, and is still the only one of its application |
| `Resync.PushIsTakenIn` | apps/api/src/integrations/nbr-website.service.ts:250-319 | a push that nothing disturbs is taken in, whatever the record has come to |
| `Resync.OthersUntouched` | apps/api/src/integrations/nbr-website.service.ts:1234-1262 | a record without a mirror row, and that no import or push is about, goes through reset and re-push exactly as it is |
| `CrmService.Service.ApplyPayment` | apps/api/src/integrations/legacy-lifecycle.service.ts:164-330 | banks what `Lifecycle.Bank` says, and reports it exactly when a receipt was written |
| `CrmService.Service.ApplyCertificate` | apps/api/src/integrations/legacy-lifecycle.service.ts:374-408 | changes the certificate row as `Lifecycle.NoteCertificate` says and nothing else |
| `CrmService.Service.ApplyDispatch` | apps/api/src/integrations/legacy-lifecycle.service.ts:438-503 | changes the courier row and the delivery status as `Lifecycle.NoteDispatch` says |
| `CrmService.Service.DecideMove` | apps/api/src/integrations/legacy-lifecycle.service.ts:546-628 | the cap and the rank comparison amount to the join of two places on the ladder |
| `CrmService.Service.ApplyStatus` | apps/api/src/integrations/legacy-lifecycle.service.ts:539-658 | writes the settled status, only when it differs from the one the caller gave |
| `CrmService.Service.ApplySnapshot` | apps/api/src/integrations/legacy-lifecycle.service.ts:122-154 | the four blocks in order are one `Lifecycle.Apply`, and no other record changes |
| `CrmService.Service.Receive` | apps/api/src/integrations/nbr-website.service.ts:250-319 | a snapshot is stored once per content key; a repeat changes nothing |
| `CrmService.Service.UpdateExisting` | apps/api/src/integrations/nbr-website.service.ts:869-945 | revives, skips a byte-identical snapshot, otherwise applies it by the status the caller read |
| `CrmService.Service.Reawaken` | apps/api/src/integrations/nbr-website.service.ts:886-902 | makes a record that was read as cleared live again, and its applicant with it |
| `CrmService.Service.CommitSnapshot` | apps/api/src/integrations/nbr-website.service.ts:916-933 | applies the snapshot and then writes the mirror row |
| `CrmService.Service.ImportApplication` | apps/api/src/integrations/nbr-website.service.ts:578-638 | known, blacklisted, matched and new applications each take their own path |
| `CrmService.Service.OpenRecord` | apps/api/src/integrations/nbr-website.service.ts:638-827 | opens one record under the owner found before or a new one, and applies the snapshot in the same step |
| `CrmService.Service.ProcessStored` | apps/api/src/integrations/nbr-website.service.ts:530-575 | marks the event as processing, counts the attempt, imports, and writes the outcome on it, a failure included |
| `CrmService.Service.UploadCertificate` | apps/api/src/fulfilment/certificates.service.ts:97-260 | appends a version under the kept number and returns it; refused without a record or a stored file |
| `CrmService.Service.AdvanceRecord` | apps/api/src/records/auto-advance.service.ts:58-86 | moves the status only from where the caller expects it, and says whether it did |
| `CrmService.Service.LatestToSign` | apps/api/src/fulfilment/certificates.service.ts:288-316 | refuses without a record, a certificate or an uploaded file, and when the latest version is signed off already; otherwise names the latest |
| `CrmService.Service.CommitSignOff` | apps/api/src/fulfilment/certificates.service.ts:330-394 | signs off the version named, then releases the record to Dispatch only from the certificate stage |
| `CrmService.Service.MarkVerified` | apps/api/src/fulfilment/certificates.service.ts:276-394 | the two in one: signs off the latest upload, or refuses |
| `CrmService.Service.ChangeRecordStatus` | apps/api/src/records/workflow.service.ts:180-304 | follows only the workflow's edges, asks for a verified certificate where the edge does, and moves a paid record on |
| `CrmService.Service.ClearOwners` | apps/api/src/integrations/nbr-website.service.ts:1244-1266 | clears exactly the owners of mirror rows with no record left, and counts them |
| `CrmService.Service.ResetWebsiteData` | apps/api/src/integrations/nbr-website.service.ts:1220-1284 | the loop over applicants amounts to one `Crm.ResetAll` |
| `Decisions.MessagesAreAccepted` | apps/api/src/integrations/legacy-actions.service.ts:393-407 | with the mirror row up to date, every mirrored decision is sent only at a stage the website's route accepts |
| `Decisions.StaleMessageRefusedIff` | apps/api/src/integrations/legacy-actions.service.ts:80-94 | with a stale row, exactly a cancel or a reopen of something that has moved is refused |
| `Decisions.MessageMeans` | apps/api/src/integrations/legacy-actions.service.ts:119-138 | exactly when a reopen, a cancel, a rejection or nothing is sent, by where the website's stage is on the ladder |
| `Decisions.AcceptsIff` | packages/shared/src/schemas/integration.ts:86-180 | exactly the stages at which each of the website's routes takes its action |
| `Decisions.AnswerMeans` | apps/api/src/integrations/legacy-actions.service.ts:145-150 | where the website's answer to each action puts the record |
| `Decisions.OfferedIff` | apps/api/src/integrations/legacy-actions.service.ts:45-79 | exactly which buttons a record shows |
| `Decisions.CloseEndsBothSidesIff` | apps/api/src/integrations/legacy-actions.service.ts:119-138 | closing or rejecting a live record leaves both sides ended exactly when the website has no draft and is not holding what is being closed |
| `Decisions.HeldRecordClosedInSilence` | apps/api/src/integrations/legacy-actions.service.ts:127-131 | closing a record the website has on hold sends nothing, and its reactivation there reopens the record |
| `Decisions.ReopenAgrees` | apps/api/src/integrations/legacy-actions.service.ts:394-404 | a reopen is sent exactly when the website has the application ended, and both sides then agree |
| `Decisions.RoundTripIsTheSteps` | apps/api/src/integrations/legacy-actions.service.ts:373-427 | with the sides in step, a change, its message, the website's answer and the snapshot of it are one round trip |
| `Decisions.ChangedTo` | apps/api/src/records/workflow.service.ts:251-304 | in those runs a change is the status asked for, a payment going on at once, and one message to be written |
| `Decisions.MessageRefusedIff` | apps/api/src/integrations/legacy-actions.service.ts:363-407 | over any run of changes, messages written late by the mirror row of that moment, lost or arriving later still, moves of the website's own, and late, repeated or reordered snapshots: exactly when a message that arrives is refused |
| `Decisions.LatestSeenNeverRefused` | apps/api/src/integrations/legacy-actions.service.ts:394-396 | a message written by the snapshot that is still the last one sent is never refused |
| `Decisions.SnapshotReopensIff` | apps/api/src/integrations/legacy-lifecycle.service.ts:596-611 | over any such run, exactly when a snapshot takes back a close or a rejection, and where it leaves the record |
| `Decisions.LatestSnapshotDecides` | apps/api/src/integrations/legacy-lifecycle.service.ts:598-611 | applying the last snapshot sent puts the sides in step, with the record ended exactly if the website has it ended |
| `Decisions.LateSnapshotReopens` | apps/api/src/integrations/legacy-lifecycle.service.ts:93-105 | a close and its cancellation, and then a payment's snapshot from before it: the record is open here and cancelled there |
| `Decisions.HeldArises` | apps/api/src/integrations/legacy-actions.service.ts:127-131 | the record that starts from, approved, paid over there and held here, does arise |
| `Decisions.OfferedActionsAreAccepted` | apps/api/src/integrations/legacy-actions.service.ts:45-79 | on a record that is where its stage puts it, every button offered is one the website takes |
| `Decisions.CancelOfferedIff` | apps/api/src/integrations/legacy-actions.service.ts:65-78 | cancelling is offered exactly at approval and at a signed-off payment, although the website takes it throughout fulfilment |
| `Migrations.FirstRun` | apps/api/src/database/migrate.ts:189-226 | for any journal and any timestamps, a first run repeats nothing, runs exactly the missing entries later than every recorded one, and returns normally exactly when that is all of them |
| `Migrations.NormalReturnMatches` | apps/api/src/database/migrate.ts:138-164 | after one uninterrupted run that returns normally the ledger matches the journal entry by entry; recorded hashes are never rewritten |
| `Migrations.RepairSetsMark` | apps/api/src/database/migrate.ts:109-136 | repair makes the high-water mark the journal's own, whatever the timestamps were, touches nothing else, and is idempotent |
| `Migrations.LaterRunsDoNothing` | apps/api/src/database/migrate.ts:178-183 | once a run has returned normally, every later one leaves the ledger as it found it |
| `Migrations.SafeIffNothingLeft` | apps/api/src/database/migrate.ts:90-95 | a retry is safe exactly when the mark it will compute leaves it nothing to run |
| `Migrations.RecordedNeverRunAgain` | apps/api/src/database/migrate.ts:102-109 | for any journal, in every interleaving of any number of workers with crashes at any point, no migration recorded at the start runs again, and whatever does run was missing |
| `Migrations.StrandedEntryNeverRuns` | apps/api/src/database/migrate.ts:90-95 | an entry not later than every recorded one is never run, by any worker |
| `Migrations.NormalReturnHonestIff` | apps/api/src/database/migrate.ts:138-164 | after a worker's normal return in any interleaving: everything has run, and the ledger matches the journal row by row with recorded hashes kept, exactly when every missing entry is later than every recorded one |
| `Migrations.ReturnedMatches` | apps/api/src/database/migrate.ts:138-173 | in particular, on such a journal a normal return leaves every row stamped and hashed as its entry |
| `Migrations.ExactlyOnce` | apps/api/src/database/migrate.ts:189-232 | where a retry is safe nothing at all runs twice, and a normal return means everything ran once, in order |
| `Migrations.IncreasingJournalNeverFails` | apps/api/src/database/migrate.ts:87-100 | with strictly increasing timestamps no worker ever throws and exactly the missing suffix runs, once, in order |
| `Migrations.ExactlyOnceIff` | apps/api/src/database/migrate.ts:175-188 | two or more workers can never repeat a migration if and only if the journal and the number of recorded rows make a retry safe |
| `Migrations.SkippedEntryNeverRuns` | apps/api/src/database/migrate.ts:102-107 | a journal on which the second worker repeats one migration and returns normally with another never run |
| `Migrations.RepairReported` | apps/api/src/database/migrate.ts:125-135 | a repair is reported exactly when it changes a row |
| `Migrations.DisagreeingNames` | apps/api/src/database/migrate.ts:125-135 | the repair report names, in order, exactly the rows whose timestamp is not their entry's |
| `Migrations.DriftedNames` | apps/api/src/database/migrate.ts:150-173 | the drift report names, in journal order, exactly the entries whose file is not what was recorded |
| `Migrations.CrashLeaves` | apps/api/src/database/migrate.ts:109-136 | a worker that crashes lets go of the lock, and one still repairing leaves the rows it had come to re-stamped |
| `Migrations.Database.ReconcileLedger` | apps/api/src/database/migrate.ts:109-136 | the loop re-stamps every disagreeing row, names its tags in order, and leaves an absent or longer ledger alone |
| `Migrations.Database.HighestCreatedAt` | apps/api/src/database/migrate.ts:90-92 | finds the highest timestamp in the ledger |
| `Migrations.Database.ApplyOutstanding` | apps/api/src/database/migrate.ts:216-219 | one pass under a mark fixed before the loop |
| `Migrations.Database.AssertFullyApplied` | apps/api/src/database/migrate.ts:150-173 | throws exactly when the ledger is short, naming the missing tail; edited files are only reported |
| `Migrations.Database.RunMigrations` | apps/api/src/database/migrate.ts:189-232 | repair, apply, assert, in that order: the new ledger, the repaired tags and the outcome |
| `Durations.DurationRoundTrip` | apps/api/src/auth/auth.service.ts:639-646 | every amount in every unit, with any space around it, reads back as itself |
| `Durations.OnlyDurationsParse` | apps/api/src/auth/auth.service.ts:640-641 | nothing but space, digits, a unit and space is accepted |
| `Durations.Decimal` | apps/api/src/auth/auth.service.ts:642 | a number's digits read back as the number |
| `Durations.UnitsMean` | apps/api/src/auth/auth.service.ts:639-646 | a second is a thousand milliseconds, a minute sixty seconds, an hour sixty minutes, a day twenty-four hours |
| `Durations.OtherUnits` | apps/api/src/auth/auth.service.ts:640 | no other letter is a unit |
| `Sessions.EveryRunKeeps` | apps/api/src/auth/auth.service.ts:290-456 | over every run links point forward within one user and one remember-me choice and never merge, token versions and deny-list entries only grow, and spent sessions stay spent |
| `Sessions.SignInLasts` | apps/api/src/auth/auth.service.ts:317-325 | over every run after a sign-in, until it is replaced or revoked: the session can be refreshed exactly while less than the long lifetime has passed if the user is remembered, and the default one if not; its access token is accepted exactly until its lifetime is over |
| `Sessions.RotationLasts` | apps/api/src/auth/auth.service.ts:395-411 | the same of the session a refresh opens, by the choice made at the sign-in |
| `Sessions.SignsInIff` | apps/api/src/auth/auth.service.ts:198-226 | a sign-in opens a session exactly for an active account that is not deleted |
| `Sessions.RefreshAnswers` | apps/api/src/auth/auth.service.ts:354-400 | exactly which tokens are rotated, and what every other one is told |
| `Sessions.Tail` | apps/api/src/auth/auth.service.ts:403-408 | every chain ends, at a session of the same user and the same remember-me choice |
| `Sessions.SameChainIff` | apps/api/src/auth/auth.service.ts:403-408 | two sessions are of one chain exactly when one was rotated into the other: chains do not branch or merge |
| `Sessions.OneRefreshablePerChain` | apps/api/src/auth/auth.service.ts:346-383 | in every run at most one session of a chain can be refreshed |
| `Sessions.ReuseEndsEverySession` | apps/api/src/auth/auth.service.ts:365-374 | presenting a replaced or revoked token revokes every session of its user and nobody else's, cache up or down |
| `Sessions.ReuseIsFinal` | apps/api/src/auth/auth.service.ts:349-353 | none of those sessions is refreshable, and none of their chains grows, in any later state |
| `Sessions.RefreshWorksOnce` | apps/api/src/auth/auth.service.ts:395-408 | after a rotation the new session carries user, choice and version on, and the old token is a reuse for ever |
| `SessionRuns.EveryRunLinks` | apps/api/src/auth/auth.service.ts:354-411 | however refreshes overlap, links point forward within one user and choice and never merge |
| `SessionRuns.UndisturbedRefresh` | apps/api/src/auth/auth.service.ts:354-411 | a refresh that nothing disturbs is one `Sessions.Refresh` |
| `SessionRuns.SecondChildIff` | apps/api/src/auth/auth.service.ts:391-408 | a token is rotated into a second session exactly when a refresh inserts after another has rotated what it read |
| `SessionRuns.TwoRotations` | apps/api/src/auth/auth.service.ts:354-408 | two refreshes that both read a token before either links leave two sessions that can each be refreshed |
| `SessionRuns.RevokeAllHoldsIff` | apps/api/src/auth/auth.service.ts:349-353 | after a revoke-all, whatever happens short of a sign-in, the user never has a session to refresh again exactly when no refresh of theirs was under way |
| `Sessions.RevokeAllIsForever` | apps/api/src/auth/auth.service.ts:434-456 | after a completed revoke-all no access token issued to the user before it is accepted in any later state |
| `Sessions.FailedRevokeAll` | apps/api/src/auth/auth.service.ts:445-453 | when a deny-list write fails, what the guard accepts afterwards is exactly what it accepted before, less the sessions that were reached |
| `Sessions.SignedOutIsForever` | apps/api/src/auth/auth.service.ts:422-431 | a signed-out session's token is never accepted again, because its deny-list entry outlasts it at every later time |
| `Sessions.SignedOutNotRefreshable` | apps/api/src/auth/auth.service.ts:422-431 | nor is the session ever refreshed again, and no other session is touched |
| `Sessions.VersionCounted` | apps/api/src/auth/auth.service.ts:448-453 | a revoke-all counts the token version up by one exactly when every deny-list write went through, and nobody else's |
| `Sessions.OutlastsToken` | apps/api/src/auth/auth.service.ts:307-312 | access lifetime plus sixty seconds outlasts an expiry rounded down to seconds |
| `Sessions.AcceptedIff` | apps/api/src/auth/auth.guard.ts:89-137 | exactly which tokens the guard lets through in a reachable state |
| `Sessions.RefusedFor` | apps/api/src/auth/auth.guard.ts:89-137 | what the guard says of every other token, in the order in which it looks |
| `Sessions.DeniedFor` | apps/api/src/auth/auth.service.ts:430-431 | a signed-out session is on the deny-list for the token's lifetime and a minute more |
| `Sessions.AllDeniedFor` | apps/api/src/auth/auth.service.ts:445-446 | and so is every session a revoke-all ends and reaches |
| `Sessions.AuthService.IssueTokens` | apps/api/src/auth/auth.service.ts:290-344 | appends one session and its token |
| `Sessions.AuthService.RevokeSession` | apps/api/src/auth/auth.service.ts:422-431 | revokes the row, then writes the deny-list, and says whether that worked |
| `Sessions.AuthService.EndRows` | apps/api/src/auth/auth.service.ts:435-443 | revokes exactly the user's rows and names those that were live |
| `Sessions.AuthService.RevokeAllSessions` | apps/api/src/auth/auth.service.ts:434-456 | rows, deny-list, version, in that order; the version only if every write went through |
| `Sessions.AuthService.RefreshToken` | apps/api/src/auth/auth.service.ts:354-411 | each error in the source's order, otherwise a rotation |
| `Lockout.CounterTracksChecks` | apps/api/src/auth/auth.service.ts:255-266 | without a success the counter is the number of checks ever made, the lock ends a lockout after the last, and from the first lock on checks are a full lockout apart |
| `Lockout.GuessesBounded` | apps/api/src/auth/auth.service.ts:192-215 | however attempts are timed, none overlapping, any window of length T holds at most maxAttempts + T / lockout password checks |
| `Lockout.BoundIsReached` | apps/api/src/auth/auth.service.ts:255-266 | for every number of lapses some schedule reaches that bound |
| `Lockout.SuccessForgets` | apps/api/src/auth/auth.service.ts:217-226 | a success wipes lock and count: what follows it runs as on an untouched account |
| `Lockout.JudgedBy` | apps/api/src/auth/auth.service.ts:192-213 | exactly which attempts are locked out, refused or let in |
| `Lockout.UncomparedLeaves` | apps/api/src/auth/auth.service.ts:192-207 | an attempt whose password is not compared changes nothing |
| `Lockout.Gatekeeper.Login` | apps/api/src/auth/auth.service.ts:192-226 | locked, inactive, wrong and right are judged in that order, and the counters follow |
| `Lockout.Gatekeeper.RegisterFailedAttempt` | apps/api/src/auth/auth.service.ts:255-266 | counts one more and locks at the threshold |
| `LoginRuns.UndisturbedAttempt` | apps/api/src/auth/auth.service.ts:192-226 | an attempt answered at once is one `Lockout.After` |
| `LoginRuns.CountsIff` | apps/api/src/auth/auth.service.ts:255-266 | a counter that has counted every check misses one exactly when the attempt answered was overtaken since it read |
| `LoginRuns.CounterExact` | apps/api/src/auth/auth.service.ts:255-266 | over any run of wrong attempts none of which is overtaken the counter is the number of checks |
| `LoginRuns.OverlappingAttempts` | apps/api/src/auth/auth.service.ts:209-266 | any number of attempts that all read before one is answered are all compared and counted as one |
| `LoginRuns.LockLiftedIff` | apps/api/src/auth/auth.service.ts:257-265 | exactly when a wrong attempt that read an old count lifts a lock in force |
| `Paging.ListingIsListed` | apps/api/src/applicants/applicant-list.service.ts:100 | the order on (sort value, id) lists every set of rows strictly |
| `Paging.ListedIsUnique` | apps/api/src/applicants/applicant-list.service.ts:242-246 | and in one way only: ties are broken by id |
| `Paging.FetchIsWindow` | apps/api/src/applicants/applicant-list.service.ts:49-129 | a page is exactly the matching rows past the cursor and up to its own last row, in order, at most `limit` of them |
| `Paging.PageSize` | apps/api/src/applicants/applicant-list.service.ts:102-105 | a page is full unless fewer rows are left, and hands out a cursor exactly when more are left than it holds |
| `Paging.WindowsPartition` | apps/api/src/applicants/applicant-list.service.ts:127-129 | following cursors, every possible key falls in exactly one page's window |
| `Paging.UnchangedRowExactlyOnce` | apps/api/src/applicants/applicant-list.service.ts:41-43 | however the table changes between requests, a key is listed at most once, and exactly once if its row stayed |
| `Paging.GrowingTableComplete` | apps/api/src/governance/governance.service.ts:93-128 | on a table that is only added to, with cursors that are exact positions, everything there at the first request is listed exactly once |
| `Paging.WalkIsListed` | apps/api/src/applicants/applicant-list.service.ts:49-129 | the pages come out in list order whatever happened in between |
| `Paging.MovedRow` | apps/api/src/applicants/applicant-list.service.ts:41-43 | a row whose key changes once is listed once, twice or never, by the sides of the cursor its two keys are on |
| `Paging.TouchedRowIsDropped` | apps/api/src/applicants/applicant-list.service.ts:225-228 | newest first, a row touched between two requests that no page lists |
| `Paging.FixedTableIsTheList` | apps/api/src/applicants/applicant-list.service.ts:49-129 | on a table that holds still the pages joined are the sorted, filtered list, in either direction |
| `Paging.WalkEnds` | apps/api/src/applicants/applicant-list.service.ts:104-129 | following cursors over such a table reaches null after finitely many requests, with the whole list in hand |
| `Paging.RequestsNeeded` | apps/api/src/governance/governance.service.ts:93-128 | a table that holds still takes as many requests as it has pages' worth of rows, rounded up, and one if it is empty |
| `Cursors.ListCursorRoundTripIff` | apps/api/src/applicants/applicant-list.service.ts:238-258 | a list cursor reads back exactly when its id is not empty and holds no separator; the sort value may |
| `Cursors.AuditCursorRoundTripIff` | apps/api/src/governance/governance.service.ts:406-412 | an audit cursor reads back exactly when neither part is empty or holds a separator |
| `Cursors.AuditCursorReads` | apps/api/src/governance/governance.service.ts:410-412 | an audit cursor reads as its first two parts, if neither is empty, whatever follows |
| `Cursors.ListCursorUnreadableIff` | apps/api/src/applicants/applicant-list.service.ts:252-258 | a list cursor does not read exactly when it has no separator or ends in one |
| `Cursors.UnreadableStartsOver` | apps/api/src/applicants/applicant-list.service.ts:58-62 | such a cursor adds no condition, and the first page comes back |
| `Cursors.TextWalkIsTheWalk` | apps/api/src/applicants/applicant-list.service.ts:127-129 | with text as fine as the column, following the text cursors is the walk on positions, page for page |
| `Cursors.CoarseWalk` | apps/api/src/governance/governance.service.ts:406-417 | with coarser text that does not point back, a row is listed at most once, and one that stays exactly when no page that ends before it hands out a cursor reading back as past it |
| `Cursors.SkippedSharesTick` | apps/api/src/governance/governance.service.ts:414-416 | newest first, the rows a cursor can skip share their rounded time with the row it was made from |
| `Cursors.OwnTickExactlyOnce` | apps/api/src/applicants/applicant-list.service.ts:41-43 | so a row that stays and shares its millisecond with no other is listed exactly once |
| `Cursors.SameMomentDropped` | apps/api/src/governance/governance.service.ts:411-416 | two rows of one moment: when a page of any walk, newest first, ends with the first, the second is on no page |
| `Cursors.TwoRowsOneListed` | apps/api/src/governance/governance.service.ts:411-416 | there are such walks |
| `Cursors.BackwardWalk` | apps/api/src/applicants/applicant-list.service.ts:260-262 | with text that never reads back past its own row, a row that stays is listed at least once, and exactly once if and only if no page ends at or after it with a cursor that reads back as before it |
| `Cursors.AscendingComesAgain` | apps/api/src/applicants/applicant-list.service.ts:49-129 | oldest first, a row that ends a page and whose time is not a whole tick is listed at least twice |
| `Cursors.StuckIff` | apps/api/src/applicants/applicant-list.service.ts:127-129 | in any table and at any limit, a page's cursor is answered with the same page exactly when no row tells it from the cursor the page came from |
| `Cursors.AscendingNeverEnds` | apps/api/src/applicants/applicant-list.service.ts:127-129 | a page whose last row reads back as the cursor it came from, in any table, is all that following the cursors ever gets |
| `Cursors.TwoRowsForEver` | apps/api/src/applicants/applicant-list.service.ts:260-262 | there are such pages, from the first on |
| `BlacklistRuns.EveryRunAgrees` | apps/api/src/ops/blacklist.service.ts:151-358 | over every run, however requests overlap and wherever they stop: an applicant has an unlifted entry exactly when the switch is on and exactly when the BLACKLISTED flag is, and no entry is lost |
| `BlacklistRuns.SecondEntryOnlyIf` | apps/api/src/ops/blacklist.service.ts:151-176 | an applicant gets a second unlifted entry exactly when an add is committed for someone blocked since it looked |
| `BlacklistRuns.NeverTwoEntries` | apps/api/src/ops/blacklist.service.ts:159-163 | over any run without such an add nobody has two |
| `BlacklistRuns.OverlappingAdds` | apps/api/src/ops/blacklist.service.ts:151-176 | an operator's entry and a website's block that both look before either commits leave two in force |
| `BlacklistRuns.TwoEntriesTwoLifts` | apps/api/src/ops/blacklist.service.ts:279-303 | with two in force one lift neither unblocks nor tells the website, and the second does both |
| `BlacklistRuns.LatePush` | apps/api/src/ops/blacklist.service.ts:226-254 | a lift is told only when nothing is in force; a block is told whatever has happened since, and the website is then right exactly if the applicant is still blocked |
| `BlacklistRuns.UndisturbedAdd` | apps/api/src/ops/blacklist.service.ts:114-255 | an add that nothing disturbs is one `Blacklist.Add` |
| `BlacklistRuns.UndisturbedLift` | apps/api/src/ops/blacklist.service.ts:258-359 | a lift that nothing disturbs is one `Blacklist.Lift` |
| `BlacklistRuns.UndisturbedMessage` | apps/api/src/ops/blacklist.service.ts:380-425 | a website message that nothing disturbs is one `Blacklist.Hear` |
| `BlacklistRuns.SinglesHappen` | apps/api/src/ops/blacklist.service.ts:515-592 | flags and applicants change between the parts of any request |
| `Blacklist.CommitAddKeeps` | apps/api/src/ops/blacklist.service.ts:166-238 | however late the transaction of an add comes, the three places agree after it and its applicant is blocked |
| `Blacklist.CommitLiftKeeps` | apps/api/src/ops/blacklist.service.ts:276-335 | however late that of a lift comes, they agree after it, and its applicant is unblocked exactly when no other entry is in force |
| `Blacklist.AddKeeps` | apps/api/src/ops/blacklist.service.ts:114-255 | an accepted entry blocks someone who was not blocked; a refused one changes nothing |
| `Blacklist.AddAnswers` | apps/api/src/ops/blacklist.service.ts:128-164 | an entry is accepted exactly for a live applicant with none in force, and with an end date if and only if it is temporary; what every other one is told |
| `Blacklist.AddWrites` | apps/api/src/ops/blacklist.service.ts:166-254 | an accepted entry is entered as given, switches and flags its applicant and nobody else, and is told to the website if it began here |
| `Blacklist.LiftKeeps` | apps/api/src/ops/blacklist.service.ts:258-359 | a lift unblocks, and tells the website if it started here, exactly when no other entry is in force, and touches nobody else |
| `Blacklist.LiftAnswers` | apps/api/src/ops/blacklist.service.ts:264-275 | what a lift is told |
| `Blacklist.LiftWrites` | apps/api/src/ops/blacklist.service.ts:276-335 | the entry is lifted; switch and flag go if no other is in force, and nothing else changes |
| `Blacklist.HearKeeps` | apps/api/src/ops/blacklist.service.ts:380-425 | while nobody has two entries, a website message is never sent back, changes nothing if both sides agree, and otherwise makes them agree |
| `Blacklist.HearAnswers` | apps/api/src/ops/blacklist.service.ts:380-425 | what the website is told about its message, and what its block is entered as |
| `Blacklist.MatchedIff` | apps/api/src/ops/blacklist.service.ts:427-475 | only a live applicant is matched |
| `Blacklist.FlagsKeep` | apps/api/src/ops/blacklist.service.ts:515-592 | the other flags cannot move the BLACKLISTED one |
| `Blacklist.FlagSet` | apps/api/src/ops/blacklist.service.ts:515-549 | which flags are refused, and what setting one writes |
| `Blacklist.FlagRemoved` | apps/api/src/ops/blacklist.service.ts:571-592 | which removals are refused; the flag is gone afterwards, and no other with it |
| `Blacklist.WebsiteStaysInStep` | apps/api/src/ops/blacklist.service.ts:33-40 | when each request is over and its message has arrived before the next, website and CRM always block the same people |
| `Blacklist.Service.FindActive` | apps/api/src/ops/blacklist.service.ts:151-157 | finds an unlifted entry if there is one |
| `Blacklist.Service.RemoveRows` | apps/api/src/ops/blacklist.service.ts:580-592 | removes every row of that flag, and counts none exactly when there was none |
| `Blacklist.Service.LookToAdd` | apps/api/src/ops/blacklist.service.ts:128-164 | the checks of an add, in the source's order |
| `Blacklist.Service.InsertEntry` | apps/api/src/ops/blacklist.service.ts:166-196 | entry, switch and flag of an add |
| `Blacklist.Service.ReleaseEntry` | apps/api/src/ops/blacklist.service.ts:276-312 | entry of a lift, then switch and flag if nothing else is in force |
| `Blacklist.Service.TellWebsite` | apps/api/src/ops/blacklist.service.ts:340-358 | the push, before a lift only after looking again |
| `Blacklist.Service.AddEntry` | apps/api/src/ops/blacklist.service.ts:114-255 | the source's checks in order, then entry, switch, flag and push |
| `Blacklist.Service.LiftEntry` | apps/api/src/ops/blacklist.service.ts:258-359 | entry, then switch and flag if nothing else is in force, then the push |
| `Blacklist.Service.ApplyFromWebsite` | apps/api/src/ops/blacklist.service.ts:380-425 | what the website is answered and what changes |
| `Blacklist.Service.SetRestriction` | apps/api/src/ops/blacklist.service.ts:515-549 | refuses an unknown flag, the BLACKLISTED one and one already set |
| `Blacklist.Service.RemoveRestriction` | apps/api/src/ops/blacklist.service.ts:571-592 | refuses the BLACKLISTED flag and one that is not set |
| `Sync.SyncConverges` | apps/api/src/integrations/legacy-push.service.ts:540-594 | after one run over any list that is not empty every listed row is its last listing, every other is inactive and otherwise as it was, and no row is deleted or renumbered |
| `Sync.EveryListingHasItsRow` | apps/api/src/integrations/legacy-push.service.ts:547-577 | every listed slug has a row |
| `Sync.SecondSyncChangesNothing` | apps/api/src/integrations/legacy-push.service.ts:540-594 | an immediate second run imports none, retires none and changes no row |
| `Sync.EmptyListChangesNothing` | apps/api/src/integrations/legacy-push.service.ts:579-583 | a list that comes back empty switches nothing off |
| `Sync.RetiredCounts` | apps/api/src/integrations/legacy-push.service.ts:583-594 | the rows counted as switched off are the ones that were on before and off after |
| `Sync.CategoryTable.UpsertAll` | apps/api/src/integrations/legacy-push.service.ts:547-577 | each listing in turn updates the row that has its slug or inserts one; the counters say which |
| `Sync.CategoryTable.SyncCategories` | apps/api/src/integrations/legacy-push.service.ts:540-601 | the loops amount to that, and the counters count rows added, listings matched and rows switched off |
| `Sync.CategoryTable.Retire` | apps/api/src/integrations/legacy-push.service.ts:583-594 | switches off what is not listed, and counts exactly the rows that were on |
| `Sync.Send` | apps/api/src/integrations/legacy-push.service.ts:275-321 | at most three tries, every one but the last transient, stopping early only on an answer that is not; ok exactly when the last was accepted |
| `Sync.AnswersMean` | apps/api/src/integrations/legacy-push.service.ts:295-315 | what counts as delivered and what is worth another try |
| `Sync.SuppressedIff` | apps/api/src/integrations/legacy-push.service.ts:208-245 | over any history of snapshots, resets and pushes arriving however late: a push is dropped as an echo exactly when it repeats the last one to arrive since the record was mirrored, and not sent at all exactly when no mirror row is there |
| `Sync.CommandsAreSent` | apps/api/src/integrations/legacy-push.service.ts:227-235 | a command is always sent while there is a mirror row |
| `Sync.ResetForgets` | apps/api/src/integrations/legacy-push.service.ts:212-237 | after a reset a push that had arrived is not sent, and after the next snapshot it is sent again |
| `Sync.EchoesAndRepeats` | apps/api/src/integrations/legacy-push.service.ts:132-135 | a repeat is dropped after the website has moved on; a true echo is sent |
| `Crypto.ReadWithAnyKeys` | apps/api/src/common/crypto.ts:81-107 | a sealed value reads back exactly when its key is one of the two configured, and needs rotation exactly when there is a previous key and it is not the current one |
| `Crypto.RotationRoundTrip` | apps/api/src/common/crypto.ts:64-107 | a rotation breaks nothing, and re-encrypting settles a value |
| `Crypto.TwoRotationsLoseTheValue` | apps/api/src/common/crypto.ts:105-107 | a value left alone through two rotations cannot be read |
| `Crypto.NeedsRotationIff` | apps/api/src/common/crypto.ts:132-147 | for any text, exactly when rotation is asked for |
| `Crypto.SealedLooks` | apps/api/src/common/crypto.ts:64-79 | what a sealed text looks like, and that only an empty value is refused |
| `Crypto.MalformedIff` | apps/api/src/common/crypto.ts:81-90 | a text is malformed exactly when it is not of four parts |
| `Crypto.SignedVerifiesIff` | apps/api/src/common/crypto.ts:191-233 | a signed header verifies exactly for the same body and secret and within tolerance |
| `Crypto.VerifyAnswers` | apps/api/src/common/crypto.ts:191-233 | for any header: exactly when it is missing, unreadable, too far off, valid, or signed for something else |
| `Crypto.LastFieldCounts` | apps/api/src/common/crypto.ts:202-210 | a field given twice counts as given last |
| `Crypto.PaddedSegmentReads` | apps/api/src/common/crypto.ts:202-208 | space around a name or a value does not count |
| `Crypto.SignedLooks` | apps/api/src/common/crypto.ts:178-190 | a signed header, as it is sent |
| `Crypto.HeaderVouchesOnce` | apps/api/src/common/crypto.ts:178-185 | any header at all vouches for one body under one secret, and for no longer than twice the tolerance |
| `Strings.SplitJoins` | apps/api/src/common/crypto.ts:82-86 | splitting loses nothing and leaves no separator in a part |
| `Strings.JoinSplits` | apps/api/src/common/crypto.ts:73-78 | parts without the separator come back as joined |
| `PdfKit.TruncateToWidth` | apps/api/src/documents/pdf-kit.ts:141-158 | the binary search keeps a prefix that was measured to fit, and for a width that grows with length the longest one |
| `PdfKit.TruncatedFits` | apps/api/src/documents/pdf-kit.ts:146-157 | the result fits the box, if joining texts and trimming never add width |
| `PdfKit.TruncatedIsLongest` | apps/api/src/documents/pdf-kit.ts:149-157 | every other prefix that leaves room for the ellipsis is contained in the one kept |
| `PdfKit.FittingUnchanged` | apps/api/src/documents/pdf-kit.ts:141-147 | a text that fits is left as it is, and one that does not, in a box too small for the ellipsis, gives nothing |
| `PdfKit.CutEndsInEllipsis` | apps/api/src/documents/pdf-kit.ts:157-158 | a cut text ends in the ellipsis, with no space before it |
| `PdfKit.SplitIntoLines` | apps/api/src/documents/pdf-kit.ts:427-439 | the nested loops break the styled characters at their newlines exactly as reading one character at a time does, in pieces that are not empty |
| `PdfKit.PutRun` | apps/api/src/documents/pdf-kit.ts:430-436 | one run's parts continue the last line and open a new one between each two |
| `PdfKit.NothingLost` | apps/api/src/documents/pdf-kit.ts:426-439 | joining the lines with newlines gives back the runs' text, and no line holds a newline |

## Left out

- The rest of a payment: package name and payment mode, GST, the payments service's own recomputation of totals; only its settled-invoice advance is a step.
- Timeline, audit, notifications, consent, `recordCount`, evidence and proof copying, award and awardee fields, `hasCertificate` views.
- Why a transaction fails: a certificate number in use, a lost connection and the like are one `Fail` step that any import, sign-off or change may take; only two imports opening one application are told apart.
- CrmService.Service.ChangeRecordStatus: permissions, remarks, locks, overrides and the data guards other than the certificate's are one `permitted` flag of an operator's change, and its last write follows at once; `Runs` separates them.
- Duplicate scoring is a parameter of a first import; matching an account to an applicant by phone or email is one of a website block.
- The website's routes, beyond the guards its comments state; in `Decisions` a snapshot's delivery is one step and carries only its stage.
- A courier's older dispatch rows: only the current one is modelled.
- Anything inside one revoke-all or between a sign-in's last read and its tokens; the per-IP throttle, password hashing, reset tokens, the role and permission checks after the guard has built an actor.
- Durations and amounts beyond the exact range of a double.
- Header timestamps that are not whole numbers: `number` in `Crypto.Verify` reads whole seconds.
- The 200-character limit on a cursor, null sort values, cursors that are not base64, and the list's optional total.
- A run's SQL and its bootstrap statements; a ledger row without a timestamp.
- The date a desk entry's certificate was awarded.
- Who lifted an entry, when and why: a second lift that overlaps overwrites it. An import that outlives a reset notes its outcome under its event's key.
- Two category syncs at once, package sync, the sync's HTTP errors, the delays between retries.
- Characters outside the basic plane, which the truncation can cut in half; drawing.
- HTTP, controllers, the web application, configuration, exports, dashboards, reports, templates, the human-resources and sales modules.
