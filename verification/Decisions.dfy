/**
 * Decisions that cross between the CRM and the website: what the CRM sends when an
 * operator closes, rejects or reopens a record, and what comes back.
 */
module Decisions {
  import opened Wrappers
  import opened Stages
  import opened StatusLadder
  import opened Crm

  datatype Action = Approve | Reject | RequestInfo | Validate | Cancel | Reopen

  // ── What the CRM decides ─────────────────────────────────────────────────

  const CANCELLABLE_STAGES: seq<Stage> := [Approved, Paid, CertificateIssued, AwaitingDispatch, Shipped, Received]
  const REJECTABLE_STAGES: seq<Stage> := [Submitted, Review, Validated]

  /** The review actions a record offers. */
  function ActionsFor(status: Status): seq<Action> {
    if status in [ApplicationSubmitted, UnderReview, VerificationPending] then
      [Approve, Reject, RequestInfo] + if status == VerificationPending then [] else [Validate]
    else if status == Selected || status == PaymentReceived then [Cancel]
    else if status == Rejected || status == Closed then [Reopen]
    else []
  }

  function ActionForStatusChange(to: Status, stage: Option<Stage>): Option<Action> {
    if stage.None? || stage.value == Refused || stage.value == Cancelled || stage.value == Draft then None
    else if to == Closed then
      if stage.value in CANCELLABLE_STAGES then Some(Cancel)
      else if stage.value in REJECTABLE_STAGES then Some(Reject)
      else None
    else if to == Rejected then Some(Reject)
    else None
  }

  predicate Ended(status: Status) {
    status == Rejected || status == Closed
  }

  /** What a status change sends, given the stage the website last reported. */
  function Message(from: Status, to: Status, stage: Option<Stage>): Option<Action> {
    if Ended(from) && !Ended(to) then
      if stage == Some(Refused) || stage == Some(Cancelled) then Some(Reopen) else None
    else ActionForStatusChange(to, stage)
  }

  // ── What the website accepts ─────────────────────────────────────────────

  datatype SiteStatus =
    | SiteDraft | SitePending | SiteUnderReview | SiteValidated | SiteOnHold
    | SiteApproved | SitePaid | SiteRejected | SiteCancelled

  /** The website's own status column, which stays at paid for the whole of fulfilment. */
  function SiteStatusOf(stage: Stage): SiteStatus {
    match stage
    case Draft => SiteDraft
    case Submitted => SitePending
    case Review => SiteUnderReview
    case Validated => SiteValidated
    case Held => SiteOnHold
    case Approved => SiteApproved
    case Paid => SitePaid
    case CertificateIssued => SitePaid
    case AwaitingDispatch => SitePaid
    case Shipped => SitePaid
    case Received => SitePaid
    case Refused => SiteRejected
    case Cancelled => SiteCancelled
  }

  /** The guards on the website's routes. */
  predicate SiteAccepts(action: Action, stage: Stage) {
    var status := SiteStatusOf(stage);
    match action
    case Cancel => status == SiteApproved || status == SitePaid
    case Reject => true
    case Reopen => status == SiteRejected || status == SiteCancelled
    case Validate => status == SitePending || status == SiteUnderReview
    case Approve => status == SitePending || status == SiteUnderReview || status == SiteValidated
    case RequestInfo => true
  }

  /** Where an accepted action leaves the application; a reopened one resumes where it left off. */
  function SiteAfter(action: Action, resumed: Stage): Stage {
    match action
    case Cancel => Cancelled
    case Reject => Refused
    case Reopen => resumed
    case Validate => Validated
    case Approve => Approved
    case RequestInfo => Review
  }

  predicate SiteEnded(stage: Stage) {
    stage == Refused || stage == Cancelled
  }

  /**
   * When each message is sent: a reopen of what the website has ended; otherwise a cancel
   * of what is closed at approval or further; and a rejection of what is closed under
   * evaluation, or rejected anywhere but in draft or at an end.
   */
  lemma MessageMeans(from: Status, to: Status, stage: Option<Stage>)
    ensures var reopening, message := Ended(from) && !Ended(to), Message(from, to, stage);
            && (message == Some(Reopen) <==> reopening && stage.Some? && SiteEnded(stage.value))
            && (message == Some(Cancel) <==>
                  !reopening && to == Closed && stage.Some? && StageRank(stage.value) >= StageRank(Approved))
            && (message == Some(Reject) <==>
                  && !reopening && stage.Some?
                  && ((to == Closed && StageRank(Submitted) <= StageRank(stage.value) <= StageRank(Validated))
                      || (to == Rejected && stage.value != Draft && !SiteEnded(stage.value))))
            && (message.Some? ==> message.value in {Reopen, Cancel, Reject})
  {
  }

  /** What each route takes, by the stage an application is at. */
  lemma AcceptsIff(action: Action, stage: Stage)
    ensures SiteAccepts(action, stage) <==>
              match action
              case Cancel => StageRank(stage) >= StageRank(Approved)
              case Reopen => SiteEnded(stage)
              case Validate => StageRank(Submitted) <= StageRank(stage) <= StageRank(Review)
              case Approve => StageRank(Submitted) <= StageRank(stage) <= StageRank(Validated)
              case Reject => true
              case RequestInfo => true
  {
  }

  /** Where the website's answer to each action puts the record, once it is heard of here. */
  lemma AnswerMeans(action: Action, resumed: Stage)
    ensures Effective(SiteAfter(action, resumed), false) ==
              match action
              case Approve => Selected
              case Validate => VerificationPending
              case RequestInfo => UnderReview
              case Reject => Rejected
              case Cancel => Closed
              case Reopen => Effective(resumed, false)
  {
  }

  /** Which buttons a record shows. */
  lemma OfferedIff(status: Status)
    ensures var offered, underReview := ActionsFor(status), status in {ApplicationSubmitted, UnderReview, VerificationPending};
            && (Approve in offered <==> underReview)
            && (Reject in offered <==> underReview)
            && (RequestInfo in offered <==> underReview)
            && (Validate in offered <==> underReview && status != VerificationPending)
            && (Cancel in offered <==> status in {Selected, PaymentReceived})
            && (Reopen in offered <==> status in {Rejected, Closed})
  {
  }

  // ── Both sides together ──────────────────────────────────────────────────

  /** The record here, the stage the mirror row remembers, and the application there. */
  datatype Sides = Sides(status: Status, mirrored: Option<Stage>, site: Stage)

  predicate InSync(s: Sides) {
    s.mirrored == Some(s.site)
  }

  /**
   * An operator's change, the message it sends, the website's answer, and the snapshot
   * the website echoes when it changed anything.
   */
  function RoundTrip(s: Sides, to: Status, resumed: Stage, verified: bool): Sides {
    var message := Message(s.status, to, s.mirrored);
    if message.None? || !SiteAccepts(message.value, s.site) then s.(status := to)
    else
      var site := SiteAfter(message.value, resumed);
      Sides(Settle(to, Report(Some(site), verified)), Some(site), site)
  }

  /** Every mirrored decision is sent only at a stage the website's route accepts. */
  lemma MessagesAreAccepted(from: Status, to: Status, site: Stage)
    ensures var message := Message(from, to, Some(site));
            message.Some? ==> SiteAccepts(message.value, site)
  {
  }

  /** With a stale mirror row, a message is refused only when it is a cancel or a reopen of something that moved. */
  lemma StaleMessageRefusedIff(from: Status, to: Status, mirrored: Stage, site: Stage)
    requires Message(from, to, Some(mirrored)).Some?
    ensures !SiteAccepts(Message(from, to, Some(mirrored)).value, site) <==>
            (Ended(from) && !Ended(to) && !SiteEnded(site)) ||
            (!(Ended(from) && !Ended(to)) && to == Closed && mirrored in CANCELLABLE_STAGES && site !in CANCELLABLE_STAGES)
  {
  }

  /**
   * Closing or rejecting a live record leaves both sides ended exactly when the website
   * is not holding a draft, and not holding it on hold while the operator closes it: for
   * an application on hold the code has nothing to say when the record is closed.
   */
  lemma CloseEndsBothSidesIff(s: Sides, to: Status, resumed: Stage, verified: bool)
    requires InSync(s) && !Ended(s.status) && Ended(to)
    ensures var after := RoundTrip(s, to, resumed, verified);
            && InSync(after)
            && Ended(after.status)
            && (SiteEnded(after.site) <==> s.site != Draft && !(s.site == Held && to == Closed))
  {
  }

  /**
   * The record the website put on hold is exactly the one an operator may close: nothing
   * is sent, the website stays on hold, and reactivating it there reopens the record here.
   */
  lemma HeldRecordClosedInSilence(verified: bool, resumed: Stage, reactivated: Stage)
    requires !IsDecisionStage(reactivated)
    ensures var held := Sides(OnHold, Some(Held), Held);
            var closed := RoundTrip(held, Closed, resumed, verified);
            && closed == Sides(Closed, Some(Held), Held)
            && Settle(closed.status, Report(Some(reactivated), verified)) == Effective(reactivated, verified)
            && !Ended(Effective(reactivated, verified))
  {
  }

  /** Reopening reaches the website exactly when the website has it ended, and lands where it resumes. */
  lemma ReopenAgrees(s: Sides, to: Status, resumed: Stage, verified: bool)
    requires InSync(s) && Ended(s.status) && !IsDecisionStatus(to)
    requires !IsDecisionStage(resumed)
    ensures var after := RoundTrip(s, to, resumed, verified);
            && InSync(after)
            && (Message(s.status, to, s.mirrored) == Some(Reopen) <==> SiteEnded(s.site))
            && (SiteEnded(s.site) ==> after.site == resumed && after.status == Further(to, Effective(resumed, verified)))
            && (!SiteEnded(s.site) ==> after == s.(status := to))
  {
  }

  // ── Runs with messages and snapshots on their way ──────────────────────────

  /**
   * What an operator's change sends. The message is written some time after the change, by
   * the mirror row as it is then; `seen` is the snapshot that row was of.
   */
  datatype Letter =
    | Waiting(from: Status, to: Status)
    | Flying(from: Status, to: Status, seen: nat, action: Action)
    | Gone

  /** Both sides, every snapshot the website has sent, in order, which of them was applied last, and the letters. */
  datatype Link = Link(sides: Sides, sent: seq<Stage>, applied: Option<nat>, letters: seq<Letter>)

  /**
   * An operator's change; its message being written, arriving or getting lost; a move the
   * website makes by itself; and the arrival of any snapshot ever sent, late, repeated or
   * out of order.
   */
  datatype Event =
    | Operator(to: Status, certified: bool)
    | Write(letter: nat)
    | Arrive(letter: nat, resumed: Stage)
    | Lose(letter: nat)
    | SiteMove(stage: Stage)
    | Deliver(k: nat, verified: bool)

  predicate Allowed(from: Status, to: Status, certified: bool) {
    to in NextStatuses(from) && (to == CertificateUploaded ==> certified)
  }

  function Written(l: Link, letter: Letter): Letter {
    if !letter.Waiting? || l.applied.None? then Gone
    else
      match Message(letter.from, letter.to, l.sides.mirrored)
      case None => Gone
      case Some(action) => Flying(letter.from, letter.to, l.applied.value, action)
  }

  /** The website takes a message by its own guard, and sends a snapshot of where that leaves the application. */
  function Hear(l: Link, action: Action, resumed: Stage): Link {
    if !SiteAccepts(action, l.sides.site) then l
    else
      var site := SiteAfter(action, resumed);
      l.(sides := l.sides.(site := site), sent := l.sent + [site])
  }

  function Replaced(l: Link, j: nat, letter: Letter): Link
    requires j < |l.letters|
  {
    l.(letters := l.letters[j := letter])
  }

  function Next(l: Link, e: Event): Link {
    match e
    case Operator(to, certified) =>
      if !Allowed(l.sides.status, to, certified) then l
      else
        l.(sides := l.sides.(status := Advance(to, {PaymentReceived}, CertificatePending)),
           letters := l.letters + [Waiting(l.sides.status, to)])
    case Write(j) =>
      if j < |l.letters| && l.letters[j].Waiting? then Replaced(l, j, Written(l, l.letters[j])) else l
    case Arrive(j, resumed) =>
      if j < |l.letters| && l.letters[j].Flying? then Hear(Replaced(l, j, Gone), l.letters[j].action, resumed) else l
    case Lose(j) => if j < |l.letters| then Replaced(l, j, Gone) else l
    case SiteMove(stage) => l.(sides := l.sides.(site := stage), sent := l.sent + [stage])
    case Deliver(k, verified) =>
      if k >= |l.sent| || l.applied == Some(k) then l
      else
        l.(sides := Sides(Settle(l.sides.status, Report(Some(l.sent[k]), verified)), Some(l.sent[k]), l.sides.site),
           applied := Some(k))
  }

  function Run(l: Link, events: seq<Event>): Link {
    if events == [] then l else Next(Run(l, events[..|events| - 1]), events[|events| - 1])
  }

  /** A record as its first import leaves it. */
  function Imported(stage: Stage): Link {
    Link(Sides(Effective(stage, false), Some(stage), stage), [stage], Some(0), [])
  }

  /** A letter on its way says what its change means by the snapshot it was written by. */
  predicate LetterOk(l: Link, letter: Letter) {
    letter.Flying? ==>
      letter.seen < |l.sent| && Message(letter.from, letter.to, Some(l.sent[letter.seen])) == Some(letter.action)
  }

  /** The website is where its last snapshot says; the mirror row is of the snapshot applied last. */
  predicate LinkOk(l: Link) {
    && l.sent != []
    && l.sides.site == l.sent[|l.sent| - 1]
    && l.applied.Some? && l.applied.value < |l.sent|
    && l.sides.mirrored == Some(l.sent[l.applied.value])
  }

  predicate LettersOk(l: Link) {
    forall j :: 0 <= j < |l.letters| ==> LetterOk(l, l.letters[j])
  }

  lemma NextKeepsLink(l: Link, e: Event)
    requires LinkOk(l)
    ensures LinkOk(Next(l, e)) && l.sent <= Next(l, e).sent
  {
  }

  lemma NextKeepsLetters(l: Link, e: Event)
    requires LinkOk(l) && LettersOk(l)
    ensures LettersOk(Next(l, e))
  {
    NextKeepsLink(l, e);
    forall j | 0 <= j < |Next(l, e).letters|
      ensures LetterOk(Next(l, e), Next(l, e).letters[j])
    {
      assert j < |l.letters| ==> LetterOk(l, l.letters[j]);
    }
  }

  lemma {:induction false} RunKeepsLink(stage: Stage, events: seq<Event>)
    ensures LinkOk(Run(Imported(stage), events)) && LettersOk(Run(Imported(stage), events))
  {
    if events != [] {
      RunKeepsLink(stage, events[..|events| - 1]);
      NextKeepsLink(Run(Imported(stage), events[..|events| - 1]), events[|events| - 1]);
      NextKeepsLetters(Run(Imported(stage), events[..|events| - 1]), events[|events| - 1]);
    }
  }

  predicate Refusal(reopening: bool, to: Status, seen: Stage, latest: Stage) {
    || (reopening && SiteEnded(seen) && !SiteEnded(latest))
    || (!reopening && to == Closed && seen in CANCELLABLE_STAGES && latest !in CANCELLABLE_STAGES)
  }

  /**
   * Over every run, exactly when the website refuses a message that arrives: a reopen,
   * when the snapshot it was written by had the application ended and the last one sent
   * does not; or the cancel of a close, when the one it was written by was approved or
   * further and the last one sent is not.
   */
  lemma MessageRefusedIff(stage: Stage, events: seq<Event>, j: nat)
    requires j < |Run(Imported(stage), events).letters| && Run(Imported(stage), events).letters[j].Flying?
    ensures var l := Run(Imported(stage), events);
            var letter := l.letters[j];
            && l.sent != [] && letter.seen < |l.sent|
            && (!SiteAccepts(letter.action, l.sides.site) <==>
                  Refusal(Ended(letter.from) && !Ended(letter.to), letter.to, l.sent[letter.seen], l.sent[|l.sent| - 1]))
  {
    var l := Run(Imported(stage), events);
    RunKeepsLink(stage, events);
    assert LetterOk(l, l.letters[j]);
    StaleMessageRefusedIff(l.letters[j].from, l.letters[j].to, l.sent[l.letters[j].seen], l.sides.site);
  }

  /** A message written by the snapshot that is still the last one sent is never refused. */
  lemma LatestSeenNeverRefused(stage: Stage, events: seq<Event>, j: nat)
    requires j < |Run(Imported(stage), events).letters| && Run(Imported(stage), events).letters[j].Flying?
    ensures var l := Run(Imported(stage), events);
            l.letters[j].seen == |l.sent| - 1 ==> SiteAccepts(l.letters[j].action, l.sides.site)
  {
    MessageRefusedIff(stage, events, j);
  }

  /**
   * Over every run, exactly when a snapshot takes back a close or a rejection: whenever it
   * is not the one applied last and does not itself say ended. Nothing tells a snapshot
   * sent before the close from a reactivation after it.
   */
  lemma SnapshotReopensIff(stage: Stage, events: seq<Event>, k: nat, verified: bool)
    requires Ended(Run(Imported(stage), events).sides.status)
    ensures var l := Run(Imported(stage), events);
            var after := Next(l, Deliver(k, verified));
            && (!Ended(after.sides.status) <==> k < |l.sent| && l.applied != Some(k) && !SiteEnded(l.sent[k]))
            && (!Ended(after.sides.status) ==> after.sides.status == Effective(l.sent[k], verified))
  {
    if k < |Run(Imported(stage), events).sent| {
      EffectiveOnLadder(Run(Imported(stage), events).sent[k], verified);
    }
  }

  lemma DeliveryDecides(l: Link, k: nat, verified: bool)
    requires k < |l.sent| && l.applied != Some(k)
    ensures var after := Next(l, Deliver(k, verified));
            && after.sides.mirrored == Some(l.sent[k])
            && (Ended(after.sides.status) <==> SiteEnded(l.sent[k]))
  {
    EffectiveOnLadder(l.sent[k], verified);
  }

  lemma LastDeliveryDecides(l: Link, verified: bool)
    requires LinkOk(l)
    ensures l.applied != Some(|l.sent| - 1) ==>
              var after := Next(l, Deliver(|l.sent| - 1, verified));
              InSync(after.sides) && (Ended(after.sides.status) <==> SiteEnded(after.sides.site))
  {
    if l.applied != Some(|l.sent| - 1) {
      DeliveryDecides(l, |l.sent| - 1, verified);
    }
  }

  /** Applying the latest snapshot settles the matter: the record is ended exactly if the website has it ended. */
  lemma LatestSnapshotDecides(stage: Stage, events: seq<Event>, verified: bool)
    ensures var l := Run(Imported(stage), events);
            l.sent != [] && l.applied.Some? &&
            (l.applied != Some(|l.sent| - 1) ==>
              var after := Next(l, Deliver(|l.sent| - 1, verified));
              && InSync(after.sides)
              && (Ended(after.sides.status) <==> SiteEnded(after.sides.site)))
  {
    RunKeepsLink(stage, events);
    LastDeliveryDecides(Run(Imported(stage), events), verified);
  }

  /** A change and its message, written and arriving at once. */
  function Told(l: Link, to: Status, resumed: Stage): Link {
    Next(Next(Next(l, Operator(to, true)), Write(|l.letters|)), Arrive(|l.letters|, resumed))
  }

  /** Held here, and paid over there without a word of it here yet. */
  const HELD := Link(Sides(OnHold, Some(Approved), Paid), [Approved, Paid], Some(0), [Gone])

  /** It does arise: from an approved application that is paid over there and put on hold here. */
  lemma HeldArises()
    ensures var paid := Next(Imported(Approved), SiteMove(Paid));
            Next(Next(paid, Operator(OnHold, false)), Write(0)) == HELD
  {
    assert Next(Imported(Approved), SiteMove(Paid)) == Link(Sides(Selected, Some(Approved), Paid), [Approved, Paid], Some(0), []);
  }

  lemma HeldClosed()
    ensures Next(Next(HELD, Operator(Closed, true)), Write(1)) ==
              HELD.(sides := Sides(Closed, Some(Approved), Paid), letters := [Gone, Flying(OnHold, Closed, 0, Cancel)])
  {
    assert Next(HELD, Operator(Closed, true)) ==
           HELD.(sides := Sides(Closed, Some(Approved), Paid), letters := [Gone, Waiting(OnHold, Closed)]);
  }

  /** Closed, the website is told to cancel, and does. */
  lemma CloseOvertakesPayment()
    ensures Told(HELD, Closed, Review) ==
              Link(Sides(Closed, Some(Approved), Cancelled), [Approved, Paid, Cancelled], Some(0), [Gone, Gone])
  {
    HeldClosed();
  }

  /** The cancellation and the payment then arrive in the wrong order: the record is open again, for good. */
  lemma LateSnapshotReopens()
    ensures var closed := Told(HELD, Closed, Review);
            && Ended(closed.sides.status) && closed.sides.site == Cancelled
            && Next(Next(closed, Deliver(2, false)), Deliver(1, false)).sides == Sides(CertificatePending, Some(Paid), Cancelled)
  {
    CloseOvertakesPayment();
    var closed := Link(Sides(Closed, Some(Approved), Cancelled), [Approved, Paid, Cancelled], Some(0), [Gone, Gone]);
    assert Next(closed, Deliver(2, false)) == closed.(sides := Sides(Closed, Some(Cancelled), Cancelled), applied := Some(2));
  }

  /** An operator's change is the status asked for, except that a payment goes on to Certificate Verification. */
  lemma ChangedTo(l: Link, to: Status, certified: bool)
    ensures var after := Next(l, Operator(to, certified));
            && (!Allowed(l.sides.status, to, certified) ==> after == l)
            && (Allowed(l.sides.status, to, certified) ==>
                  && after.sides == l.sides.(status := if to == PaymentReceived then CertificatePending else to)
                  && after.sent == l.sent && after.applied == l.applied
                  && after.letters == l.letters + [Waiting(l.sides.status, to)])
  {
  }

  /** With the two sides in step, a change, its message and the echo of what the website did are one round trip. */
  lemma RoundTripIsTheSteps(l: Link, to: Status, resumed: Stage, verified: bool)
    requires LinkOk(l) && InSync(l.sides) && Allowed(l.sides.status, to, true) && to != PaymentReceived
    ensures var told := Told(l, to, resumed);
            RoundTrip(l.sides, to, resumed, verified) ==
              if |told.sent| > |l.sent| then Next(told, Deliver(|l.sent|, verified)).sides else told.sides
  {
  }

  // ── The buttons on the website panel ─────────────────────────────────────

  /** On a record that is where its stage puts it, every action offered is one the website takes. */
  lemma OfferedActionsAreAccepted(stage: Stage, verified: bool, action: Action)
    requires action in ActionsFor(Effective(stage, verified))
    ensures SiteAccepts(action, stage)
  {
  }

  /** But cancelling, which the website takes throughout fulfilment, is offered only here. */
  lemma CancelOfferedIff(stage: Stage, verified: bool)
    ensures Cancel in ActionsFor(Effective(stage, verified)) <==> stage == Approved || (stage == Paid && verified)
    ensures Cancel in ActionsFor(Effective(stage, verified)) ==> SiteAccepts(Cancel, stage)
  {
  }
}
