/**
 * The two vocabularies of the mirror: the website's stages and the CRM's statuses,
 * with the tables that relate them.
 */
module Stages {
  import opened Wrappers

  datatype Status =
    | NewLead | ApplicationSubmitted | UnderReview | VerificationPending | OnHold
    | Selected | Rejected | PaymentPending | PaymentReceived | CertificatePending
    | CertificateUploaded | Publication | DispatchPending | Dispatched | Delivered
    | Completed | Closed

  datatype Stage =
    | Draft | Submitted | Review | Validated | Held | Approved | Paid
    | CertificateIssued | AwaitingDispatch | Shipped | Received
    | Refused | Cancelled

  /** Every stage, in the order the stage table lists them. */
  const STAGES: seq<Stage> := [
    Draft, Submitted, Review, Validated, Held, Approved, Paid,
    CertificateIssued, AwaitingDispatch, Shipped, Received, Refused, Cancelled
  ]

  function StageToStatus(stage: Stage): Status {
    match stage
    case Draft => NewLead
    case Submitted => ApplicationSubmitted
    case Review => UnderReview
    case Validated => VerificationPending
    case Held => OnHold
    case Approved => Selected
    case Paid => PaymentReceived
    case CertificateIssued => CertificateUploaded
    case AwaitingDispatch => DispatchPending
    case Shipped => Dispatched
    case Received => Delivered
    case Refused => Rejected
    case Cancelled => Closed
  }

  function StageRank(stage: Stage): real {
    match stage
    case Draft => -0.5
    case Submitted => 0.0
    case Review => 1.0
    case Validated => 2.0
    case Held => -1.0
    case Approved => 3.0
    case Paid => 4.0
    case CertificateIssued => 5.0
    case AwaitingDispatch => 6.0
    case Shipped => 7.0
    case Received => 8.0
    case Refused => -1.0
    case Cancelled => -1.0
  }

  predicate IsDecisionStage(stage: Stage) {
    stage == Refused || stage == Cancelled || stage == Held
  }

  predicate IsDecisionStatus(status: Status) {
    status == Rejected || status == Closed || status == OnHold
  }

  /** Number.MAX_SAFE_INTEGER. */
  const MAX_SAFE_INTEGER := 9007199254740991.0

  const CERTIFICATE_VERIFICATION_RANK := StageRank(Paid) + 0.5

  /** Where the statuses that no stage maps to sit on the website's ladder. */
  function CrmOnlyRank(status: Status): Option<real> {
    match status
    case PaymentPending => Some(StageRank(Approved) + 0.5)
    case CertificatePending => Some(CERTIFICATE_VERIFICATION_RANK)
    case Publication => Some(StageRank(Received) + 0.5)
    case Completed => Some(MAX_SAFE_INTEGER)
    case _ => None
  }

  // ── Rank as an independent table ─────────────────────────────────────────

  /** The rank of a status that is a point on the ladder, written out in full. */
  function LadderRank(status: Status): real
    requires !IsDecisionStatus(status)
  {
    match status
    case NewLead => -0.5
    case ApplicationSubmitted => 0.0
    case UnderReview => 1.0
    case VerificationPending => 2.0
    case Selected => 3.0
    case PaymentPending => 3.5
    case PaymentReceived => 4.0
    case CertificatePending => 4.5
    case CertificateUploaded => 5.0
    case DispatchPending => 6.0
    case Dispatched => 7.0
    case Delivered => 8.0
    case Publication => 8.5
    case Completed => 9007199254740991.0
  }

  function StatusRank(status: Status): Option<real> {
    if IsDecisionStatus(status) then None else Some(LadderRank(status))
  }

  /**
   * The lookup walks the stage table for a ladder stage mapped to the status, then
   * falls back to the CRM-only table; it finds exactly the written-out rank.
   */
  method RankOf(status: Status) returns (rank: Option<real>)
    ensures rank == StatusRank(status)
  {
    for i := 0 to |STAGES|
      invariant forall k :: 0 <= k < i ==> IsDecisionStage(STAGES[k]) || StageToStatus(STAGES[k]) != status
    {
      var stage := STAGES[i];
      if !IsDecisionStage(stage) && StageToStatus(stage) == status {
        return Some(StageRank(stage));
      }
    }
    NoStageMeansCrmOnly(status);
    return CrmOnlyRank(status);
  }

  lemma NoStageMeansCrmOnly(status: Status)
    requires forall k :: 0 <= k < |STAGES| ==> IsDecisionStage(STAGES[k]) || StageToStatus(STAGES[k]) != status
    ensures CrmOnlyRank(status) == StatusRank(status)
  {
    forall stage: Stage
      ensures IsDecisionStage(stage) || StageToStatus(stage) != status
    {
      EveryStageListed(stage);
    }
    assert StageToStatus(Draft) != status && StageToStatus(Submitted) != status && StageToStatus(Review) != status;
    assert StageToStatus(Validated) != status && StageToStatus(Approved) != status && StageToStatus(Paid) != status;
    assert StageToStatus(CertificateIssued) != status && StageToStatus(AwaitingDispatch) != status;
    assert StageToStatus(Shipped) != status && StageToStatus(Received) != status;
  }

  lemma EveryStageListed(stage: Stage)
    ensures exists k :: 0 <= k < |STAGES| && STAGES[k] == stage
  {
    match stage
    case Draft => assert STAGES[0] == stage;
    case Submitted => assert STAGES[1] == stage;
    case Review => assert STAGES[2] == stage;
    case Validated => assert STAGES[3] == stage;
    case Held => assert STAGES[4] == stage;
    case Approved => assert STAGES[5] == stage;
    case Paid => assert STAGES[6] == stage;
    case CertificateIssued => assert STAGES[7] == stage;
    case AwaitingDispatch => assert STAGES[8] == stage;
    case Shipped => assert STAGES[9] == stage;
    case Received => assert STAGES[10] == stage;
    case Refused => assert STAGES[11] == stage;
    case Cancelled => assert STAGES[12] == stage;
  }

  /** The CRM tells a status's place on the ladder apart from every other's. */
  lemma RankIsInjective(a: Status, b: Status)
    requires !IsDecisionStatus(a) && !IsDecisionStatus(b)
    requires LadderRank(a) == LadderRank(b)
    ensures a == b
  {
  }
}
