/**
 * What a run of website snapshots does to one record's status.
 *
 * `Settle` says what one snapshot means: it is the join of two points on the ladder,
 * unless a decision is involved. The lemmas say what any run of them means.
 */
module StatusLadder {
  import opened Wrappers
  import opened Stages

  /** What one snapshot says, and whether the certificate was signed off when it landed. */
  datatype Report = Report(stage: Option<Stage>, verified: bool)

  /** The status a stage stands for: nothing unsigned is past Certificate Verification. */
  function Effective(stage: Stage, verified: bool): Status {
    if StageRank(stage) >= StageRank(Paid) && !verified then CertificatePending else StageToStatus(stage)
  }

  /** The further of two points on the ladder. */
  function Further(a: Status, b: Status): Status
    requires !IsDecisionStatus(a) && !IsDecisionStatus(b)
  {
    if LadderRank(b) > LadderRank(a) then b else a
  }

  function Settle(current: Status, report: Report): Status {
    match report.stage
    case None => current
    case Some(stage) =>
      if IsDecisionStage(stage) || IsDecisionStatus(current)
      then Effective(stage, report.verified)
      else Further(current, Effective(stage, report.verified))
  }

  /** Beyond the step that only an employee's sign-off completes. */
  predicate PastGate(status: Status) {
    !IsDecisionStatus(status) && LadderRank(status) > CERTIFICATE_VERIFICATION_RANK
  }

  /** What a finished run of snapshots leaves behind. */
  function Reach(start: Status, reports: seq<Report>): Status {
    if reports == [] then start else Settle(Reach(start, reports[..|reports| - 1]), reports[|reports| - 1])
  }

  predicate NoDecision(reports: seq<Report>) {
    forall r <- reports :: r.stage.Some? ==> !IsDecisionStage(r.stage.value)
  }

  /** Every point on the ladder that the start or some snapshot puts the record at. */
  ghost predicate Reported(start: Status, reports: seq<Report>, s: Status) {
    || s == start
    || exists r <- reports :: r.stage.Some? && s == Effective(r.stage.value, r.verified)
  }

  // ── One snapshot ─────────────────────────────────────────────────────────

  /** A ladder stage never stands for a decision, whatever the gate makes of it. */
  lemma EffectiveOnLadder(stage: Stage, verified: bool)
    ensures IsDecisionStatus(Effective(stage, verified)) == IsDecisionStage(stage)
    ensures !verified ==> !PastGate(Effective(stage, verified))
  {
  }

  /** No snapshot carries an unsigned record past the gate, or a record off the ladder's decisions backward. */
  lemma SettleRespectsGate(current: Status, report: Report)
    ensures PastGate(Settle(current, report)) && Settle(current, report) != current ==> report.verified
    ensures !IsDecisionStatus(current) && NoDecision([report]) ==>
              !IsDecisionStatus(Settle(current, report)) && LadderRank(Settle(current, report)) >= LadderRank(current)
  {
  }

  /** Applying the same report twice is applying it once. */
  lemma SettleIdempotent(current: Status, report: Report)
    ensures Settle(Settle(current, report), report) == Settle(current, report)
  {
  }

  // ── Runs without a decision: a join, so order and repetition do not matter ─

  /** One ladder snapshot takes the further of where the record is and where the stage puts it. */
  lemma SettleIsJoin(current: Status, report: Report)
    requires !IsDecisionStatus(current)
    requires report.stage.Some? ==> !IsDecisionStage(report.stage.value)
    ensures var after := Settle(current, report);
            && !IsDecisionStatus(after)
            && LadderRank(after) >= LadderRank(current)
            && (after == current || (report.stage.Some? && after == Effective(report.stage.value, report.verified)))
            && (report.stage.Some? ==>
                  && !IsDecisionStatus(Effective(report.stage.value, report.verified))
                  && LadderRank(after) >= LadderRank(Effective(report.stage.value, report.verified)))
  {
  }

  /** The candidates after one more snapshot are the old ones and the new one. */
  lemma ReportedStep(start: Status, before: seq<Report>, report: Report, s: Status)
    ensures Reported(start, before + [report], s) <==>
              Reported(start, before, s) || (report.stage.Some? && s == Effective(report.stage.value, report.verified))
  {
  }

  lemma {:induction false} RunIsGreatest(start: Status, reports: seq<Report>)
    requires !IsDecisionStatus(start) && NoDecision(reports)
    ensures !IsDecisionStatus(Reach(start, reports))
    ensures Reported(start, reports, Reach(start, reports))
    ensures forall s :: Reported(start, reports, s) ==>
              !IsDecisionStatus(s) && LadderRank(s) <= LadderRank(Reach(start, reports))
  {
    if reports != [] {
      var before, report := reports[..|reports| - 1], reports[|reports| - 1];
      assert reports == before + [report];
      assert NoDecision(before) && report in reports;
      RunIsGreatest(start, before);
      SettleIsJoin(Reach(start, before), report);
      ReportedStep(start, before, report, Reach(start, reports));
      forall s | Reported(start, reports, s)
        ensures !IsDecisionStatus(s) && LadderRank(s) <= LadderRank(Reach(start, reports))
      {
        ReportedStep(start, before, report, s);
      }
    }
  }

  /** Any order, any duplication: the same snapshots end in the same status. */
  lemma OrderAndRepetitionIrrelevant(start: Status, reports: seq<Report>, others: seq<Report>)
    requires !IsDecisionStatus(start) && NoDecision(reports)
    requires forall r :: r in reports <==> r in others
    ensures Reach(start, reports) == Reach(start, others)
  {
    RunIsGreatest(start, reports);
    assert NoDecision(others);
    RunIsGreatest(start, others);
    assert Reported(start, others, Reach(start, reports));
    assert Reported(start, reports, Reach(start, others));
    RankIsInjective(Reach(start, reports), Reach(start, others));
  }

  // ── Runs with decisions: only what follows the last one counts ─────────────

  lemma {:induction false} RunAppend(start: Status, xs: seq<Report>, ys: seq<Report>)
    ensures Reach(start, xs + ys) == Reach(Reach(start, xs), ys)
  {
    if ys == [] {
      assert xs + ys == xs;
    } else {
      var last := |ys| - 1;
      RunAppend(start, xs, ys[..last]);
      assert (xs + ys)[..|xs + ys| - 1] == xs + ys[..last];
    }
  }

  /**
   * A decision wipes out everything before it, and the first ladder stage after it is
   * taken whole; from there on the run is a join again.
   */
  lemma DecisionResets(start: Status, xs: seq<Report>, decision: Report, ys: seq<Report>)
    requires decision.stage.Some? && IsDecisionStage(decision.stage.value)
    requires NoDecision(ys)
    ensures Reach(start, xs + [decision] + ys) == Reach(StageToStatus(decision.stage.value), ys)
    ensures ys != [] && ys[0].stage.Some? ==>
              Reach(start, xs + [decision] + ys) == Reach(Effective(ys[0].stage.value, ys[0].verified), ys[1..])
  {
    var at := StageToStatus(decision.stage.value);
    RunAppend(start, xs + [decision], ys);
    assert (xs + [decision])[..|xs|] == xs;
    assert Reach(start, xs + [decision]) == at;
    if ys != [] && ys[0].stage.Some? {
      RunAppend(at, [ys[0]], ys[1..]);
      assert [ys[0]] + ys[1..] == ys;
      assert [ys[0]][..0] == [];
    }
  }
}
