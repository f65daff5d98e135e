/**
 * The register with requests under way. An add and a lift look first, commit a transaction
 * later, and tell the website after that; a message from the website looks once more
 * before either. Between any two of these anything else may happen.
 */
module BlacklistRuns {
  import opened Wrappers
  import opened Blacklist

  /** A request by the part it has still to do. */
  datatype Job =
    | ToAdd(applicant: nat, kind: Kind, until: Option<int>, reason: string, origin: Origin)
    | Adding(applicant: nat, kind: Kind, until: Option<int>, reason: string, origin: Origin)
    | ToLift(id: nat, origin: Origin)
    | Lifting(id: nat, origin: Origin)
    | Telling(push: Push)
    | Finished

  datatype System = System(r: Register, jobs: seq<Job>)

  /** `which` is the entry the database happens to return when a website message asks for one in force. */
  datatype Event =
    | Register(step: Step)
    | AskAdd(applicant: nat, kind: Kind, until: Option<int>, reason: string)
    | AskLift(id: nat)
    | Heard(who: Option<nat>, block: bool, reason: string, which: nat)
    | Look(job: nat)
    | Commit(job: nat)
    | Notify(job: nat)
    | Drop(job: nat)

  function With(s: System, job: Job): System {
    s.(jobs := s.jobs + [job])
  }

  function Becomes(s: System, j: nat, r: Register, job: Job): System
    requires j < |s.jobs|
  {
    System(r, s.jobs[j := job])
  }

  predicate InForce(r: Register, id: nat, applicant: nat) {
    id < |r.entries| && r.entries[id].applicant == applicant && !r.entries[id].lifted
  }

  function HeardStep(s: System, who: Option<nat>, block: bool, reason: string, which: nat): System {
    match Matched(s.r, who)
    case None => s
    case Some(a) =>
      match FirstActive(s.r.entries, a)
      case Some(id) => if block then s else With(s, ToLift(if InForce(s.r, which, a) then which else id, FromWebsite))
      case None =>
        if !block then s
        else With(s, ToAdd(a, Permanent, None, if reason == "" then WEBSITE_BLOCK_DETAIL else reason, FromWebsite))
  }

  function LookStep(s: System, j: nat): System {
    if j >= |s.jobs| then s
    else
      match s.jobs[j]
      case ToAdd(a, kind, until, reason, origin) =>
        Becomes(s, j, s.r, if AddRefusal(s.r, a, kind, until).Some? then Finished else Adding(a, kind, until, reason, origin))
      case ToLift(id, origin) =>
        Becomes(s, j, s.r, if LiftRefusal(s.r, id).Some? then Finished else Lifting(id, origin))
      case _ => s
  }

  function CommitStep(s: System, j: nat): System {
    if j >= |s.jobs| then s
    else
      match s.jobs[j]
      case Adding(a, kind, until, reason, origin) =>
        if a >= |s.r.applicants| then s
        else Becomes(s, j, CommitAdd(s.r, a, kind, until, reason), After(Push(a, true), origin))
      case Lifting(id, origin) =>
        if id >= |s.r.entries| then s
        else Becomes(s, j, CommitLift(s.r, id), After(Push(s.r.entries[id].applicant, false), origin))
      case _ => s
  }

  /** What came from the website is not sent back. */
  function After(push: Push, origin: Origin): Job {
    if origin == FromCrm then Telling(push) else Finished
  }

  /** The flags and the applicants themselves, in one statement each. */
  predicate Single(step: Step) {
    step.NewApplicant? || step.SetDeleted? || step.Raise? || step.Clear?
  }

  function Happen(s: System, e: Event): System {
    match e
    case Register(step) => if Single(step) then s.(r := Blacklist.Next(s.r, step)) else s
    case AskAdd(a, kind, until, reason) => With(s, ToAdd(a, kind, until, reason, FromCrm))
    case AskLift(id) => With(s, ToLift(id, FromCrm))
    case Heard(who, block, reason, which) => HeardStep(s, who, block, reason, which)
    case Look(j) => LookStep(s, j)
    case Commit(j) => CommitStep(s, j)
    case Notify(j) =>
      if j < |s.jobs| && s.jobs[j].Telling? then Becomes(s, j, Tell(s.r, s.jobs[j].push), Finished) else s
    case Drop(j) => if j < |s.jobs| then Becomes(s, j, s.r, Finished) else s
  }

  function Run(s: System, events: seq<Event>): System {
    if events == [] then s else Happen(Run(s, events[..|events| - 1]), events[|events| - 1])
  }

  function InTurn(s: System, a: Event, b: Event, c: Event, d: Event): System {
    Happen(Happen(Happen(Happen(s, a), b), c), d)
  }

  const IDLE := System(EMPTY, [])

  // ── Agreement, however requests overlap ────────────────────────────────────

  lemma SingleKeeps(r: Register, step: Step)
    requires Inv(r) && Single(step)
    ensures Inv(Blacklist.Next(r, step)) && Blacklist.Next(r, step).entries == r.entries
  {
    match step
    case Raise(a, flag) => FlagsKeep(r, a, flag);
    case Clear(a, flag) => FlagsKeep(r, a, flag);
    case _ => ApplicantsKeep(r, step);
  }

  lemma CommitKeeps(s: System, j: nat)
    requires Inv(s.r)
    ensures Inv(CommitStep(s, j).r) && HistoryKept(s.r.entries, CommitStep(s, j).r.entries)
  {
    if j < |s.jobs| && s.jobs[j].Adding? && s.jobs[j].applicant < |s.r.applicants| {
      CommitAddKeeps(s.r, s.jobs[j].applicant, s.jobs[j].kind, s.jobs[j].until, s.jobs[j].reason);
    } else if j < |s.jobs| && s.jobs[j].Lifting? && s.jobs[j].id < |s.r.entries| {
      CommitLiftKeeps(s.r, s.jobs[j].id);
    }
  }

  lemma EventKeeps(s: System, e: Event)
    requires Inv(s.r)
    ensures Inv(Happen(s, e).r) && HistoryKept(s.r.entries, Happen(s, e).r.entries)
  {
    match e
    case Register(step) =>
      if Single(step) {
        SingleKeeps(s.r, step);
      }
    case Commit(j) => CommitKeeps(s, j);
    case Notify(j) =>
      if j < |s.jobs| && s.jobs[j].Telling? {
        TellKeeps(s.r, s.jobs[j].push);
      }
    case _ =>
  }

  /**
   * In every run, however requests overlap and wherever they stop: the register, the
   * switch and the flag agree about everyone, and no entry is lost.
   */
  lemma {:induction false} EveryRunAgrees(s: System, events: seq<Event>)
    requires Inv(s.r)
    ensures Inv(Run(s, events).r) && HistoryKept(s.r.entries, Run(s, events).r.entries)
  {
    if events != [] {
      EveryRunAgrees(s, events[..|events| - 1]);
      EventKeeps(Run(s, events[..|events| - 1]), events[|events| - 1]);
    }
  }

  // ── A second entry ─────────────────────────────────────────────────────────

  /** The transaction of an add whose applicant has been blocked since it looked. */
  predicate Overtaken(s: System, e: Event) {
    && e.Commit? && e.job < |s.jobs| && s.jobs[e.job].Adding?
    && s.jobs[e.job].applicant < |s.r.applicants| && Active(s.r, s.jobs[e.job].applicant)
  }

  /** Exactly one thing gives an applicant a second entry in force: an add overtaken since it looked. */
  lemma SecondEntryOnlyIf(s: System, e: Event)
    requires Inv(s.r) && OneActiveEach(s.r.entries)
    ensures OneActiveEach(Happen(s, e).r.entries) <==> !Overtaken(s, e)
  {
    match e
    case Register(step) =>
      if Single(step) {
        SingleKeeps(s.r, step);
      }
    case Commit(j) =>
      if j < |s.jobs| && s.jobs[j].Adding? && s.jobs[j].applicant < |s.r.applicants| {
        SecondEntryIff(s.r, s.jobs[j].applicant, s.jobs[j].kind, s.jobs[j].until, s.jobs[j].reason);
      } else if j < |s.jobs| && s.jobs[j].Lifting? && s.jobs[j].id < |s.r.entries| {
        CommitLiftKeeps(s.r, s.jobs[j].id);
      }
    case _ =>
  }

  /** Over any run in which no add is overtaken, nobody has two. */
  lemma {:induction false} NeverTwoEntries(s: System, events: seq<Event>)
    requires Inv(s.r) && OneActiveEach(s.r.entries)
    requires forall k :: 0 <= k < |events| ==> !Overtaken(Run(s, events[..k]), events[k])
    ensures OneActiveEach(Run(s, events).r.entries)
  {
    if events != [] {
      var front := events[..|events| - 1];
      forall k | 0 <= k < |front|
        ensures !Overtaken(Run(s, front[..k]), front[k])
      {
        assert front[..k] == events[..k] && front[k] == events[k];
      }
      NeverTwoEntries(s, front);
      EveryRunAgrees(s, front);
      SecondEntryOnlyIf(Run(s, front), events[|events| - 1]);
    }
  }

  lemma BothCommit(s: System, i: nat, j: nat)
    requires Inv(s.r) && i < |s.jobs| && j < |s.jobs| && i != j
    requires s.jobs[i].Adding? && s.jobs[j].Adding? && s.jobs[i].applicant == s.jobs[j].applicant
    requires s.jobs[i].applicant < |s.r.applicants|
    ensures var after := Happen(Happen(s, Commit(i)), Commit(j)).r;
            && !OneActiveEach(after.entries)
            && |after.entries| == |s.r.entries| + 2
            && InForce(after, |s.r.entries|, s.jobs[i].applicant)
            && InForce(after, |s.r.entries| + 1, s.jobs[i].applicant)
  {
    var once := Happen(s, Commit(i));
    assert once.jobs[j] == s.jobs[j];
    var entries := Happen(once, Commit(j)).r.entries;
    assert entries[|s.r.entries|].applicant == entries[|s.r.entries| + 1].applicant;
  }

  /** An operator's add and a website's block that both look before either commits leave two entries in force. */
  lemma OverlappingAdds(s: System, a: nat, reason: string)
    requires Inv(s.r) && Matched(s.r, Some(a)).Some? && !Active(s.r, a)
    ensures var j := |s.jobs|;
            var asked := Happen(Happen(s, AskAdd(a, Permanent, None, reason)), Heard(Some(a), true, "", 0));
            var after := InTurn(asked, Look(j), Look(j + 1), Commit(j), Commit(j + 1)).r;
            && !OneActiveEach(after.entries)
            && InForce(after, |s.r.entries|, a) && InForce(after, |s.r.entries| + 1, a)
  {
    FirstActiveExact(s.r.entries, a);
    var j := |s.jobs|;
    var asked := Happen(Happen(s, AskAdd(a, Permanent, None, reason)), Heard(Some(a), true, "", 0));
    var looked := Happen(Happen(asked, Look(j)), Look(j + 1));
    assert looked.r == s.r && |looked.jobs| == j + 2;
    BothCommit(looked, j, j + 1);
  }

  /** With two entries in force, one lift neither unblocks nor tells the website; the second does both. */
  lemma TwoEntriesTwoLifts(r: Register, first: nat, second: nat)
    requires Inv(r) && first != second
    requires first < |r.entries| && second < |r.entries| && r.entries[first].applicant == r.entries[second].applicant
    requires forall i :: 0 <= i < |r.entries| && r.entries[i].applicant == r.entries[first].applicant ==>
               (r.entries[i].lifted <==> i != first && i != second)
    ensures var a := r.entries[first].applicant;
            var once := Lift(r, first, FromCrm).0;
            var twice := Lift(once, second, FromCrm).0;
            && Active(once, a) && once.pushed == r.pushed
            && !Active(twice, a) && twice.pushed == r.pushed + [Push(a, false)]
  {
    LiftKeeps(r, first, FromCrm);
    assert OtherInForce(r, first);
    var once := Lift(r, first, FromCrm).0;
    assert once.entries == r.entries[first := r.entries[first].(lifted := true)];
    LiftKeeps(once, second, FromCrm);
    assert !OtherInForce(once, second);
  }

  // ── Telling the website ────────────────────────────────────────────────────

  /**
   * What a push leaves the website with. A lift is only ever told when the applicant is
   * free here; a block is told even when its entry has been lifted since, and the website
   * is then left blocking someone the CRM does not.
   */
  lemma LatePush(r: Register, site: set<nat>, push: Push)
    ensures var after := Tell(r, push);
            var told := Told(site, after.pushed[|r.pushed|..]);
            && (!push.block ==> (after != r <==> !Active(r, push.applicant)))
            && (after != r ==>
                  ((push.applicant in told <==> Active(after, push.applicant)) <==> push.block == Active(r, push.applicant)))
            && forall a :: a != push.applicant ==> (a in told <==> a in site)
  {
    FirstActiveExact(r.entries, push.applicant);
    if Tell(r, push) != r {
      assert Tell(r, push).pushed[|r.pushed|..] == [push];
      assert [push][..0] == [];
      assert Told(site, [push]) == if push.block then site + {push.applicant} else site - {push.applicant};
    }
  }

  // ── Undisturbed, the parts are the whole ───────────────────────────────────

  /** Flags and applicants change between the parts of any request. */
  lemma SinglesHappen(s: System, step: Step)
    requires step.NewApplicant? || step.SetDeleted? || step.Raise? || step.Clear?
    ensures Happen(s, Event.Register(step)) == s.(r := Blacklist.Next(s.r, step))
  {
  }

  lemma UndisturbedAdd(s: System, a: nat, kind: Kind, until: Option<int>, reason: string)
    ensures var j := |s.jobs|;
            InTurn(s, AskAdd(a, kind, until, reason), Look(j), Commit(j), Notify(j)).r == Add(s.r, a, kind, until, reason, FromCrm).0
  {
  }

  lemma UndisturbedLift(s: System, id: nat)
    ensures var j := |s.jobs|; InTurn(s, AskLift(id), Look(j), Commit(j), Notify(j)).r == Lift(s.r, id, FromCrm).0
  {
  }

  lemma UndisturbedMessage(s: System, who: Option<nat>, block: bool, reason: string)
    requires Inv(s.r) && OneActiveEach(s.r.entries)
    ensures var j := |s.jobs|;
            forall which :: InTurn(s, Heard(who, block, reason, which), Look(j), Commit(j), Notify(j)).r ==
                              Hear(s.r, Matched(s.r, who), block, reason).0
  {
    if Matched(s.r, who).Some? {
      FirstActiveExact(s.r.entries, who.value);
    }
  }
}
