/**
 * Refreshes under way. A refresh reads its session and its user, inserts the new session
 * later, and closes the old link after that; nothing locks any of the three.
 */
module SessionRuns {
  import opened Wrappers
  import opened Sessions

  /** A refresh by what it has still to do, with what it read. */
  datatype Job =
    | Rotating(token: nat, user: nat, version: nat, rememberMe: bool)
    | Linking(token: nat, sid: nat)
    | Finished

  /** `parents[i]` is the session that session i was rotated from. */
  datatype System = System(a: Auth, parents: seq<Option<nat>>, jobs: seq<Job>)

  datatype Action =
    | Other(event: Event)
    | Ask(token: nat, reached: set<nat>)
    | Insert(job: nat, sessionTtl: nat)
    | Link(job: nat)
    | Drop(job: nat)

  /** Parents of the sessions there now: those new since `s` come from a sign-in. */
  function WithAuth(s: System, a: Auth): System {
    if |a.sessions| <= |s.parents| then s.(a := a)
    else System(a, s.parents + seq(|a.sessions| - |s.parents|, i => None), s.jobs)
  }

  /** What a refresh reads, if that is no reason to refuse it. */
  function AskStep(s: System, cfg: Config, token: nat, reached: set<nat>): System {
    var (after, result) := Refresh(s.a, cfg, token, 0, reached);
    if result.Rotated? then
      var session := s.a.sessions[token];
      s.(jobs := s.jobs + [Rotating(token, session.user, s.a.users[session.user].tokenVersion, session.rememberMe)])
    else WithAuth(s, after)
  }

  function InsertStep(s: System, cfg: Config, j: nat, sessionTtl: nat): System {
    if j >= |s.jobs| || !s.jobs[j].Rotating? then s
    else
      var Rotating(token, user, version, rememberMe) := s.jobs[j];
      var ttl := if rememberMe then cfg.refreshTtl else sessionTtl;
      var sid := |s.a.sessions|;
      System(s.a.(sessions := s.a.sessions + [Session(user, rememberMe, s.a.clock + ttl, None, false)],
                  tokens := s.a.tokens + [AccessToken(user, sid, version, s.a.clock / 1000 + cfg.accessTtl / 1000)]),
             s.parents + [Some(token)],
             s.jobs[j := Linking(token, sid)])
  }

  function LinkStep(s: System, j: nat): System {
    if j >= |s.jobs| || !s.jobs[j].Linking? || s.jobs[j].token >= |s.a.sessions| then s
    else
      var Linking(token, sid) := s.jobs[j];
      s.(a := s.a.(sessions := s.a.sessions[token := s.a.sessions[token].(replacedBy := Some(sid))]),
         jobs := s.jobs[j := Finished])
  }

  function Happen(s: System, cfg: Config, action: Action): System {
    match action
    case Other(event) => if event.UseRefresh? then s else WithAuth(s, Next(s.a, cfg, event))
    case Ask(token, reached) => AskStep(s, cfg, token, reached)
    case Insert(j, sessionTtl) => InsertStep(s, cfg, j, sessionTtl)
    case Link(j) => LinkStep(s, j)
    case Drop(j) => if j < |s.jobs| then s.(jobs := s.jobs[j := Finished]) else s
  }

  function RunAll(s: System, cfg: Config, actions: seq<Action>): System {
    if actions == [] then s else Happen(RunAll(s, cfg, actions[..|actions| - 1]), cfg, actions[|actions| - 1])
  }

  /** Undisturbed, the three parts are one refresh. */
  lemma UndisturbedRefresh(s: System, cfg: Config, token: nat, sessionTtl: nat, reached: set<nat>)
    requires |s.parents| == |s.a.sessions|
    ensures var j := |s.jobs|;
            Happen(Happen(Happen(s, cfg, Ask(token, reached)), cfg, Insert(j, sessionTtl)), cfg, Link(j)).a ==
              Refresh(s.a, cfg, token, sessionTtl, reached).0
  {
  }

  // ── What every action keeps ────────────────────────────────────────────────

  predicate JobOk(s: System, job: Job) {
    match job
    case Rotating(token, user, version, rememberMe) =>
      && token < |s.a.sessions| && user < |s.a.users|
      && s.a.sessions[token].user == user && s.a.sessions[token].rememberMe == rememberMe
      && version <= s.a.users[user].tokenVersion
    case Linking(token, sid) =>
      && token < sid < |s.a.sessions|
      && s.a.sessions[sid].user == s.a.sessions[token].user
      && s.a.sessions[sid].rememberMe == s.a.sessions[token].rememberMe
      && forall i :: 0 <= i < |s.a.sessions| ==> s.a.sessions[i].replacedBy != Some(sid)
    case Finished => true
  }

  predicate JobsOk(s: System) {
    && (forall j :: 0 <= j < |s.jobs| ==> JobOk(s, s.jobs[j]))
    && (forall i, j :: 0 <= i < j < |s.jobs| && s.jobs[i].Linking? && s.jobs[j].Linking? ==> s.jobs[i].sid != s.jobs[j].sid)
  }

  predicate SysInv(s: System) {
    LinksOk(s.a.sessions) && TokensOk(s.a) && |s.parents| == |s.a.sessions| && JobsOk(s)
  }

  /** What can have become of accounts and sessions in one action that is not a link. */
  predicate Grown(a: Auth, b: Auth) {
    && |a.users| <= |b.users| && |a.sessions| <= |b.sessions|
    && (forall u :: 0 <= u < |a.users| ==> a.users[u].tokenVersion <= b.users[u].tokenVersion)
    && (forall i :: 0 <= i < |a.sessions| ==>
          b.sessions[i] == a.sessions[i].(revoked := b.sessions[i].revoked) && (a.sessions[i].revoked ==> b.sessions[i].revoked))
    && (forall i :: |a.sessions| <= i < |b.sessions| ==> b.sessions[i].replacedBy.None?)
  }

  lemma JobsStay(s: System, t: System)
    requires JobsOk(s) && t.jobs == s.jobs && Grown(s.a, t.a)
    ensures JobsOk(t)
  {
    forall j | 0 <= j < |t.jobs|
      ensures JobOk(t, t.jobs[j])
    {
      assert JobOk(s, s.jobs[j]);
    }
  }

  lemma LinksStay(a: Auth, b: Auth)
    requires LinksOk(a.sessions) && Grown(a, b)
    ensures LinksOk(b.sessions)
  {
  }

  lemma RevokingGrows(a: Auth, cfg: Config, user: nat, reached: set<nat>)
    requires TokensOk(a)
    ensures Grown(a, RevokeAll(a, cfg, user, reached)) && TokensOk(RevokeAll(a, cfg, user, reached))
  {
  }

  lemma IssuingGrows(a: Auth, cfg: Config, user: nat, rememberMe: bool, sessionTtl: nat)
    requires TokensOk(a) && user < |a.users|
    ensures var b := Issue(a, cfg, user, rememberMe, sessionTtl); Grown(a, b) && TokensOk(b)
  {
  }

  lemma OneRevokedGrows(a: Auth, cfg: Config, sid: nat, cacheUp: bool)
    requires TokensOk(a)
    ensures Grown(a, RevokeOne(a, cfg, sid, cacheUp)) && TokensOk(RevokeOne(a, cfg, sid, cacheUp))
  {
  }

  lemma OtherGrows(a: Auth, cfg: Config, event: Event)
    requires TokensOk(a) && !event.UseRefresh?
    ensures Grown(a, Next(a, cfg, event)) && TokensOk(Next(a, cfg, event))
  {
    match event
    case EndAll(user, reached) => RevokingGrows(a, cfg, user, reached);
    case Login(user, rememberMe, sessionTtl) =>
      if user < |a.users| {
        IssuingGrows(a, cfg, user, rememberMe, sessionTtl);
      }
    case Logout(sid, cacheUp) => OneRevokedGrows(a, cfg, sid, cacheUp);
    case _ =>
  }

  lemma WithAuthKeeps(s: System, b: Auth)
    requires SysInv(s) && Grown(s.a, b) && TokensOk(b)
    ensures SysInv(WithAuth(s, b))
  {
    LinksStay(s.a, b);
    JobsStay(s, WithAuth(s, b));
  }

  lemma AskKeeps(s: System, cfg: Config, token: nat, reached: set<nat>)
    requires SysInv(s)
    ensures SysInv(AskStep(s, cfg, token, reached))
  {
    var (after, result) := Refresh(s.a, cfg, token, 0, reached);
    if !result.Rotated? {
      if token < |s.a.sessions| {
        RevokingGrows(s.a, cfg, s.a.sessions[token].user, reached);
      }
      WithAuthKeeps(s, after);
    } else {
      AskedOk(s, AskStep(s, cfg, token, reached));
    }
  }

  lemma AskedOk(s: System, t: System)
    requires SysInv(s) && t == s.(jobs := t.jobs) && |t.jobs| == |s.jobs| + 1 && t.jobs[..|s.jobs|] == s.jobs
    requires t.jobs[|s.jobs|].Rotating? && JobOk(s, t.jobs[|s.jobs|])
    ensures SysInv(t)
  {
    forall j | 0 <= j < |t.jobs|
      ensures JobOk(t, t.jobs[j])
    {
      assert j < |s.jobs| ==> t.jobs[j] == s.jobs[j] && JobOk(s, s.jobs[j]);
    }
    assert forall j :: 0 <= j < |s.jobs| ==> t.jobs[j] == s.jobs[j];
  }

  lemma InsertKeeps(s: System, cfg: Config, j: nat, sessionTtl: nat)
    requires SysInv(s)
    ensures SysInv(InsertStep(s, cfg, j, sessionTtl))
  {
    if j < |s.jobs| && s.jobs[j].Rotating? {
      var t := InsertStep(s, cfg, j, sessionTtl);
      assert JobOk(s, s.jobs[j]);
      assert Grown(s.a, t.a);
      LinksStay(s.a, t.a);
      forall k | 0 <= k < |t.jobs|
        ensures JobOk(t, t.jobs[k])
      {
        assert JobOk(s, s.jobs[k]);
        if k == j {
          NotLinked(s.a.sessions);
        }
      }
      forall i, k | 0 <= i < k < |t.jobs| && t.jobs[i].Linking? && t.jobs[k].Linking?
        ensures t.jobs[i].sid != t.jobs[k].sid
      {
        assert JobOk(s, s.jobs[i]) && JobOk(s, s.jobs[k]);
      }
    }
  }

  lemma NotLinked(sessions: seq<Session>)
    requires LinksOk(sessions)
    ensures forall i :: 0 <= i < |sessions| ==> sessions[i].replacedBy != Some(|sessions|)
  {
  }

  lemma LinkStepKeeps(s: System, j: nat)
    requires SysInv(s)
    ensures SysInv(LinkStep(s, j))
  {
    if j < |s.jobs| && s.jobs[j].Linking? {
      var t := LinkStep(s, j);
      assert JobOk(s, s.jobs[j]);
      forall k | 0 <= k < |t.jobs|
        ensures JobOk(t, t.jobs[k])
      {
        assert JobOk(s, s.jobs[k]);
      }
    }
  }

  lemma ActionKeeps(s: System, cfg: Config, action: Action)
    requires SysInv(s)
    ensures SysInv(Happen(s, cfg, action))
  {
    match action
    case Other(event) =>
      if !event.UseRefresh? {
        OtherGrows(s.a, cfg, event);
        WithAuthKeeps(s, Next(s.a, cfg, event));
      }
    case Ask(token, reached) => AskKeeps(s, cfg, token, reached);
    case Insert(j, sessionTtl) => InsertKeeps(s, cfg, j, sessionTtl);
    case Link(j) => LinkStepKeeps(s, j);
    case Drop(j) =>
      if j < |s.jobs| {
        forall k | 0 <= k < |s.jobs| && k != j
          ensures JobOk(Happen(s, cfg, action), s.jobs[k])
        {
          assert JobOk(s, s.jobs[k]);
        }
      }
  }

  /** However refreshes overlap, links point forward within one user and choice, and never merge. */
  lemma {:induction false} EveryRunLinks(s: System, cfg: Config, actions: seq<Action>)
    requires SysInv(s)
    ensures SysInv(RunAll(s, cfg, actions))
  {
    if actions != [] {
      EveryRunLinks(s, cfg, actions[..|actions| - 1]);
      ActionKeeps(RunAll(s, cfg, actions[..|actions| - 1]), cfg, actions[|actions| - 1]);
    }
  }

  // ── One token, two rotations ───────────────────────────────────────────────

  /** No session has been rotated into two. */
  predicate OneChildEach(parents: seq<Option<nat>>) {
    forall i, j :: 0 <= i < j < |parents| && parents[i].Some? ==> parents[i] != parents[j]
  }

  /** The insert of a refresh whose token another one has rotated since it was read. */
  predicate Overtaken(s: System, action: Action) {
    && action.Insert? && action.job < |s.jobs| && s.jobs[action.job].Rotating?
    && exists i :: 0 <= i < |s.parents| && s.parents[i] == Some(s.jobs[action.job].token)
  }

  /** Exactly one thing gives a token two successors. */
  lemma SecondChildIff(s: System, cfg: Config, action: Action)
    requires SysInv(s) && OneChildEach(s.parents)
    ensures OneChildEach(Happen(s, cfg, action).parents) <==> !Overtaken(s, action)
  {
    var after := Happen(s, cfg, action).parents;
    if Overtaken(s, action) {
      var i :| 0 <= i < |s.parents| && s.parents[i] == Some(s.jobs[action.job].token);
      assert after[i] == after[|s.parents|];
    } else if action.Insert? && action.job < |s.jobs| && s.jobs[action.job].Rotating? {
      assert forall i :: 0 <= i < |s.parents| ==> after[i] == s.parents[i];
    } else {
      assert forall i :: 0 <= i < |s.parents| ==> after[i] == s.parents[i];
      assert forall i :: |s.parents| <= i < |after| ==> after[i].None?;
    }
  }

  /** Two refreshes that both read the token before either links leave two sessions that can each be refreshed. */
  lemma TwoRotations(s: System, cfg: Config, token: nat, ttl: nat)
    requires SysInv(s) && Refreshable(s.a, token) && ttl > 0 && cfg.refreshTtl > 0
    requires s.a.users[s.a.sessions[token].user].active && !s.a.users[s.a.sessions[token].user].deleted
    ensures var j, n := |s.jobs|, |s.a.sessions|;
            var asked := Happen(Happen(s, cfg, Ask(token, {})), cfg, Ask(token, {}));
            var inserted := Happen(Happen(asked, cfg, Insert(j, ttl)), cfg, Insert(j + 1, ttl));
            var linked := Happen(Happen(inserted, cfg, Link(j)), cfg, Link(j + 1));
            && Refreshable(linked.a, n) && Refreshable(linked.a, n + 1)
            && linked.parents == s.parents + [Some(token), Some(token)]
            && linked.a.sessions[token].replacedBy == Some(n + 1)
  {
    assert s.a.sessions[token].user < |s.a.users|;
    var j, n := |s.jobs|, |s.a.sessions|;
    var session := s.a.sessions[token];
    var job := Rotating(token, session.user, s.a.users[session.user].tokenVersion, session.rememberMe);
    var asked := Happen(Happen(s, cfg, Ask(token, {})), cfg, Ask(token, {}));
    assert asked == s.(jobs := s.jobs + [job] + [job]);
    BothRotate(asked, cfg, token, ttl, j);
  }

  lemma BothRotate(s: System, cfg: Config, token: nat, ttl: nat, j: nat)
    requires |s.parents| == |s.a.sessions| && token < |s.a.sessions|
    requires |s.jobs| == j + 2 && s.jobs[j] == s.jobs[j + 1] && s.jobs[j].Rotating? && s.jobs[j].token == token
    requires ttl > 0 && cfg.refreshTtl > 0
    ensures var n := |s.a.sessions|;
            var inserted := Happen(Happen(s, cfg, Insert(j, ttl)), cfg, Insert(j + 1, ttl));
            var linked := Happen(Happen(inserted, cfg, Link(j)), cfg, Link(j + 1));
            && Refreshable(linked.a, n) && Refreshable(linked.a, n + 1)
            && linked.parents == s.parents + [Some(token), Some(token)]
            && linked.a.sessions[token].replacedBy == Some(n + 1)
  {
  }

  // ── Revoking everything ────────────────────────────────────────────────────

  predicate RotationUnderWay(s: System, user: nat) {
    exists j :: 0 <= j < |s.jobs| && s.jobs[j].Rotating? && s.jobs[j].user == user
  }

  predicate AllSpent(a: Auth, user: nat) {
    forall i :: 0 <= i < |a.sessions| && a.sessions[i].user == user ==> a.sessions[i].revoked
  }

  predicate SignsIn(action: Action, user: nat) {
    action.Other? && action.event.Login? && action.event.user == user
  }

  lemma SpentStays(s: System, cfg: Config, action: Action, user: nat)
    requires AllSpent(s.a, user) && !RotationUnderWay(s, user) && !SignsIn(action, user)
    ensures AllSpent(Happen(s, cfg, action).a, user) && !RotationUnderWay(Happen(s, cfg, action), user)
  {
    match action
    case Other(event) =>
    case Ask(token, reached) => AskStaysSpent(s, cfg, token, reached, user);
    case Insert(j, sessionTtl) => assert j < |s.jobs| && s.jobs[j].Rotating? ==> s.jobs[j].user != user;
    case Link(j) =>
    case Drop(j) =>
  }

  lemma AskStaysSpent(s: System, cfg: Config, token: nat, reached: set<nat>, user: nat)
    requires AllSpent(s.a, user) && !RotationUnderWay(s, user)
    ensures AllSpent(AskStep(s, cfg, token, reached).a, user) && !RotationUnderWay(AskStep(s, cfg, token, reached), user)
  {
  }

  lemma {:induction false} SpentForEver(s: System, cfg: Config, actions: seq<Action>, user: nat)
    requires AllSpent(s.a, user) && !RotationUnderWay(s, user)
    requires forall action <- actions :: !SignsIn(action, user)
    ensures AllSpent(RunAll(s, cfg, actions).a, user) && !RotationUnderWay(RunAll(s, cfg, actions), user)
  {
    if actions != [] {
      SpentForEver(s, cfg, actions[..|actions| - 1], user);
      SpentStays(RunAll(s, cfg, actions[..|actions| - 1]), cfg, actions[|actions| - 1], user);
    }
  }

  /** The user has a session to refresh again, without having signed in. */
  predicate Returns(s: System, cfg: Config, user: nat, actions: seq<Action>, sid: nat) {
    && (forall action <- actions :: !SignsIn(action, user))
    && sid < |RunAll(s, cfg, actions).a.sessions|
    && RunAll(s, cfg, actions).a.sessions[sid].user == user
    && Refreshable(RunAll(s, cfg, actions).a, sid)
  }

  /**
   * A revoke-all, as on reuse or a changed password, leaves the user nothing to refresh,
   * now and in every later state until they sign in, exactly when no refresh of theirs was
   * under way: one that had read its session by then brings a session back.
   */
  lemma RevokeAllHoldsIff(s: System, cfg: Config, user: nat, reached: set<nat>)
    requires SysInv(s) && cfg.refreshTtl > 0
    ensures var ended := Happen(s, cfg, Other(EndAll(user, reached)));
            (exists actions, sid :: Returns(ended, cfg, user, actions, sid)) <==> RotationUnderWay(s, user)
  {
    var ended := Happen(s, cfg, Other(EndAll(user, reached)));
    assert ended == s.(a := RevokeAll(s.a, cfg, user, reached));
    assert AllSpent(ended.a, user);
    if RotationUnderWay(s, user) {
      var j :| 0 <= j < |s.jobs| && s.jobs[j].Rotating? && s.jobs[j].user == user;
      assert RunAll(ended, cfg, []) == ended;
      assert [Insert(j, 1)][..0] == [];
      assert RunAll(ended, cfg, [Insert(j, 1)]) == Happen(ended, cfg, Insert(j, 1));
      assert Returns(ended, cfg, user, [Insert(j, 1)], |ended.a.sessions|);
    } else {
      assert !RotationUnderWay(ended, user);
      forall actions: seq<Action>, sid: nat
        ensures !Returns(ended, cfg, user, actions, sid)
      {
        if forall action <- actions :: !SignsIn(action, user) {
          SpentForEver(ended, cfg, actions, user);
        }
      }
    }
  }
}
