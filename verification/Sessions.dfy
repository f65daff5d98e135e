/**
 * Sign-in sessions: refresh-token rotation, reuse detection, revocation, and what the
 * guard makes of an access token. Each operation is one step on this state; time is in
 * milliseconds and only moves forward.
 */
module Sessions {
  import opened Wrappers
  import opened Durations

  datatype Account = Account(active: bool, deleted: bool, tokenVersion: nat)

  /** A session is named by its position; its refresh token, an unguessable string, by the same number. */
  datatype Session = Session(user: nat, rememberMe: bool, expiresAt: nat, replacedBy: Option<nat>, revoked: bool)

  /** The signed claims; `expires` is in whole seconds, as the token carries it. */
  datatype AccessToken = AccessToken(sub: nat, sid: nat, version: nat, expires: nat)

  datatype Config = Config(accessTtl: WholeSeconds, refreshTtl: WholeSeconds)

  /** `tokens[i]` is the access token issued with session i; `denied` holds deny-list expiries. */
  datatype Auth = Auth(users: seq<Account>, sessions: seq<Session>, tokens: seq<AccessToken>,
                       denied: map<nat, nat>, clock: nat)

  datatype RefreshResult = Rotated(sid: nat) | Invalid | Reused | Expired | Inactive | CacheDown

  datatype Verdict = Accepted | TokenInvalid | SessionRevoked | UserNotFound | AccountDisabled | Stale

  function DenySeconds(cfg: Config): nat {
    cfg.accessTtl / 1000 + 60
  }

  // ── Operations ─────────────────────────────────────────────────────────────

  function Issue(a: Auth, cfg: Config, user: nat, rememberMe: bool, sessionTtl: nat): Auth
    requires user < |a.users|
  {
    var ttl := if rememberMe then cfg.refreshTtl else sessionTtl;
    a.(sessions := a.sessions + [Session(user, rememberMe, a.clock + ttl, None, false)],
       tokens := a.tokens + [AccessToken(user, |a.sessions|, a.users[user].tokenVersion,
                                         a.clock / 1000 + cfg.accessTtl / 1000)])
  }

  function RevokeOne(a: Auth, cfg: Config, sid: nat, cacheUp: bool): Auth {
    var b := if sid < |a.sessions| then a.(sessions := a.sessions[sid := a.sessions[sid].(revoked := true)]) else a;
    if cacheUp then b.(denied := b.denied[sid := a.clock + DenySeconds(cfg) * 1000]) else b
  }

  predicate Live(a: Auth, user: nat, sid: nat) {
    sid < |a.sessions| && a.sessions[sid].user == user && !a.sessions[sid].revoked
  }

  /** Every deny-list write for a live session of the user went through. */
  predicate AllReached(a: Auth, user: nat, reached: set<nat>) {
    forall sid :: 0 <= sid < |a.sessions| && Live(a, user, sid) ==> sid in reached
  }

  /** Every row of the user marked revoked. */
  function Spent(sessions: seq<Session>, user: nat): seq<Session> {
    seq(|sessions|, i requires 0 <= i < |sessions| =>
      if sessions[i].user == user then sessions[i].(revoked := true) else sessions[i])
  }

  /** The deny-list writes that go through. */
  function Denials(a: Auth, user: nat, reached: set<nat>, until: nat): map<nat, nat> {
    map sid | sid in reached && Live(a, user, sid) :: until
  }

  /**
   * The rows first, then the deny-list, then the token version. `reached` names the
   * sessions whose deny-list write succeeds; one failure leaves the version as it was.
   */
  function RevokeAll(a: Auth, cfg: Config, user: nat, reached: set<nat>): Auth {
    var until := a.clock + DenySeconds(cfg) * 1000;
    var denied := a.denied + Denials(a, user, reached, until);
    var users := if user < |a.users| && AllReached(a, user, reached)
                 then a.users[user := a.users[user].(tokenVersion := a.users[user].tokenVersion + 1)] else a.users;
    a.(sessions := Spent(a.sessions, user), denied := denied, users := users)
  }

  function Refresh(a: Auth, cfg: Config, token: nat, sessionTtl: nat, reached: set<nat>): (Auth, RefreshResult) {
    if token >= |a.sessions| then (a, Invalid)
    else
      var session := a.sessions[token];
      if session.replacedBy.Some? || session.revoked then
        (RevokeAll(a, cfg, session.user, reached),
         if AllReached(a, session.user, reached) then Reused else CacheDown)
      else if session.expiresAt <= a.clock then (a, Expired)
      else if session.user >= |a.users| || a.users[session.user].deleted || !a.users[session.user].active
      then (a, Inactive)
      else
        var b := Issue(a, cfg, session.user, session.rememberMe, sessionTtl);
        (b.(sessions := b.sessions[token := session.(replacedBy := Some(|a.sessions|))]), Rotated(|a.sessions|))
  }

  /** What the guard says of the access token of session `sid`; an unknown token has no valid signature. */
  function Verify(a: Auth, sid: nat, cacheUp: bool): Verdict {
    if sid >= |a.tokens| || a.clock / 1000 >= a.tokens[sid].expires then TokenInvalid
    else if !cacheUp || (a.tokens[sid].sid in a.denied && a.clock < a.denied[a.tokens[sid].sid]) then SessionRevoked
    else
      var token := a.tokens[sid];
      if token.sub >= |a.users| || a.users[token.sub].deleted then UserNotFound
      else if !a.users[token.sub].active then AccountDisabled
      else if a.users[token.sub].tokenVersion != token.version then Stale
      else Accepted
  }

  // ── Runs ───────────────────────────────────────────────────────────────────

  /** Time passes only in `Wait`, so every order and every spacing of the other events is a run. */
  datatype Event =
    | Wait(milliseconds: nat)
    | NewAccount
    | SetAccount(user: nat, active: bool, deleted: bool)
    | Login(user: nat, rememberMe: bool, sessionTtl: nat)
    | UseRefresh(token: nat, sessionTtl: nat, reached: set<nat>)
    | Logout(sid: nat, cacheUp: bool)
    | EndAll(user: nat, reached: set<nat>)

  function Next(a: Auth, cfg: Config, event: Event): Auth {
    match event
    case Wait(milliseconds) => a.(clock := a.clock + milliseconds)
    case NewAccount => a.(users := a.users + [Account(true, false, 0)])
    case SetAccount(user, active, deleted) =>
      if user < |a.users|
      then a.(users := a.users[user := a.users[user].(active := active, deleted := deleted)]) else a
    case Login(user, rememberMe, sessionTtl) =>
      if user < |a.users| && a.users[user].active && !a.users[user].deleted
      then Issue(a, cfg, user, rememberMe, sessionTtl) else a
    case UseRefresh(token, sessionTtl, reached) => Refresh(a, cfg, token, sessionTtl, reached).0
    case Logout(sid, cacheUp) => RevokeOne(a, cfg, sid, cacheUp)
    case EndAll(user, reached) => RevokeAll(a, cfg, user, reached)
  }

  function Run(a: Auth, cfg: Config, steps: seq<Event>): Auth {
    if steps == [] then a else Next(Run(a, cfg, steps[..|steps| - 1]), cfg, steps[|steps| - 1])
  }

  const START := Auth([], [], [], map[], 0)

  // ── What every step keeps ──────────────────────────────────────────────────

  predicate LinksOk(sessions: seq<Session>) {
    && (forall i :: 0 <= i < |sessions| && sessions[i].replacedBy.Some? ==>
          var j := sessions[i].replacedBy.value;
          && i < j < |sessions|
          && sessions[j].user == sessions[i].user
          && sessions[j].rememberMe == sessions[i].rememberMe)
    && (forall i, j :: 0 <= i < j < |sessions| && sessions[i].replacedBy.Some? ==>
          sessions[i].replacedBy != sessions[j].replacedBy)
  }

  predicate TokensOk(a: Auth) {
    && |a.tokens| == |a.sessions|
    && (forall i :: 0 <= i < |a.tokens| ==>
          && a.tokens[i].sid == i
          && a.tokens[i].sub == a.sessions[i].user < |a.users|
          && a.tokens[i].version <= a.users[a.tokens[i].sub].tokenVersion)
  }

  /** No access token outlives a deny-list entry made now, and no entry lasts longer than one made now. */
  predicate TimesOk(a: Auth, cfg: Config) {
    && (forall i :: 0 <= i < |a.tokens| ==> a.tokens[i].expires <= a.clock / 1000 + cfg.accessTtl / 1000)
    && (forall sid :: sid in a.denied ==> a.denied[sid] <= a.clock + DenySeconds(cfg) * 1000)
  }

  predicate Inv(a: Auth, cfg: Config) {
    LinksOk(a.sessions) && TokensOk(a) && TimesOk(a, cfg)
  }

  /** What can have become of one session: who it belongs to is fixed, being spent is final. */
  predicate Ages(s: Session, t: Session) {
    && t.user == s.user && t.rememberMe == s.rememberMe && t.expiresAt == s.expiresAt
    && (s.revoked ==> t.revoked)
    && (s.replacedBy.Some? ==> t.replacedBy == s.replacedBy)
    && (s.revoked ==> t.replacedBy == s.replacedBy)
  }

  predicate Later(a: Auth, b: Auth) {
    && a.clock <= b.clock
    && |a.users| <= |b.users|
    && (forall u :: 0 <= u < |a.users| ==> a.users[u].tokenVersion <= b.users[u].tokenVersion)
    && |a.sessions| <= |b.sessions|
    && (forall i :: 0 <= i < |a.sessions| ==> Ages(a.sessions[i], b.sessions[i]))
    && a.tokens <= b.tokens
    && (forall sid :: sid in a.denied ==> sid in b.denied && a.denied[sid] <= b.denied[sid])
  }

  lemma WaitKeeps(a: Auth, cfg: Config, wait: nat)
    requires Inv(a, cfg)
    ensures Inv(a.(clock := a.clock + wait), cfg) && Later(a, a.(clock := a.clock + wait))
  {
  }

  lemma IssueKeeps(a: Auth, cfg: Config, user: nat, rememberMe: bool, sessionTtl: nat)
    requires Inv(a, cfg) && user < |a.users|
    ensures Inv(Issue(a, cfg, user, rememberMe, sessionTtl), cfg)
    ensures Later(a, Issue(a, cfg, user, rememberMe, sessionTtl))
  {
  }

  lemma RevokeOneInv(a: Auth, cfg: Config, sid: nat, cacheUp: bool)
    requires Inv(a, cfg)
    ensures Inv(RevokeOne(a, cfg, sid, cacheUp), cfg)
  {
  }

  lemma RevokeOneKeeps(a: Auth, cfg: Config, sid: nat, cacheUp: bool)
    requires Inv(a, cfg)
    ensures Inv(RevokeOne(a, cfg, sid, cacheUp), cfg) && Later(a, RevokeOne(a, cfg, sid, cacheUp))
  {
    RevokeOneInv(a, cfg, sid, cacheUp);
  }

  lemma RevokeAllInv(a: Auth, cfg: Config, user: nat, reached: set<nat>)
    requires Inv(a, cfg)
    ensures Inv(RevokeAll(a, cfg, user, reached), cfg)
  {
  }

  lemma RevokeAllKeeps(a: Auth, cfg: Config, user: nat, reached: set<nat>)
    requires Inv(a, cfg)
    ensures Inv(RevokeAll(a, cfg, user, reached), cfg) && Later(a, RevokeAll(a, cfg, user, reached))
  {
    RevokeAllInv(a, cfg, user, reached);
  }

  lemma RotationKeeps(a: Auth, cfg: Config, token: nat, sessionTtl: nat, reached: set<nat>)
    requires Inv(a, cfg) && Refresh(a, cfg, token, sessionTtl, reached).1.Rotated?
    ensures Inv(Refresh(a, cfg, token, sessionTtl, reached).0, cfg)
    ensures Later(a, Refresh(a, cfg, token, sessionTtl, reached).0)
  {
    var session := a.sessions[token];
    IssueKeeps(a, cfg, session.user, session.rememberMe, sessionTtl);
    LinkKeeps(a.sessions, Refresh(a, cfg, token, sessionTtl, reached).0.sessions, token);
  }

  lemma RefusalKeeps(a: Auth, cfg: Config, token: nat, sessionTtl: nat, reached: set<nat>)
    requires Inv(a, cfg) && !Refresh(a, cfg, token, sessionTtl, reached).1.Rotated?
    ensures Inv(Refresh(a, cfg, token, sessionTtl, reached).0, cfg)
    ensures Later(a, Refresh(a, cfg, token, sessionTtl, reached).0)
  {
    if token < |a.sessions| && (a.sessions[token].replacedBy.Some? || a.sessions[token].revoked) {
      RevokeAllKeeps(a, cfg, a.sessions[token].user, reached);
    }
  }

  lemma RefreshKeeps(a: Auth, cfg: Config, token: nat, sessionTtl: nat, reached: set<nat>)
    requires Inv(a, cfg)
    ensures Inv(Refresh(a, cfg, token, sessionTtl, reached).0, cfg)
    ensures Later(a, Refresh(a, cfg, token, sessionTtl, reached).0)
  {
    if Refresh(a, cfg, token, sessionTtl, reached).1.Rotated? {
      RotationKeeps(a, cfg, token, sessionTtl, reached);
    } else {
      RefusalKeeps(a, cfg, token, sessionTtl, reached);
    }
  }

  /** Closing the old link with the new session keeps the links a set of disjoint chains. */
  lemma LinkKeeps(before: seq<Session>, after: seq<Session>, token: nat)
    requires LinksOk(before) && token < |before| && |after| == |before| + 1
    requires after[token] == before[token].(replacedBy := Some(|before|))
    requires forall i :: 0 <= i < |before| && i != token ==> after[i] == before[i]
    requires after[|before|].user == before[token].user && after[|before|].rememberMe == before[token].rememberMe
    requires after[|before|].replacedBy.None?
    ensures LinksOk(after)
  {
  }

  lemma AccountsInv(a: Auth, cfg: Config, event: Event)
    requires Inv(a, cfg) && (event.NewAccount? || event.SetAccount?)
    ensures Inv(Next(a, cfg, event), cfg)
  {
  }

  lemma AccountsKeep(a: Auth, cfg: Config, event: Event)
    requires Inv(a, cfg) && (event.NewAccount? || event.SetAccount?)
    ensures Inv(Next(a, cfg, event), cfg) && Later(a, Next(a, cfg, event))
  {
    AccountsInv(a, cfg, event);
  }

  lemma {:induction false} NextKeeps(a: Auth, cfg: Config, event: Event)
    requires Inv(a, cfg)
    ensures Inv(Next(a, cfg, event), cfg) && Later(a, Next(a, cfg, event))
  {
    match event
    case Wait(milliseconds) => WaitKeeps(a, cfg, milliseconds);
    case Login(user, rememberMe, sessionTtl) =>
      if user < |a.users| {
        IssueKeeps(a, cfg, user, rememberMe, sessionTtl);
      }
    case UseRefresh(token, sessionTtl, reached) => RefreshKeeps(a, cfg, token, sessionTtl, reached);
    case Logout(sid, cacheUp) => RevokeOneKeeps(a, cfg, sid, cacheUp);
    case EndAll(user, reached) => RevokeAllKeeps(a, cfg, user, reached);
    case _ => AccountsKeep(a, cfg, event);
  }

  lemma LaterTransitive(a: Auth, b: Auth, c: Auth)
    requires Later(a, b) && Later(b, c)
    ensures Later(a, c)
  {
  }

  lemma {:induction false} EveryRunKeeps(a: Auth, cfg: Config, steps: seq<Event>)
    requires Inv(a, cfg)
    ensures Inv(Run(a, cfg, steps), cfg) && Later(a, Run(a, cfg, steps))
  {
    if steps != [] {
      var before := Run(a, cfg, steps[..|steps| - 1]);
      EveryRunKeeps(a, cfg, steps[..|steps| - 1]);
      NextKeeps(before, cfg, steps[|steps| - 1]);
      LaterTransitive(a, before, Run(a, cfg, steps));
    }
  }

  // ── How long a session and a token last ────────────────────────────────────

  /** A sign-in opens a session exactly for an active account that is not deleted. */
  lemma SignsInIff(a: Auth, cfg: Config, user: nat, rememberMe: bool, sessionTtl: nat)
    ensures var b := Next(a, cfg, Login(user, rememberMe, sessionTtl));
            |b.sessions| == |a.sessions| +
              if user < |a.users| && a.users[user].active && !a.users[user].deleted then 1 else 0
  {
  }

  /** The milliseconds a session can be refreshed for. */
  predicate Lifetime(cfg: Config, rememberMe: bool, sessionTtl: nat, ttl: nat) {
    (rememberMe ==> ttl == cfg.refreshTtl) && (!rememberMe ==> ttl == sessionTtl)
  }

  lemma IssuedLasts(a: Auth, cfg: Config, user: nat, rememberMe: bool, sessionTtl: nat, ttl: nat)
    requires user < |a.users| && Lifetime(cfg, rememberMe, sessionTtl, ttl) && |a.tokens| == |a.sessions|
    ensures var b, sid := Issue(a, cfg, user, rememberMe, sessionTtl), |a.sessions|;
            && |b.sessions| == |b.tokens| == sid + 1 && b.clock == a.clock && b.users == a.users
            && b.sessions[sid] == Session(user, rememberMe, a.clock + ttl, None, false)
            && b.tokens[sid] == AccessToken(user, sid, a.users[user].tokenVersion, a.clock / 1000 + cfg.accessTtl / 1000)
  {
  }

  /**
   * In every later state in which it has been neither replaced nor revoked, a session
   * begun now can be refreshed exactly while less than its lifetime has passed; and its
   * access token, with the cache up, no deny-list entry, and account and version as they
   * were, is accepted exactly while the clock's second is before the second of issue plus
   * the token's lifetime.
   */
  lemma {:induction false} IssuedLastsFor(a: Auth, b: Auth, cfg: Config, sid: nat, ttl: nat, steps: seq<Event>)
    requires Inv(b, cfg) && sid < |b.sessions| && b.sessions[sid].expiresAt == a.clock + ttl
    requires b.tokens[sid].expires == a.clock / 1000 + cfg.accessTtl / 1000
    requires b.tokens[sid].version == b.users[b.sessions[sid].user].tokenVersion
    ensures var end := Run(b, cfg, steps);
            && sid < |end.sessions| && sid < |end.tokens| && b.sessions[sid].user < |end.users|
            && (end.sessions[sid].replacedBy.None? && !end.sessions[sid].revoked ==>
                  (Refreshable(end, sid) <==> end.clock < a.clock + ttl))
            && var account := end.users[b.sessions[sid].user];
               (account.active && !account.deleted && sid !in end.denied
                && account.tokenVersion == b.users[b.sessions[sid].user].tokenVersion ==>
                  (Verify(end, sid, true) == Accepted <==> end.clock / 1000 < a.clock / 1000 + cfg.accessTtl / 1000))
  {
    EveryRunKeeps(b, cfg, steps);
    var end := Run(b, cfg, steps);
    assert Ages(b.sessions[sid], end.sessions[sid]);
    assert end.tokens[sid] == b.tokens[sid];
    AcceptedIff(end, cfg, sid);
  }

  /** So after a sign-in: the long lifetime if the user is to be remembered, and the default one if not. */
  lemma {:induction false} SignInLasts(a: Auth, cfg: Config, user: nat, rememberMe: bool, sessionTtl: nat, ttl: nat,
                                       steps: seq<Event>)
    requires Inv(a, cfg) && Lifetime(cfg, rememberMe, sessionTtl, ttl)
    requires user < |a.users| && a.users[user].active && !a.users[user].deleted
    ensures var sid, end := |a.sessions|, Run(Next(a, cfg, Login(user, rememberMe, sessionTtl)), cfg, steps);
            && sid < |end.sessions| && sid < |end.tokens| && user < |end.users|
            && end.sessions[sid].user == user
            && (end.sessions[sid].replacedBy.None? && !end.sessions[sid].revoked ==>
                  (Refreshable(end, sid) <==> end.clock < a.clock + ttl))
            && var account := end.users[user];
               (account.active && !account.deleted && sid !in end.denied && account.tokenVersion == a.users[user].tokenVersion ==>
                  (Verify(end, sid, true) == Accepted <==> end.clock / 1000 < a.clock / 1000 + cfg.accessTtl / 1000))
  {
    var b := Next(a, cfg, Login(user, rememberMe, sessionTtl));
    IssuedLasts(a, cfg, user, rememberMe, sessionTtl, ttl);
    NextKeeps(a, cfg, Login(user, rememberMe, sessionTtl));
    EveryRunKeeps(b, cfg, steps);
    assert Ages(b.sessions[|a.sessions|], Run(b, cfg, steps).sessions[|a.sessions|]);
    IssuedLastsFor(a, b, cfg, |a.sessions|, ttl, steps);
  }

  /** And after a rotation: the new session lasts as long from then, by the choice made at the sign-in. */
  lemma {:induction false} RotationLasts(a: Auth, cfg: Config, token: nat, sessionTtl: nat, reached: set<nat>, ttl: nat,
                                         steps: seq<Event>)
    requires Inv(a, cfg) && Refresh(a, cfg, token, sessionTtl, reached).1.Rotated?
    requires Lifetime(cfg, a.sessions[token].rememberMe, sessionTtl, ttl)
    ensures var sid, user := |a.sessions|, a.sessions[token].user;
            var end := Run(Refresh(a, cfg, token, sessionTtl, reached).0, cfg, steps);
            && sid < |end.sessions| && sid < |end.tokens| && user < |end.users| && user < |a.users|
            && end.sessions[sid].user == user
            && (end.sessions[sid].replacedBy.None? && !end.sessions[sid].revoked ==>
                  (Refreshable(end, sid) <==> end.clock < a.clock + ttl))
            && var account := end.users[user];
               (account.active && !account.deleted && sid !in end.denied && account.tokenVersion == a.users[user].tokenVersion ==>
                  (Verify(end, sid, true) == Accepted <==> end.clock / 1000 < a.clock / 1000 + cfg.accessTtl / 1000))
  {
    var b, session := Refresh(a, cfg, token, sessionTtl, reached).0, a.sessions[token];
    IssuedLasts(a, cfg, session.user, session.rememberMe, sessionTtl, ttl);
    RefreshKeeps(a, cfg, token, sessionTtl, reached);
    EveryRunKeeps(b, cfg, steps);
    assert Ages(b.sessions[|a.sessions|], Run(b, cfg, steps).sessions[|a.sessions|]);
    IssuedLastsFor(a, b, cfg, |a.sessions|, ttl, steps);
  }

  /** A token is rotated exactly while its session can be refreshed and its account is there; what it is told otherwise. */
  lemma RefreshAnswers(a: Auth, cfg: Config, token: nat, sessionTtl: nat, reached: set<nat>)
    requires Inv(a, cfg)
    ensures var result := Refresh(a, cfg, token, sessionTtl, reached).1;
            && (result == Invalid <==> token >= |a.sessions|)
            && (token < |a.sessions| ==>
                  && var session := a.sessions[token];
                     var account := a.users[session.user];
                     var spent := session.replacedBy.Some? || session.revoked;
                     && (result in {Reused, CacheDown} <==> spent)
                     && (spent ==> (result == Reused <==> forall sid :: Live(a, session.user, sid) ==> sid in reached))
                     && (result == Expired <==> !spent && session.expiresAt <= a.clock)
                     && (result == Inactive <==> Refreshable(a, token) && (account.deleted || !account.active))
                     && (result == Rotated(|a.sessions|) <==> Refreshable(a, token) && account.active && !account.deleted))
  {
  }

  /** A signed-out session stays on the deny-list for the token's lifetime and a minute more. */
  lemma DeniedFor(a: Auth, cfg: Config, sid: nat)
    ensures sid in RevokeOne(a, cfg, sid, true).denied
    ensures RevokeOne(a, cfg, sid, true).denied[sid] == a.clock + cfg.accessTtl + 60_000
    ensures RevokeOne(a, cfg, sid, false).denied == a.denied
  {
  }

  /** And so does every session a revoke-all ends and reaches. */
  lemma AllDeniedFor(a: Auth, cfg: Config, user: nat, reached: set<nat>, sid: nat)
    requires sid < |a.sessions| && a.sessions[sid].user == user && !a.sessions[sid].revoked && sid in reached
    ensures sid in RevokeAll(a, cfg, user, reached).denied
    ensures RevokeAll(a, cfg, user, reached).denied[sid] == a.clock + cfg.accessTtl + 60_000
  {
  }

  // ── Refresh chains ─────────────────────────────────────────────────────────

  predicate Refreshable(a: Auth, sid: nat) {
    && sid < |a.sessions|
    && a.sessions[sid].replacedBy.None? && !a.sessions[sid].revoked && a.clock < a.sessions[sid].expiresAt
  }

  /** Following the replacement links from `i` gets to `j`. */
  predicate LeadsTo(sessions: seq<Session>, i: nat, j: nat)
    requires LinksOk(sessions) && i < |sessions|
    decreases |sessions| - i
  {
    i == j || (sessions[i].replacedBy.Some? && LeadsTo(sessions, sessions[i].replacedBy.value, j))
  }

  /** The end of the chain a session belongs to. */
  function Tail(sessions: seq<Session>, i: nat): (tail: nat)
    requires LinksOk(sessions) && i < |sessions|
    ensures i <= tail < |sessions|
    ensures sessions[tail].replacedBy.None?
    ensures LeadsTo(sessions, i, tail)
    ensures sessions[tail].user == sessions[i].user && sessions[tail].rememberMe == sessions[i].rememberMe
    decreases |sessions| - i
  {
    if sessions[i].replacedBy.None? then i else Tail(sessions, sessions[i].replacedBy.value)
  }

  /** Only one session links to `j`, so whatever leads to it from elsewhere passes through that one. */
  lemma {:induction false} BackOne(sessions: seq<Session>, i: nat, p: nat, j: nat)
    requires LinksOk(sessions) && i < |sessions| && p < |sessions| && sessions[p].replacedBy == Some(j)
    requires LeadsTo(sessions, i, j) && i != j
    ensures LeadsTo(sessions, i, p)
    decreases |sessions| - i
  {
    if sessions[i].replacedBy == Some(j) {
      assert i == p;
    } else {
      BackOne(sessions, sessions[i].replacedBy.value, p, j);
    }
  }

  /** Chains do not branch or merge: of two sessions with the same tail, one leads to the other. */
  lemma {:induction false} ChainsArePaths(sessions: seq<Session>, i: nat, j: nat)
    requires LinksOk(sessions) && i < |sessions| && j < |sessions|
    requires Tail(sessions, i) == Tail(sessions, j)
    ensures LeadsTo(sessions, i, j) || LeadsTo(sessions, j, i)
    decreases |sessions| - i + |sessions| - j
  {
    if sessions[i].replacedBy.Some? && sessions[j].replacedBy.Some? && i != j {
      var i', j' := sessions[i].replacedBy.value, sessions[j].replacedBy.value;
      ChainsArePaths(sessions, i', j');
      if LeadsTo(sessions, i', j') && i' != j' {
        BackOne(sessions, i', j, j');
      } else if LeadsTo(sessions, j', i') && i' != j' {
        BackOne(sessions, j', i, i');
      }
    }
  }

  lemma {:induction false} LeadsToSameTail(sessions: seq<Session>, i: nat, j: nat)
    requires LinksOk(sessions) && i < |sessions| && LeadsTo(sessions, i, j)
    ensures i <= j < |sessions| && Tail(sessions, i) == Tail(sessions, j)
    decreases |sessions| - i
  {
    if i != j {
      LeadsToSameTail(sessions, sessions[i].replacedBy.value, j);
    }
  }

  /** Two sessions are of one chain exactly when one was rotated, in some number of steps, into the other. */
  lemma SameChainIff(sessions: seq<Session>, i: nat, j: nat)
    requires LinksOk(sessions) && i < |sessions| && j < |sessions|
    ensures Tail(sessions, i) == Tail(sessions, j) <==> LeadsTo(sessions, i, j) || LeadsTo(sessions, j, i)
  {
    if LeadsTo(sessions, i, j) {
      LeadsToSameTail(sessions, i, j);
    } else if LeadsTo(sessions, j, i) {
      LeadsToSameTail(sessions, j, i);
    } else if Tail(sessions, i) == Tail(sessions, j) {
      ChainsArePaths(sessions, i, j);
    }
  }

  /** In every run, a chain has at most one session that can still be refreshed: its tail. */
  lemma OneRefreshablePerChain(cfg: Config, steps: seq<Event>, i: nat, j: nat)
    requires var a := Run(START, cfg, steps);
             Refreshable(a, i) && Refreshable(a, j)
    ensures Inv(Run(START, cfg, steps), cfg)
    ensures var a := Run(START, cfg, steps);
            Tail(a.sessions, i) == Tail(a.sessions, j) ==> i == j
  {
    EveryRunKeeps(START, cfg, steps);
  }

  // ── Reuse ──────────────────────────────────────────────────────────────────

  /** Presenting a replaced or revoked token ends every session the user has, whether or not the cache is up. */
  lemma ReuseEndsEverySession(a: Auth, cfg: Config, token: nat, sessionTtl: nat, reached: set<nat>)
    requires token < |a.sessions| && (a.sessions[token].replacedBy.Some? || a.sessions[token].revoked)
    ensures var (b, result) := Refresh(a, cfg, token, sessionTtl, reached);
            && result in {Reused, CacheDown}
            && |b.sessions| == |a.sessions|
            && (forall i :: 0 <= i < |b.sessions| && b.sessions[i].user == a.sessions[token].user ==>
              b.sessions[i].revoked)
            && (forall i :: 0 <= i < |b.sessions| && b.sessions[i].user != a.sessions[token].user ==>
                  b.sessions[i] == a.sessions[i])
  {
  }

  /**
   * And they stay ended: in every later state none of those sessions can be refreshed, and
   * no chain that began before the reuse has grown.
   */
  lemma {:induction false} ReuseIsFinal(a: Auth, cfg: Config, token: nat, sessionTtl: nat, reached: set<nat>,
                                        steps: seq<Event>, sid: nat)
    requires Inv(a, cfg) && sid < |a.sessions|
    requires token < |a.sessions| && (a.sessions[token].replacedBy.Some? || a.sessions[token].revoked)
    requires a.sessions[sid].user == a.sessions[token].user
    ensures var end := Run(Refresh(a, cfg, token, sessionTtl, reached).0, cfg, steps);
            && !Refreshable(end, sid)
            && sid < |end.sessions|
            && end.sessions[sid].replacedBy == a.sessions[sid].replacedBy
  {
    ReuseEndsEverySession(a, cfg, token, sessionTtl, reached);
    RefreshKeeps(a, cfg, token, sessionTtl, reached);
    var b := Refresh(a, cfg, token, sessionTtl, reached).0;
    EveryRunKeeps(b, cfg, steps);
    assert b.sessions[sid].revoked;
    assert Ages(b.sessions[sid], Run(b, cfg, steps).sessions[sid]);
    assert b.sessions[sid].replacedBy == a.sessions[sid].replacedBy;
  }

  /** A refresh token works once: after it has rotated, presenting it again at any later time is a reuse. */
  lemma {:induction false} RefreshWorksOnce(a: Auth, cfg: Config, token: nat, ttl: nat, reached: set<nat>,
                         steps: seq<Event>, ttl': nat, reached': set<nat>)
    requires Inv(a, cfg) && Refresh(a, cfg, token, ttl, reached).1.Rotated?
    ensures var b, next := Refresh(a, cfg, token, ttl, reached).0, Refresh(a, cfg, token, ttl, reached).1.sid;
            && next == |a.sessions| < |b.sessions|
            && b.sessions[next].user == a.sessions[token].user
            && b.sessions[next].rememberMe == a.sessions[token].rememberMe
            && b.tokens[next].version == b.users[a.sessions[token].user].tokenVersion
            && Refresh(Run(b, cfg, steps), cfg, token, ttl', reached').1 in {Reused, CacheDown}
  {
    RefreshKeeps(a, cfg, token, ttl, reached);
    var b := Refresh(a, cfg, token, ttl, reached).0;
    EveryRunKeeps(b, cfg, steps);
    assert Ages(b.sessions[token], Run(b, cfg, steps).sessions[token]);
  }

  // ── Revoked means dead ─────────────────────────────────────────────────────

  /** After a completed revoke-all, no access token issued to the user before it is ever accepted again. */
  lemma {:induction false} RevokeAllIsForever(a: Auth, cfg: Config, user: nat, reached: set<nat>, steps: seq<Event>,
          sid: nat, cacheUp: bool)
    requires Inv(a, cfg) && AllReached(a, user, reached)
    requires sid < |a.sessions| && a.sessions[sid].user == user
    ensures Verify(Run(RevokeAll(a, cfg, user, reached), cfg, steps), sid, cacheUp) != Accepted
  {
    RevokeAllKeeps(a, cfg, user, reached);
    var b := RevokeAll(a, cfg, user, reached);
    EveryRunKeeps(b, cfg, steps);
    var end := Run(b, cfg, steps);
    assert end.tokens[sid] == a.tokens[sid];
    assert a.tokens[sid].version < b.users[user].tokenVersion <= end.users[user].tokenVersion;
  }

  /**
   * When a deny-list write fails, the version is not bumped: what the guard accepts right
   * after is exactly what it accepted right before, less the sessions whose write went through.
   */
  lemma FailedRevokeAll(a: Auth, cfg: Config, user: nat, reached: set<nat>, sid: nat)
    requires Inv(a, cfg) && !AllReached(a, user, reached)
    ensures Verify(RevokeAll(a, cfg, user, reached), sid, true) == Accepted <==>
              Verify(a, sid, true) == Accepted && !(Live(a, user, sid) && sid in reached)
  {
  }

  /** The deny-list entry outlasts the token: a signed-out session's token is never accepted again. */
  lemma SignedOutIsForever(a: Auth, cfg: Config, sid: nat, steps: seq<Event>, cacheUp: bool)
    requires Inv(a, cfg) && sid < |a.sessions|
    ensures Verify(Run(RevokeOne(a, cfg, sid, true), cfg, steps), sid, cacheUp) != Accepted
  {
    RevokeOneKeeps(a, cfg, sid, true);
    var b := RevokeOne(a, cfg, sid, true);
    EveryRunKeeps(b, cfg, steps);
    var end := Run(b, cfg, steps);
    assert end.tokens[sid] == a.tokens[sid];
    assert end.denied[sid] >= a.clock + DenySeconds(cfg) * 1000;
    OutlastsToken(cfg, a.clock, a.tokens[sid].expires, end.clock);
  }

  /** Nor is it ever refreshed again, whether or not the cache was up. */
  lemma SignedOutNotRefreshable(a: Auth, cfg: Config, sid: nat, cacheUp: bool, steps: seq<Event>)
    requires Inv(a, cfg) && sid < |a.sessions|
    ensures !Refreshable(Run(RevokeOne(a, cfg, sid, cacheUp), cfg, steps), sid)
    ensures forall i :: 0 <= i < |a.sessions| && i != sid ==> RevokeOne(a, cfg, sid, cacheUp).sessions[i] == a.sessions[i]
  {
    RevokeOneKeeps(a, cfg, sid, cacheUp);
    var b := RevokeOne(a, cfg, sid, cacheUp);
    EveryRunKeeps(b, cfg, steps);
    assert Ages(b.sessions[sid], Run(b, cfg, steps).sessions[sid]);
  }

  /** A revoke-all counts the account's version up by one if every write went through, and leaves it otherwise. */
  lemma VersionCounted(a: Auth, cfg: Config, user: nat, reached: set<nat>)
    requires user < |a.users|
    ensures var b := RevokeAll(a, cfg, user, reached);
            && |b.users| == |a.users|
            && b.users[user] == a.users[user].(tokenVersion := a.users[user].tokenVersion +
                 if forall sid :: Live(a, user, sid) ==> sid in reached then 1 else 0)
            && forall u :: 0 <= u < |a.users| && u != user ==> b.users[u] == a.users[u]
  {
  }

  /** What happens around the sessions: time passes, an account is opened, an administrator changes one. */
  lemma Surroundings(a: Auth, cfg: Config, milliseconds: nat, user: nat, active: bool, deleted: bool)
    ensures Next(a, cfg, Wait(milliseconds)) == a.(clock := a.clock + milliseconds)
    ensures Next(a, cfg, NewAccount) == a.(users := a.users + [Account(true, false, 0)])
    ensures user < |a.users| ==>
              Next(a, cfg, SetAccount(user, active, deleted)) ==
                a.(users := a.users[user := Account(active, deleted, a.users[user].tokenVersion)])
  {
  }

  lemma OutlastsToken(cfg: Config, revokedAt: nat, expires: nat, now: nat)
    requires expires <= revokedAt / 1000 + cfg.accessTtl / 1000
    ensures now >= revokedAt + DenySeconds(cfg) * 1000 ==> now / 1000 >= expires
  {
  }

  /** Exactly which tokens the guard lets through. */
  lemma AcceptedIff(a: Auth, cfg: Config, sid: nat)
    requires Inv(a, cfg)
    ensures Verify(a, sid, true) == Accepted <==>
              && sid < |a.sessions|
              && a.clock / 1000 < a.tokens[sid].expires
              && (sid in a.denied ==> a.denied[sid] <= a.clock)
              && a.users[a.sessions[sid].user].active && !a.users[a.sessions[sid].user].deleted
              && a.users[a.sessions[sid].user].tokenVersion == a.tokens[sid].version
  {
  }

  /** What the guard says of every other token, in the order in which it looks. */
  lemma RefusedFor(a: Auth, cfg: Config, sid: nat, cacheUp: bool)
    requires Inv(a, cfg)
    ensures var verdict := Verify(a, sid, cacheUp);
            && (verdict == TokenInvalid <==> sid >= |a.sessions| || a.clock / 1000 >= a.tokens[sid].expires)
            && (verdict != TokenInvalid ==>
                  && (verdict == SessionRevoked <==> !cacheUp || (sid in a.denied && a.clock < a.denied[sid]))
                  && (verdict != SessionRevoked ==>
                        var account := a.users[a.sessions[sid].user];
                        && (verdict == UserNotFound <==> account.deleted)
                        && (verdict == AccountDisabled <==> !account.deleted && !account.active)
                        && (verdict == Stale <==> !account.deleted && account.active
                                                  && account.tokenVersion != a.tokens[sid].version)))
  {
  }

  // ── The code ───────────────────────────────────────────────────────────────

  class AuthService {
    const cfg: Config
    var users: seq<Account>
    var sessions: seq<Session>
    var tokens: seq<AccessToken>
    var denied: map<nat, nat>
    var clock: nat

    constructor (cfg: Config)
      ensures this.cfg == cfg && View() == START
    {
      this.cfg := cfg;
      users, sessions, tokens, denied, clock := [], [], [], map[], 0;
    }

    function View(): Auth
      reads this
    {
      Auth(users, sessions, tokens, denied, clock)
    }

    method IssueTokens(user: nat, rememberMe: bool, sessionTtl: nat) returns (sid: nat)
      requires user < |users|
      modifies `sessions, `tokens
      ensures View() == Issue(old(View()), cfg, user, rememberMe, sessionTtl)
      ensures sid == |old(sessions)|
    {
      sid := |sessions|;
      tokens := tokens + [AccessToken(user, sid, users[user].tokenVersion, clock / 1000 + cfg.accessTtl / 1000)];
      var ttl := if rememberMe then cfg.refreshTtl else sessionTtl;
      sessions := sessions + [Session(user, rememberMe, clock + ttl, None, false)];
    }

    method RevokeSession(sid: nat, cacheUp: bool) returns (ok: bool)
      modifies `sessions, `denied
      ensures View() == RevokeOne(old(View()), cfg, sid, cacheUp) && ok == cacheUp
    {
      if sid < |sessions| {
        sessions := sessions[sid := sessions[sid].(revoked := true)];
      }
      if cacheUp {
        denied := denied[sid := clock + DenySeconds(cfg) * 1000];
      }
      ok := cacheUp;
    }

    /** Marks the user's rows, and says which of them were live. */
    method EndRows(user: nat) returns (live: set<nat>)
      modifies `sessions
      ensures sessions == Spent(old(sessions), user)
      ensures forall sid :: sid in live <==> sid >= 0 && Live(old(View()), user, sid)
    {
      ghost var was := View();
      live := {};
      for i := 0 to |sessions|
        invariant |sessions| == |was.sessions|
        invariant forall sid :: sid in live <==> 0 <= sid < i && Live(was, user, sid)
        invariant forall j :: 0 <= j < |sessions| ==>
                    sessions[j] == if j < i && was.sessions[j].user == user
                                   then was.sessions[j].(revoked := true) else was.sessions[j]
      {
        if sessions[i].user == user && !sessions[i].revoked {
          live := live + {i};
          sessions := sessions[i := sessions[i].(revoked := true)];
        }
      }
    }

    method RevokeAllSessions(user: nat, reached: set<nat>) returns (ok: bool)
      modifies `sessions, `denied, `users
      ensures View() == RevokeAll(old(View()), cfg, user, reached)
      ensures ok == AllReached(old(View()), user, reached)
    {
      ghost var was := View();
      var live := EndRows(user);
      var until := clock + DenySeconds(cfg) * 1000;
      var entries := map sid | sid in live && sid in reached :: until;
      assert entries == Denials(was, user, reached, until);
      denied := denied + entries;
      ok := live <= reached;
      if ok && user < |users| {
        users := users[user := users[user].(tokenVersion := users[user].tokenVersion + 1)];
      }
    }

    method RefreshToken(token: nat, sessionTtl: nat, reached: set<nat>) returns (result: RefreshResult)
      modifies `sessions, `tokens, `denied, `users
      ensures View() == Refresh(old(View()), cfg, token, sessionTtl, reached).0
      ensures result == Refresh(old(View()), cfg, token, sessionTtl, reached).1
    {
      if token >= |sessions| {
        return Invalid;
      }
      var session := sessions[token];
      if session.replacedBy.Some? || session.revoked {
        var ok := RevokeAllSessions(session.user, reached);
        return if ok then Reused else CacheDown;
      }
      if session.expiresAt <= clock {
        return Expired;
      }
      if session.user >= |users| || users[session.user].deleted || !users[session.user].active {
        return Inactive;
      }
      var sid := IssueTokens(session.user, session.rememberMe, sessionTtl);
      sessions := sessions[token := session.(replacedBy := Some(sid))];
      return Rotated(sid);
    }
  }
}
