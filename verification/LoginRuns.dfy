/**
 * Sign-ins under way. An attempt reads the counter and the lock, compares the password,
 * and writes the counter it read plus one; nothing locks the account in between.
 */
module LoginRuns {
  import opened Wrappers
  import opened Lockout

  /** An attempt whose password is being compared, with the count it read. */
  datatype Job = Checking(seen: nat, correct: bool) | Finished

  /** `checks` counts the wrong passwords that have been compared. */
  datatype System = System(lock: Lock, jobs: seq<Job>, checks: nat)

  datatype Event = Ask(attempt: Attempt) | Answer(job: nat, time: nat)

  /** What a wrong password writes, `seen` being the count that was read. */
  function Counted(s: Settings, seen: nat, time: nat): Lock {
    Lock(seen + 1, if seen + 1 >= s.maxAttempts then Some(time + s.lockout) else None)
  }

  function Happen(s: Settings, t: System, e: Event): System {
    match e
    case Ask(attempt) =>
      var outcome := Judge(t.lock, attempt);
      if outcome == AccountLocked || outcome == AccountInactive then t
      else t.(jobs := t.jobs + [Checking(t.lock.failures, attempt.correct)])
    case Answer(j, time) =>
      if j >= |t.jobs| || !t.jobs[j].Checking? then t
      else if t.jobs[j].correct then System(UNTOUCHED, t.jobs[j := Finished], t.checks)
      else System(Counted(s, t.jobs[j].seen, time), t.jobs[j := Finished], t.checks + 1)
  }

  function RunAll(s: Settings, t: System, events: seq<Event>): System {
    if events == [] then t else Happen(s, RunAll(s, t, events[..|events| - 1]), events[|events| - 1])
  }

  const QUIET := System(UNTOUCHED, [], 0)

  /** Answered at once, an attempt does what it does alone. */
  lemma UndisturbedAttempt(s: Settings, t: System, attempt: Attempt)
    ensures Happen(s, Happen(s, t, Ask(attempt)), Answer(|t.jobs|, attempt.time)).lock == After(s, t.lock, attempt)
  {
  }

  // ── What the counter misses ────────────────────────────────────────────────

  predicate NoneCorrect(events: seq<Event>) {
    forall e <- events :: e.Ask? ==> !e.attempt.correct
  }

  /** Nobody remembers more than has been counted, and no more has been counted than compared. */
  predicate Behind(t: System) {
    && t.lock.failures <= t.checks
    && forall j :: 0 <= j < |t.jobs| && t.jobs[j].Checking? ==> t.jobs[j].seen <= t.checks && !t.jobs[j].correct
  }

  lemma {:induction false} CounterNeverAhead(s: Settings, events: seq<Event>)
    requires NoneCorrect(events)
    ensures Behind(RunAll(s, QUIET, events))
  {
    if events != [] {
      CounterNeverAhead(s, events[..|events| - 1]);
      assert events[|events| - 1] in events;
    }
  }

  /** The answer to a wrong attempt that others have been counted ahead of since it read. */
  predicate Overtaken(t: System, e: Event) {
    e.Answer? && e.job < |t.jobs| && t.jobs[e.job].Checking? && t.jobs[e.job].seen != t.lock.failures
  }

  /** A counter that has counted every check loses one exactly when the attempt answered was overtaken. */
  lemma CountsIff(s: Settings, t: System, e: Event)
    requires t.lock.failures == t.checks
    requires e.Answer? && e.job < |t.jobs| && t.jobs[e.job].Checking? ==> !t.jobs[e.job].correct
    ensures Happen(s, t, e).lock.failures == Happen(s, t, e).checks <==> !Overtaken(t, e)
  {
  }

  /** Over any run of wrong attempts none of which is overtaken, the counter is the number of checks. */
  lemma {:induction false} CounterExact(s: Settings, events: seq<Event>)
    requires NoneCorrect(events)
    requires forall k :: 0 <= k < |events| ==> !Overtaken(RunAll(s, QUIET, events[..k]), events[k])
    ensures var t := RunAll(s, QUIET, events); t.lock.failures == t.checks
  {
    if events != [] {
      var front := events[..|events| - 1];
      forall k | 0 <= k < |front|
        ensures !Overtaken(RunAll(s, QUIET, front[..k]), front[k])
      {
        assert front[..k] == events[..k] && front[k] == events[k];
      }
      CounterExact(s, front);
      CounterNeverAhead(s, front);
      CountsIff(s, RunAll(s, QUIET, front), events[|events| - 1]);
    }
  }

  /** A wrong attempt lifts a lock that is in force exactly when the count it read is short of the threshold by two. */
  lemma LockLiftedIff(s: Settings, t: System, j: nat, time: nat)
    requires j < |t.jobs| && t.jobs[j].Checking? && !t.jobs[j].correct
    requires t.lock.lockedUntil.Some? && t.lock.lockedUntil.value > time
    ensures var after := Happen(s, t, Answer(j, time)).lock;
            !(after.lockedUntil.Some? && after.lockedUntil.value > time) <==>
            t.jobs[j].seen + 2 <= s.maxAttempts || s.lockout == 0
  {
  }

  // ── Attempts that overlap ──────────────────────────────────────────────────

  function Asks(n: nat, time: nat): seq<Event> {
    seq(n, i => Ask(Attempt(time, true, false)))
  }

  function Answers(n: nat, time: nat): seq<Event> {
    seq(n, j requires 0 <= j => Answer(j, time))
  }

  function Waiting(n: nat): seq<Job> {
    seq(n, i => Checking(0, false))
  }

  lemma {:induction false} AllAsked(s: Settings, n: nat, time: nat)
    ensures RunAll(s, QUIET, Asks(n, time)) == System(UNTOUCHED, Waiting(n), 0)
  {
    if n > 0 {
      AllAsked(s, n - 1, time);
      assert Asks(n, time)[..n - 1] == Asks(n - 1, time);
      assert Waiting(n) == Waiting(n - 1) + [Checking(0, false)];
    } else {
      assert Waiting(0) == [];
    }
  }

  lemma {:induction false} SomeAnswered(s: Settings, n: nat, m: nat, time: nat)
    requires m <= n
    ensures var t := RunAll(s, System(UNTOUCHED, Waiting(n), 0), Answers(m, time));
            && t.checks == m && |t.jobs| == n
            && (forall j :: m <= j < n ==> t.jobs[j] == Checking(0, false))
            && t.lock == if m == 0 then UNTOUCHED else Counted(s, 0, time)
  {
    if m > 0 {
      SomeAnswered(s, n, m - 1, time);
      assert Answers(m, time)[..m - 1] == Answers(m - 1, time);
    }
  }

  lemma {:induction false} RunJoins(s: Settings, t: System, front: seq<Event>, rest: seq<Event>)
    ensures RunAll(s, t, front + rest) == RunAll(s, RunAll(s, t, front), rest)
  {
    if rest == [] {
      assert front + rest == front;
    } else {
      var last := |rest| - 1;
      assert (front + rest)[..|front + rest| - 1] == front + rest[..last];
      RunJoins(s, t, front, rest[..last]);
    }
  }

  /**
   * However many wrong attempts all read before any is answered, every one of them is
   * compared and together they are counted as one.
   */
  lemma OverlappingAttempts(s: Settings, n: nat, time: nat)
    requires n > 0
    ensures var t := RunAll(s, QUIET, Asks(n, time) + Answers(n, time));
            && t.checks == n
            && t.lock.failures == 1
            && (t.lock.lockedUntil.None? <==> s.maxAttempts >= 2)
  {
    RunJoins(s, QUIET, Asks(n, time), Answers(n, time));
    AllAsked(s, n, time);
    SomeAnswered(s, n, n, time);
  }
}
