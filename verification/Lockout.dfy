/** The per-account lockout, and the bound it puts on guessing. */
module Lockout {
  import opened Wrappers

  /** Thresholds; the lockout length and all times are in milliseconds. */
  datatype Settings = Settings(maxAttempts: nat, lockout: nat)

  datatype Lock = Lock(failures: nat, lockedUntil: Option<nat>)

  datatype Attempt = Attempt(time: nat, active: bool, correct: bool)

  datatype Outcome = AccountLocked | AccountInactive | BadPassword | Success

  const UNTOUCHED := Lock(0, None)

  predicate Sensible(s: Settings) {
    s.maxAttempts >= 1 && s.lockout >= 1
  }

  function Judge(l: Lock, a: Attempt): Outcome {
    if l.lockedUntil.Some? && l.lockedUntil.value > a.time then AccountLocked
    else if !a.active then AccountInactive
    else if !a.correct then BadPassword
    else Success
  }

  function After(s: Settings, l: Lock, a: Attempt): Lock {
    match Judge(l, a)
    case BadPassword =>
      var count := l.failures + 1;
      Lock(count, if count >= s.maxAttempts then Some(a.time + s.lockout) else None)
    case Success => UNTOUCHED
    case _ => l
  }

  function Run(s: Settings, attempts: seq<Attempt>): Lock {
    if attempts == [] then UNTOUCHED else After(s, Run(s, attempts[..|attempts| - 1]), attempts[|attempts| - 1])
  }

  /** When a wrong password was actually compared against the account's hash. */
  function Checks(s: Settings, attempts: seq<Attempt>): seq<nat> {
    if attempts == [] then []
    else
      var before, last := attempts[..|attempts| - 1], attempts[|attempts| - 1];
      Checks(s, before) + if Judge(Run(s, before), last) == BadPassword then [last.time] else []
  }

  function CountIn(times: seq<nat>, from: nat, to: nat): nat {
    if times == [] then 0
    else CountIn(times[..|times| - 1], from, to) + if from <= times[|times| - 1] <= to then 1 else 0
  }

  predicate InOrder(attempts: seq<Attempt>) {
    forall i, j :: 0 <= i < j < |attempts| ==> attempts[i].time <= attempts[j].time
  }

  predicate NoneSucceed(attempts: seq<Attempt>) {
    forall i :: 0 <= i < |attempts| ==> !attempts[i].correct
  }

  /** Checks in time order, and a full lockout between any two from the one that first locks on. */
  predicate Spaced(s: Settings, checks: seq<nat>) {
    && (forall i, j :: 0 <= i < j < |checks| ==> checks[i] <= checks[j])
    && (forall i :: 0 <= i < |checks| - 1 && i + 1 >= s.maxAttempts ==> checks[i] + s.lockout <= checks[i + 1])
  }

  // ── What the counter knows ─────────────────────────────────────────────────

  /** The counter counts the checks, the lock is due a lockout after the last, and none is later than `latest`. */
  predicate Tracks(s: Settings, l: Lock, checks: seq<nat>, latest: nat) {
    && l.failures == |checks|
    && l.lockedUntil == (if checks != [] && |checks| >= s.maxAttempts then Some(checks[|checks| - 1] + s.lockout) else None)
    && (forall i :: 0 <= i < |checks| ==> checks[i] <= latest)
    && Spaced(s, checks)
  }

  lemma SpacedExtends(s: Settings, checks: seq<nat>, time: nat)
    requires Spaced(s, checks) && forall i :: 0 <= i < |checks| ==> checks[i] <= time
    requires checks != [] && |checks| >= s.maxAttempts ==> checks[|checks| - 1] + s.lockout <= time
    ensures Spaced(s, checks + [time])
  {
  }

  lemma TracksOn(s: Settings, l: Lock, checks: seq<nat>, latest: nat, a: Attempt)
    requires Sensible(s) && Tracks(s, l, checks, latest) && latest <= a.time && !a.correct
    ensures Tracks(s, After(s, l, a), checks + if Judge(l, a) == BadPassword then [a.time] else [], a.time)
  {
    if Judge(l, a) == BadPassword {
      SpacedExtends(s, checks, a.time);
    }
  }

  lemma {:induction false} CounterTracksChecks(s: Settings, attempts: seq<Attempt>)
    requires Sensible(s) && InOrder(attempts) && NoneSucceed(attempts)
    ensures Tracks(s, Run(s, attempts), Checks(s, attempts), if attempts == [] then 0 else attempts[|attempts| - 1].time)
  {
    if attempts != [] {
      var before := attempts[..|attempts| - 1];
      CounterTracksChecks(s, before);
      TracksOn(s, Run(s, before), Checks(s, before), if before == [] then 0 else before[|before| - 1].time,
               attempts[|attempts| - 1]);
    }
  }

  lemma {:induction false} LockedStretch(s: Settings, checks: seq<nat>, i: nat, j: nat)
    requires Spaced(s, checks) && i <= j < |checks| && i + 1 >= s.maxAttempts
    ensures checks[i] + (j - i) * s.lockout <= checks[j]
  {
    if i < j {
      LockedStretch(s, checks, i, j - 1);
      assert (j - i) * s.lockout == (j - 1 - i) * s.lockout + s.lockout;
    }
  }

  lemma {:induction false} AtMostQuotient(k: nat, unit: nat, total: nat)
    requires unit >= 1 && k * unit <= total
    ensures k <= total / unit
  {
    assert total < (total / unit + 1) * unit;
    Ordered(unit, total / unit + 1, k);
  }

  lemma Ordered(unit: nat, i: int, j: int)
    ensures i <= j ==> i * unit <= j * unit
  {
  }

  lemma {:induction false} ExactQuotient(k: nat, unit: nat)
    requires unit >= 1
    ensures (k * unit) / unit == k
  {
    AtMostQuotient(k, unit, k * unit);
    assert (k * unit) / unit * unit <= k * unit;
    Ordered(unit, k + 1, (k * unit) / unit);
    assert (k + 1) * unit == k * unit + unit;
  }

  /** Checks i through j, if they fall within `window`, are no more than the bound. */
  lemma StretchBound(s: Settings, checks: seq<nat>, i: nat, j: nat, window: nat)
    requires Sensible(s) && Spaced(s, checks) && i <= j < |checks| && checks[j] <= checks[i] + window
    ensures j - i + 1 <= s.maxAttempts + window / s.lockout
  {
    var k := if i + 1 >= s.maxAttempts then i else s.maxAttempts - 1;
    if k <= j {
      LockedStretch(s, checks, k, j);
      AtMostQuotient(j - k, s.lockout, window);
    }
  }

  lemma {:induction false} CountAtMost(times: seq<nat>, from: nat, to: nat, first: nat)
    requires first <= |times| && forall i :: 0 <= i < first ==> times[i] < from
    ensures CountIn(times, from, to) <= |times| - first
  {
    if times != [] {
      if first == |times| {
        CountAtMost(times[..|times| - 1], from, to, first - 1);
      } else {
        CountAtMost(times[..|times| - 1], from, to, first);
      }
    }
  }

  /** Where the window starts. */
  lemma FirstIn(times: seq<nat>, from: nat) returns (first: nat)
    ensures first <= |times| && forall i :: 0 <= i < first ==> times[i] < from
    ensures first < |times| ==> from <= times[first]
  {
    first := 0;
    while first < |times| && times[first] < from
      invariant first <= |times| && forall i :: 0 <= i < first ==> times[i] < from
    {
      first := first + 1;
    }
  }

  /** A bound on every stretch that fits in the window bounds the window. */
  lemma {:induction false} WindowBound(checks: seq<nat>, from: nat, window: nat, bound: nat)
    requires forall i, j :: 0 <= i <= j < |checks| && checks[j] <= checks[i] + window ==> j - i + 1 <= bound
    ensures CountIn(checks, from, from + window) <= bound
  {
    if checks != [] {
      var last := |checks| - 1;
      if checks[last] > from + window {
        WindowBound(checks[..last], from, window, bound);
      } else {
        var first := FirstIn(checks, from);
        CountAtMost(checks, from, from + window, first);
      }
    }
  }

  /**
   * However the attempts are timed: with no success, any closed window of length `window`
   * holds at most maxAttempts + window / lockout password checks.
   */
  lemma GuessesBounded(s: Settings, attempts: seq<Attempt>, from: nat, window: nat)
    requires Sensible(s) && InOrder(attempts) && NoneSucceed(attempts)
    ensures CountIn(Checks(s, attempts), from, from + window) <= s.maxAttempts + window / s.lockout
  {
    var checks := Checks(s, attempts);
    CounterTracksChecks(s, attempts);
    forall i, j | 0 <= i <= j < |checks| && checks[j] <= checks[i] + window
      ensures j - i + 1 <= s.maxAttempts + window / s.lockout
    {
      StretchBound(s, checks, i, j, window);
    }
    WindowBound(checks, from, window, s.maxAttempts + window / s.lockout);
  }

  // ── The bound is met ───────────────────────────────────────────────────────

  function GuessAt(s: Settings, i: nat): nat {
    if i < s.maxAttempts then 0 else (i + 1 - s.maxAttempts) * s.lockout
  }

  /** Spend the allowance at once, then guess again each time the lock lapses. */
  function Patient(s: Settings, count: nat): seq<Attempt> {
    seq(count, i requires 0 <= i => Attempt(GuessAt(s, i), true, false))
  }

  /** The counter and the lock when the patient guesser has made `count` guesses. */
  function PatientLock(s: Settings, count: nat): Lock
    requires Sensible(s)
  {
    Lock(count, if count >= s.maxAttempts then Some(GuessAt(s, count - 1) + s.lockout) else None)
  }

  lemma OneLapse(s: Settings, i: nat)
    requires Sensible(s) && i >= s.maxAttempts
    ensures GuessAt(s, i) == GuessAt(s, i - 1) + s.lockout
  {
    assert (i + 1 - s.maxAttempts) * s.lockout == (i - s.maxAttempts) * s.lockout + s.lockout;
  }

  lemma PatientStep(s: Settings, count: nat)
    requires Sensible(s)
    ensures var guess := Attempt(GuessAt(s, count), true, false);
            && Judge(PatientLock(s, count), guess) == BadPassword
            && After(s, PatientLock(s, count), guess) == PatientLock(s, count + 1)
  {
    if count >= s.maxAttempts {
      OneLapse(s, count);
    }
  }

  lemma {:induction false} PatientAllChecked(s: Settings, count: nat)
    requires Sensible(s)
    ensures Checks(s, Patient(s, count)) == seq(count, i requires 0 <= i < count => Patient(s, count)[i].time)
    ensures Run(s, Patient(s, count)) == PatientLock(s, count)
  {
    if count > 0 {
      PatientAllChecked(s, count - 1);
      assert Patient(s, count)[..count - 1] == Patient(s, count - 1);
      PatientStep(s, count - 1);
    }
  }

  /** Its guesses are in order, wrong, and over by the time `lapses` locks have lapsed. */
  lemma PatientTimes(s: Settings, lapses: nat)
    requires Sensible(s)
    ensures var attempts := Patient(s, s.maxAttempts + lapses);
            && InOrder(attempts) && NoneSucceed(attempts)
            && forall i :: 0 <= i < |attempts| ==> attempts[i].time <= lapses * s.lockout
  {
    var attempts := Patient(s, s.maxAttempts + lapses);
    forall i, j | 0 <= i <= j < |attempts|
      ensures attempts[i].time <= attempts[j].time <= lapses * s.lockout
    {
      Ordered(s.lockout, i + 1 - s.maxAttempts, j + 1 - s.maxAttempts);
      Ordered(s.lockout, j + 1 - s.maxAttempts, lapses);
      Ordered(s.lockout, 0, j + 1 - s.maxAttempts);
    }
  }

  lemma {:induction false} CountAll(times: seq<nat>, to: nat)
    requires forall i :: 0 <= i < |times| ==> times[i] <= to
    ensures CountIn(times, 0, to) == |times|
  {
    if times != [] {
      CountAll(times[..|times| - 1], to);
    }
  }

  /** No smaller bound holds: for every number of lapses some schedule of wrong guesses reaches it. */
  lemma {:induction false} BoundIsReached(s: Settings, lapses: nat)
    requires Sensible(s)
    ensures var attempts := Patient(s, s.maxAttempts + lapses);
            && InOrder(attempts) && NoneSucceed(attempts)
            && CountIn(Checks(s, attempts), 0, lapses * s.lockout) == s.maxAttempts + lapses
            && s.maxAttempts + (lapses * s.lockout) / s.lockout == s.maxAttempts + lapses
  {
    var attempts := Patient(s, s.maxAttempts + lapses);
    PatientAllChecked(s, s.maxAttempts + lapses);
    PatientTimes(s, lapses);
    CountAll(Checks(s, attempts), lapses * s.lockout);
    ExactQuotient(lapses, s.lockout);
  }

  /**
   * A success wipes the record clean, lock and count alike: whatever went before it, what
   * follows runs as on an untouched account.
   */
  lemma {:induction false} SuccessForgets(s: Settings, before: seq<Attempt>, a: Attempt, rest: seq<Attempt>)
    requires Judge(Run(s, before), a) == Success
    ensures Run(s, before + [a] + rest) == Run(s, rest)
  {
    if rest == [] {
      assert before + [a] + rest == before + [a] && (before + [a])[..|before|] == before;
    } else {
      var front := rest[..|rest| - 1];
      assert (before + [a] + rest)[..|before + [a] + rest| - 1] == before + [a] + front;
      SuccessForgets(s, before, a, front);
    }
  }

  /** A right password gets in exactly on an active account that is not locked at that moment. */
  lemma JudgedBy(l: Lock, a: Attempt)
    ensures Judge(l, a) == AccountLocked <==> l.lockedUntil.Some? && a.time < l.lockedUntil.value
    ensures Judge(l, a) == Success <==> !(l.lockedUntil.Some? && a.time < l.lockedUntil.value) && a.active && a.correct
    ensures Judge(l, a) == BadPassword <==> !(l.lockedUntil.Some? && a.time < l.lockedUntil.value) && a.active && !a.correct
  {
  }

  /** Only a password that was compared changes anything. */
  lemma UncomparedLeaves(s: Settings, l: Lock, a: Attempt)
    requires !a.active || (l.lockedUntil.Some? && a.time < l.lockedUntil.value)
    ensures After(s, l, a) == l
  {
  }

  // ── The code ───────────────────────────────────────────────────────────────

  class Gatekeeper {
    var failedLoginCount: nat
    var lockedUntil: Option<nat>

    constructor ()
      ensures View() == UNTOUCHED
    {
      failedLoginCount, lockedUntil := 0, None;
    }

    function View(): Lock
      reads this
    {
      Lock(failedLoginCount, lockedUntil)
    }

    method RegisterFailedAttempt(s: Settings, now: nat)
      modifies this
      ensures failedLoginCount == old(failedLoginCount) + 1
      ensures lockedUntil == if failedLoginCount >= s.maxAttempts then Some(now + s.lockout) else None
    {
      var nextCount := failedLoginCount + 1;
      var shouldLock := nextCount >= s.maxAttempts;
      failedLoginCount := nextCount;
      lockedUntil := if shouldLock then Some(now + s.lockout) else None;
    }

    method Login(s: Settings, attempt: Attempt) returns (outcome: Outcome)
      modifies this
      ensures outcome == Judge(old(View()), attempt)
      ensures View() == After(s, old(View()), attempt)
    {
      if lockedUntil.Some? && lockedUntil.value > attempt.time {
        return AccountLocked;
      }
      if !attempt.active {
        return AccountInactive;
      }
      if !attempt.correct {
        RegisterFailedAttempt(s, attempt.time);
        return BadPassword;
      }
      failedLoginCount, lockedUntil := 0, None;
      return Success;
    }
  }
}
