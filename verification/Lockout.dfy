/** Progressive account lockout: `AuthService::validateUser` with the administrator's
    `disableUser` and `enableUser`. Attempts on one account do not overlap. */
module Lockout {

  /** The columns of the users row that decide. */
  datatype Account = Account(failed: nat, lockedUntil: int, lastFailed: int)

  const DISABLED_UNTIL := 9999999999

  datatype Event =
    | Attempt(now: int, valid: bool)
    | Disable
    | Enable

  datatype Verdict = Rejected | Accepted | Refused

  /** The lock set by the n-th failure in a row. */
  function LockFor(n: nat): nat {
    if n >= 20 then 3600 else if n >= 15 then 1800 else if n >= 10 then 300 else if n >= 5 then 60 else 0
  }

  /** Rejected without looking at the password, accepted, or refused. */
  function Judge(a: Account, now: int, valid: bool): Verdict {
    if a.lockedUntil > now then Rejected else if valid then Accepted else Refused
  }

  function Step(a: Account, e: Event): Account {
    match e
    case Attempt(now, valid) =>
      (match Judge(a, now, valid)
       case Rejected => a
       case Accepted => if a.failed > 0 then a.(failed := 0, lockedUntil := 0) else a
       case Refused =>
         var n := a.failed + 1;
         Account(n, if LockFor(n) == 0 then 0 else now + LockFor(n), now))
    case Disable => a.(lockedUntil := DISABLED_UNTIL)
    case Enable => a.(failed := 0, lockedUntil := 0)
  }

  function Run(a: Account, events: seq<Event>): Account {
    if events == [] then a else Step(Run(a, events[..|events| - 1]), events[|events| - 1])
  }

  // ---------- failures take time ----------

  /** The attempts whose password was looked at and found wrong, by their times. */
  function Failures(a: Account, events: seq<Event>): seq<int> {
    if events == [] then []
    else
      var before, e := Run(a, events[..|events| - 1]), events[|events| - 1];
      Failures(a, events[..|events| - 1])
      + (if e.Attempt? && Judge(before, e.now, e.valid) == Refused then [e.now] else [])
  }

  function LockSum(n: nat): nat {
    if n == 0 then 0 else LockSum(n - 1) + LockFor(n)
  }

  lemma {:induction false} LockSumFrom20(n: nat)
    requires n >= 20
    ensures LockSum(n - 1) == 10800 + 3600 * (n - 20)
  {
    if n == 20 {
      LockSum19();
    } else {
      LockSumFrom20(n - 1);
    }
  }

  lemma LockSum19()
    ensures LockSum(19) == 10800
  {
    assert LockSum(4) == 0;
    assert LockSum(9) == 300 by { assert LockSum(6) == 120; assert LockSum(8) == 240; }
    assert LockSum(14) == 1800 by { assert LockSum(11) == 900; assert LockSum(13) == 1500; }
    assert LockSum(16) == 5400 && LockSum(18) == 9000;
  }

  /** Attempts in time order, none accepted and no `enableUser`. The administrator may disable
      the account while the attempts come before the far date that this sets. */
  ghost predicate FailingRun(a: Account, events: seq<Event>) {
    && (forall i | 0 <= i < |events| :: !events[i].Enable?)
    && (forall i, j | 0 <= i < j < |events| && events[i].Attempt? && events[j].Attempt? ::
          events[i].now <= events[j].now)
    && (forall i | 0 <= i < |events| && events[i].Attempt? ::
          Judge(Run(a, events[..i]), events[i].now, events[i].valid) != Accepted)
    && (Disable in events ==> forall i | 0 <= i < |events| && events[i].Attempt? :: events[i].now < DISABLED_UNTIL)
  }

  /** The row that failures at these times leave. */
  function AfterFailures(a: Account, f: seq<int>): Account {
    if f == [] then a
    else
      var last := f[|f| - 1];
      Account(|f|, if LockFor(|f|) == 0 then 0 else last + LockFor(|f|), last)
  }

  /** The row after failures at these times, and the gaps the locks enforced. */
  ghost predicate Counted(a: Account, f: seq<int>, b: Account, disabled: bool) {
    && b == (if disabled then AfterFailures(a, f).(lockedUntil := DISABLED_UNTIL) else AfterFailures(a, f))
    && forall i | 0 <= i < |f| - 1 :: f[i] + LockFor(i + 1) <= f[i + 1]
  }

  lemma {:induction false} ShorterRun(a: Account, events: seq<Event>, n: nat)
    requires FailingRun(a, events) && n <= |events|
    ensures FailingRun(a, events[..n])
  {
    forall i | 0 <= i < n && events[i].Attempt?
      ensures Judge(Run(a, events[..n][..i]), events[i].now, events[i].valid) != Accepted
    {
      assert events[..n][..i] == events[..i];
    }
  }

  /** One attempt more: rejected and forgotten, or one more failure. */
  lemma OneMoreAttempt(a: Account, f: seq<int>, b: Account, disabled: bool, now: int, valid: bool)
    requires a.failed == 0 && Counted(a, f, b, disabled) && Judge(b, now, valid) != Accepted
    requires (f != [] ==> f[|f| - 1] <= now) && (disabled ==> now < DISABLED_UNTIL)
    ensures var more := if Judge(b, now, valid) == Refused then [now] else [];
            Counted(a, f + more, Step(b, Attempt(now, valid)), disabled)
  {
    assert f + [] == f;
  }

  /** Failures are made by attempts. */
  lemma {:induction false} FailuresAreAttempts(a: Account, events: seq<Event>, latest: int)
    requires forall e <- events :: e.Attempt? ==> e.now <= latest
    ensures forall at <- Failures(a, events) :: at <= latest
  {
    if events != [] {
      var n := |events| - 1;
      assert events == events[..n] + [events[n]];
      FailuresAreAttempts(a, events[..n], latest);
    }
  }

  lemma LatestFailure(a: Account, events: seq<Event>, n: nat)
    requires FailingRun(a, events) && n < |events| && events[n].Attempt?
    ensures var f := Failures(a, events[..n]); f != [] ==> f[|f| - 1] <= events[n].now
  {
    FailuresAreAttempts(a, events[..n], events[n].now);
    var f := Failures(a, events[..n]);
    if f != [] { assert f[|f| - 1] in f; }
  }

  /** What one event more makes of a run. */
  lemma Snoc(a: Account, before: seq<Event>, e: Event)
    ensures var events, b := before + [e], Run(a, before);
            && Run(a, events) == Step(b, e)
            && Failures(a, events) ==
               Failures(a, before) + (if e.Attempt? && Judge(b, e.now, e.valid) == Refused then [e.now] else [])
            && (Disable in events <==> Disable in before || e == Disable)
  {
    assert (before + [e])[..|before|] == before;
  }

  /** What a failing run says of its last attempt. */
  lemma LastAttempt(a: Account, events: seq<Event>, n: nat)
    requires FailingRun(a, events) && n == |events| - 1 && events[n].Attempt?
    ensures Judge(Run(a, events[..n]), events[n].now, events[n].valid) != Accepted
    ensures Disable in events[..n] ==> events[n].now < DISABLED_UNTIL
    ensures var f := Failures(a, events[..n]); f != [] ==> f[|f| - 1] <= events[n].now
  {
    LatestFailure(a, events, n);
  }

  lemma {:induction false} CountedSnoc(a: Account, before: seq<Event>, e: Event)
    requires a.failed == 0 && Counted(a, Failures(a, before), Run(a, before), Disable in before)
    requires e == Disable || e.Attempt?
    requires e.Attempt? ==>
               && Judge(Run(a, before), e.now, e.valid) != Accepted && (Disable in before ==> e.now < DISABLED_UNTIL)
               && var f := Failures(a, before); f != [] ==> f[|f| - 1] <= e.now
    ensures Counted(a, Failures(a, before + [e]), Run(a, before + [e]), Disable in before + [e])
  {
    var f, b := Failures(a, before), Run(a, before);
    Snoc(a, before, e);
    if e.Attempt? {
      OneMoreAttempt(a, f, b, Disable in before, e.now, e.valid);
    } else {
      DisableCounts(a, f, b, Disable in before);
      assert f + [] == f;
    }
  }

  /** After a run of failures the row counts them, and the lock is the one of the last, or
      the administrator's. */
  lemma {:induction false} FailuresAreCounted(a: Account, events: seq<Event>)
    requires a.failed == 0 && FailingRun(a, events)
    ensures Counted(a, Failures(a, events), Run(a, events), Disable in events)
  {
    if events != [] {
      var n := |events| - 1;
      ShorterRun(a, events, n);
      FailuresAreCounted(a, events[..n]);
      if events[n].Attempt? { LastAttempt(a, events, n); }
      CountedSnoc(a, events[..n], events[n]);
      assert events[..n] + [events[n]] == events;
    }
  }

  lemma DisableCounts(a: Account, f: seq<int>, b: Account, disabled: bool)
    requires Counted(a, f, b, disabled)
    ensures Counted(a, f, Step(b, Disable), true)
  {}

  /** The time from the first to the n-th failure is at least the sum of the locks between:
      three hours and an hour for each failure past the twentieth. */
  lemma {:induction false} FailuresTakeTime(f: seq<int>, n: nat)
    requires 1 <= n <= |f| && forall i | 0 <= i < |f| - 1 :: f[i] + LockFor(i + 1) <= f[i + 1]
    ensures f[n - 1] - f[0] >= LockSum(n - 1)
  {
    if n > 1 {
      FailuresTakeTime(f, n - 1);
      assert f[n - 2] + LockFor(n - 2 + 1) <= f[n - 2 + 1];
    }
  }

  lemma ThreeHoursForTwenty(a: Account, events: seq<Event>, n: nat)
    requires a.failed == 0 && FailingRun(a, events) && 1 <= n <= |Failures(a, events)|
    ensures var f := Failures(a, events);
            f[n - 1] - f[0] >= LockSum(n - 1) && (n >= 20 ==> f[n - 1] - f[0] >= 10800 + 3600 * (n - 20))
  {
    FailuresAreCounted(a, events);
    FailuresTakeTime(Failures(a, events), n);
    if n >= 20 { LockSumFrom20(n); }
  }

  /** The bound is met: attempts made the moment each lock ends are all looked at. */
  lemma {:induction false} BoundIsMet(n: nat) returns (events: seq<Event>)
    ensures |events| == n && forall e <- events :: e.Attempt? && !e.valid
    ensures IsEager(Failures(Account(0, 0, 0), events), Run(Account(0, 0, 0), events), n)
  {
    if n == 0 {
      events := [];
    } else {
      var before := BoundIsMet(n - 1);
      EagerStep(before, n - 1);
      events := before + [Attempt(LockSum(n - 1), false)];
    }
  }

  /** There are `n` failures, each the moment the lock before it ends, and the row counts them. */
  predicate IsEager(f: seq<int>, row: Account, n: nat) {
    && |f| == n && (forall i | 0 <= i < n :: f[i] == LockSum(i))
    && row.failed == n && row.lockedUntil <= LockSum(n)
  }

  /** One attempt made when the lock is over. */
  lemma EagerStep(events: seq<Event>, n: nat)
    requires IsEager(Failures(Account(0, 0, 0), events), Run(Account(0, 0, 0), events), n)
    ensures var more := events + [Attempt(LockSum(n), false)];
            IsEager(Failures(Account(0, 0, 0), more), Run(Account(0, 0, 0), more), n + 1)
  {
    Snoc(Account(0, 0, 0), events, Attempt(LockSum(n), false));
  }

  // ---------- the locks in seconds ----------

  /** After any run of failures the account is locked for a minute from the fifth failure on,
      for five minutes from the tenth, half an hour from the fifteenth and an hour from the
      twentieth, counted from the last failure; and not a second longer. */
  lemma {:induction false} LockAfterFailures(a: Account, events: seq<Event>, next: int, valid: bool)
    requires a.failed == 0 && FailingRun(a, events) && Disable !in events && Failures(a, events) != [] && next >= 0
    ensures var f := Failures(a, events);
            var n, t := |f|, f[|f| - 1];
            Judge(Run(a, events), next, valid) == Rejected <==>
            || (5 <= n <= 9 && next < t + 60)
            || (10 <= n <= 14 && next < t + 300)
            || (15 <= n <= 19 && next < t + 1800)
            || (n >= 20 && next < t + 3600)
  {
    FailuresAreCounted(a, events);
  }

  /** A later failure never locks for a shorter time. */
  lemma LocksGrow(m: nat, n: nat)
    requires m <= n
    ensures LockFor(m) <= LockFor(n)
  {}

  /** A success clears count and lock, whatever has happened before: the failures that follow
      are counted from zero, and the first of them leaves no lock. */
  lemma {:induction false} SuccessStartsOver(a: Account, before: seq<Event>, t: int, events: seq<Event>)
    requires t >= 0 && Judge(Run(a, before), t, true) == Accepted
    requires FailingRun(Run(a, before + [Attempt(t, true)]), events)
    ensures var b := Run(a, before + [Attempt(t, true)]);
            && b.failed == 0
            && Counted(b, Failures(b, events), Run(a, before + [Attempt(t, true)] + events), Disable in events)
            && forall next | next >= t :: Step(b, Attempt(next, false)) == Account(1, 0, next)
  {
    Snoc(a, before, Attempt(t, true));
    RunConcat(a, before + [Attempt(t, true)], events);
    FailuresAreCounted(Run(a, before + [Attempt(t, true)]), events);
  }

  // ---------- disabling ----------

  /** After `disableUser`, and until `enableUser`, every attempt before the far date is
      rejected and leaves the row as it is. */
  lemma {:induction false} DisabledStays(a: Account, events: seq<Event>)
    requires forall i | 0 <= i < |events| ::
               events[i] == Disable || (events[i].Attempt? && events[i].now < 9999999999)
    ensures var d := Step(a, Disable);
            && Run(d, events) == d
            && forall i | 0 <= i < |events| && events[i].Attempt? ::
                 Judge(Run(d, events[..i]), events[i].now, events[i].valid) == Rejected
  {
    if events != [] {
      var n := |events| - 1;
      DisabledStays(a, events[..n]);
      forall i | 0 <= i < |events| && events[i].Attempt?
        ensures Judge(Run(Step(a, Disable), events[..i]), events[i].now, events[i].valid) == Rejected
      {
        if i < n {
          assert events[..n][..i] == events[..i];
          assert events[..n][i] == events[i];
        }
      }
    }
  }

  lemma {:induction false} RunConcat(a: Account, x: seq<Event>, y: seq<Event>)
    ensures Run(a, x + y) == Run(Run(a, x), y)
  {
    if y == [] {
      assert x + y == x;
    } else {
      var n := |y| - 1;
      RunConcat(a, x, y[..n]);
      assert (x + y)[..|x + y| - 1] == x + y[..n];
    }
  }

  /** `enableUser` undoes both locks, whatever has happened before: the next attempt is looked
      at, and the failures that follow are counted from zero. */
  lemma {:induction false} EnableStartsOver(a: Account, before: seq<Event>, events: seq<Event>)
    requires FailingRun(Run(a, before + [Enable]), events)
    ensures var b := Run(a, before + [Enable]);
            && (forall now: int, valid | now >= 0 :: Judge(b, now, valid) == if valid then Accepted else Refused)
            && Counted(b, Failures(b, events), Run(a, before + [Enable] + events), Disable in events)
            && (Disable !in events && Failures(b, events) != [] ==>
                  Run(a, before + [Enable] + events).failed == |Failures(b, events)|)
  {
    assert (before + [Enable])[..|before|] == before;
    RunConcat(a, before + [Enable], events);
    FailuresAreCounted(Run(a, before + [Enable]), events);
  }
}
