/** Overlapping login attempts: `AuthService::validateUser` reads the users row, checks the
    password and writes the row with a later statement that nobody waits for. Between the two
    other attempts and the administrator may write. */
module LockoutOverlap {
  import opened Text
  import opened Lockout

  /** An attempt that has read the row and is to write it. */
  datatype Pending = Pending(seen: Account, now: int, valid: bool)

  datatype State = State(account: Account, waiting: seq<Option<Pending>>)

  datatype Action =
    | Read(now: int, valid: bool)
    | Write(i: nat)
    | Administer(event: Event)

  /** Whether an attempt writes the row after it has judged what it read. */
  predicate Writes(seen: Account, now: int, valid: bool) {
    match Judge(seen, now, valid)
    case Rejected => false
    case Accepted => seen.failed > 0
    case Refused => true
  }

  /** What the UPDATE makes of the row: a success sets two columns, a failure all three, from
      the count that the attempt has read. */
  function Written(row: Account, p: Pending): Account {
    if p.valid then row.(failed := 0, lockedUntil := 0)
    else
      var n := p.seen.failed + 1;
      Account(n, if LockFor(n) == 0 then 0 else p.now + LockFor(n), p.now)
  }

  function OverlapStep(s: State, a: Action): State {
    match a
    case Read(now, valid) =>
      if Writes(s.account, now, valid) then s.(waiting := s.waiting + [Some(Pending(s.account, now, valid))]) else s
    case Write(i) =>
      if i < |s.waiting| && s.waiting[i].Some? then
        State(Written(s.account, s.waiting[i].value), s.waiting[i := None])
      else s
    case Administer(event) => if event.Attempt? then s else s.(account := Step(s.account, event))
  }

  function OverlapRun(s: State, actions: seq<Action>): State {
    if actions == [] then s
    else OverlapStep(OverlapRun(s, actions[..|actions| - 1]), actions[|actions| - 1])
  }

  function Start(a: Account): State {
    State(a, [])
  }

  // ---------- when overlapping attempts are attempts one after the other ----------

  /** The attempts in the order of their writes, those that write nothing at their reads. */
  function EventOf(s: State, a: Action): seq<Event> {
    match a
    case Read(now, valid) => if Writes(s.account, now, valid) then [] else [Attempt(now, valid)]
    case Write(i) =>
      if i < |s.waiting| && s.waiting[i].Some? then [Attempt(s.waiting[i].value.now, s.waiting[i].value.valid)] else []
    case Administer(event) => if event.Attempt? then [] else [event]
  }

  function Serial(s: State, actions: seq<Action>): seq<Event> {
    if actions == [] then []
    else
      var before := actions[..|actions| - 1];
      Serial(s, before) + EventOf(OverlapRun(s, before), actions[|actions| - 1])
  }

  /** A step that writes finds the row as its attempt has read it. */
  predicate FreshWrite(s: State, a: Action) {
    a.Write? && a.i < |s.waiting| && s.waiting[a.i].Some? ==> s.waiting[a.i].value.seen == s.account
  }

  predicate AllFresh(s: State, actions: seq<Action>) {
    actions == []
    || (var before := actions[..|actions| - 1];
        AllFresh(s, before) && FreshWrite(OverlapRun(s, before), actions[|actions| - 1]))
  }

  /** Every waiting attempt is one that writes. */
  predicate WaitingOk(s: State) {
    forall i | 0 <= i < |s.waiting| && s.waiting[i].Some? ::
      var p := s.waiting[i].value; Writes(p.seen, p.now, p.valid)
  }

  lemma {:induction false} WaitingAlways(a: Account, actions: seq<Action>)
    ensures WaitingOk(OverlapRun(Start(a), actions))
  {
    if actions != [] { WaitingAlways(a, actions[..|actions| - 1]); }
  }

  lemma OneFreshStep(s: State, a: Action)
    requires WaitingOk(s) && FreshWrite(s, a)
    ensures OverlapStep(s, a).account == Run(s.account, EventOf(s, a))
  {
    var events := EventOf(s, a);
    assert events != [] ==> events[..0] == [];
    assert Run(s.account, []) == s.account;
  }

  /** In every interleaving whose writes all find the row as it was read, the row is that of
      the attempts made one after the other: what holds of those runs holds of it. */
  lemma {:induction false} FreshWritesSerialize(a: Account, actions: seq<Action>)
    requires AllFresh(Start(a), actions)
    ensures OverlapRun(Start(a), actions).account == Run(a, Serial(Start(a), actions))
  {
    if actions != [] {
      var before, last := actions[..|actions| - 1], actions[|actions| - 1];
      var s := OverlapRun(Start(a), before);
      FreshWritesSerialize(a, before);
      WaitingAlways(a, before);
      OneFreshStep(s, last);
      RunConcat(a, Serial(Start(a), before), EventOf(s, last));
    }
  }

  // ---------- when every failure is counted ----------

  function IsWrite(s: State, a: Action): bool {
    a.Write? && a.i < |s.waiting| && s.waiting[a.i].Some?
  }

  /** The failures written by a run. */
  function WrittenBy(s: State, actions: seq<Action>): nat {
    if actions == [] then 0
    else
      var before := actions[..|actions| - 1];
      WrittenBy(s, before) + (if IsWrite(OverlapRun(s, before), actions[|actions| - 1]) then 1 else 0)
  }

  /** Wrong passwords only, and nobody enables the account. */
  predicate OnlyFailures(actions: seq<Action>) {
    forall a <- actions :: (a.Read? ==> !a.valid) && (a.Administer? ==> a.event == Disable)
  }

  /** After every step the row has counted every failure written so far. */
  predicate AllCounted(s: State, actions: seq<Action>) {
    && OverlapRun(s, actions).account.failed == s.account.failed + WrittenBy(s, actions)
    && (actions == [] || AllCounted(s, actions[..|actions| - 1]))
  }

  /** Every write finds the count that its attempt has read. */
  predicate AllCountsCurrent(s: State, actions: seq<Action>) {
    actions == []
    || (var before, last := OverlapRun(s, actions[..|actions| - 1]), actions[|actions| - 1];
        && AllCountsCurrent(s, actions[..|actions| - 1])
        && (IsWrite(before, last) ==> before.waiting[last.i].value.seen.failed == before.account.failed))
  }

  predicate WaitingWrong(s: State) {
    forall i | 0 <= i < |s.waiting| && s.waiting[i].Some? :: !s.waiting[i].value.valid
  }

  lemma {:induction false} WrongAlways(a: Account, actions: seq<Action>)
    requires OnlyFailures(actions)
    ensures WaitingWrong(OverlapRun(Start(a), actions))
  {
    if actions != [] {
      assert actions[|actions| - 1] in actions;
      WrongAlways(a, actions[..|actions| - 1]);
    }
  }

  /** In every interleaving of failing attempts, the row counts each of them after every step
      exactly when each write finds the count that its attempt has read. */
  lemma {:induction false} CountedExactly(a: Account, actions: seq<Action>)
    requires OnlyFailures(actions)
    ensures AllCounted(Start(a), actions) <==> AllCountsCurrent(Start(a), actions)
  {
    if actions != [] {
      var before, last := actions[..|actions| - 1], actions[|actions| - 1];
      assert last in actions;
      CountedExactly(a, before);
      WrongAlways(a, before);
      CountStep(OverlapRun(Start(a), before), last);
    }
  }

  lemma CountStep(s: State, a: Action)
    requires WaitingWrong(s) && (a.Administer? ==> a.event == Disable)
    ensures OverlapStep(s, a).account.failed ==
            if IsWrite(s, a) then s.waiting[a.i].value.seen.failed + 1 else s.account.failed
  {}

  // ---------- attempts that all read before any writes ----------

  function Reads(n: nat): seq<Action> {
    if n == 0 then [] else Reads(n - 1) + [Read(0, false)]
  }

  function WritesTo(n: nat): seq<Action> {
    if n == 0 then [] else WritesTo(n - 1) + [Write(n - 1)]
  }

  const CLEAR := Account(0, 0, 0)

  const WAITING := Some(Pending(CLEAR, 0, false))

  lemma StepSnoc(s: State, actions: seq<Action>, a: Action)
    ensures OverlapRun(s, actions + [a]) == OverlapStep(OverlapRun(s, actions), a)
  {
    assert (actions + [a])[..|actions|] == actions;
  }

  predicate WaitingFrom(waiting: seq<Option<Pending>>, k: nat) {
    forall i | k <= i < |waiting| :: waiting[i] == WAITING
  }

  /** `n` attempts have read the clear row, and none has written. */
  predicate HaveRead(s: State, n: nat) {
    s.account == CLEAR && |s.waiting| == n && WaitingFrom(s.waiting, 0)
  }

  lemma OneReads(s: State, n: nat)
    requires HaveRead(s, n)
    ensures HaveRead(OverlapStep(s, Read(0, false)), n + 1)
  {}

  lemma ReadsOneMore(before: seq<Action>, n: nat)
    requires HaveRead(OverlapRun(Start(CLEAR), before), n)
    ensures HaveRead(OverlapRun(Start(CLEAR), before + [Read(0, false)]), n + 1)
  {
    OneReads(OverlapRun(Start(CLEAR), before), n);
    StepSnoc(Start(CLEAR), before, Read(0, false));
  }

  lemma {:induction false} AllRead(n: nat)
    ensures HaveRead(OverlapRun(Start(CLEAR), Reads(n)), n)
  {
    if n > 0 {
      AllRead(n - 1);
      ReadsOneMore(Reads(n - 1), n - 1);
    }
  }

  lemma OneWrites(s: State, k: nat)
    requires k < |s.waiting| && WaitingFrom(s.waiting, k)
    ensures var t := OverlapStep(s, Write(k));
            t.account == Account(1, 0, 0) && |t.waiting| == |s.waiting| && WaitingFrom(t.waiting, k + 1)
  {
    assert s.waiting[k] == WAITING;
  }

  /** Of `n` attempts that had all read the clear row, the first `k` have written. */
  predicate HaveWritten(s: State, k: nat, n: nat) {
    |s.waiting| == n && WaitingFrom(s.waiting, k) && s.account == if k == 0 then CLEAR else Account(1, 0, 0)
  }

  lemma WritesOneMore(s: State, before: seq<Action>, k: nat, n: nat)
    requires k < n && HaveWritten(OverlapRun(s, before), k, n)
    ensures HaveWritten(OverlapRun(s, before + [Write(k)]), k + 1, n)
  {
    OneWrites(OverlapRun(s, before), k);
    StepSnoc(s, before, Write(k));
  }

  lemma {:induction false} AllWrite(s: State, k: nat)
    requires k <= |s.waiting| && s.account == CLEAR && WaitingFrom(s.waiting, 0)
    ensures HaveWritten(OverlapRun(s, WritesTo(k)), k, |s.waiting|)
  {
    if k > 0 {
      AllWrite(s, k - 1);
      WritesOneMore(s, WritesTo(k - 1), k - 1, |s.waiting|);
    }
  }

  /** The bound on failing attempts is one for attempts that do not overlap: any number that
      read the row before the first of them writes are all looked at and counted as one. */
  lemma OverlappingCountOnce(n: nat)
    requires n > 0
    ensures var s := OverlapRun(Start(CLEAR), Reads(n));
            && |s.waiting| == n && WaitingFrom(s.waiting, 0)
            && OverlapRun(s, WritesTo(n)).account == Account(1, 0, 0)
  {
    AllRead(n);
    AllWrite(OverlapRun(Start(CLEAR), Reads(n)), n);
  }

  // ---------- when a lock holds ----------

  /** The lock that the write of an attempt leaves, whatever the row holds by then. */
  function LockWritten(p: Pending): int {
    Written(CLEAR, p).lockedUntil
  }

  lemma LockIsWritten(row: Account, p: Pending)
    ensures Written(row, p).lockedUntil == LockWritten(p)
  {}

  /** The writes under way all leave a lock beyond `t`. */
  predicate WaitingLock(s: State, t: int) {
    forall i | 0 <= i < |s.waiting| && s.waiting[i].Some? :: LockWritten(s.waiting[i].value) > t
  }

  /** Attempts that come up to the time `t` and writes; the administrator may disable the
      account, if that locks it beyond `t`, and does not enable it. */
  predicate UpTo(a: Action, t: int) {
    match a
    case Read(now, _) => now <= t
    case Write(_) => true
    case Administer(event) => event != Enable && (event == Disable ==> t < DISABLED_UNTIL)
  }

  predicate AllUpTo(actions: seq<Action>, t: int) {
    forall a <- actions :: UpTo(a, t)
  }

  lemma LockedStep(s: State, a: Action, t: int)
    requires s.account.lockedUntil > t && WaitingLock(s, t) && UpTo(a, t)
    ensures var u := OverlapStep(s, a); u.account.lockedUntil > t && WaitingLock(u, t)
  {
    if IsWrite(s, a) { LockIsWritten(s.account, s.waiting[a.i].value); }
  }

  lemma {:induction false} LockedRun(s: State, actions: seq<Action>, t: int)
    requires s.account.lockedUntil > t && WaitingLock(s, t) && AllUpTo(actions, t)
    ensures var u := OverlapRun(s, actions); u.account.lockedUntil > t && WaitingLock(u, t)
  {
    if actions != [] {
      assert actions[|actions| - 1] in actions;
      LockedRun(s, actions[..|actions| - 1], t);
      LockedStep(OverlapRun(s, actions[..|actions| - 1]), actions[|actions| - 1], t);
    }
  }

  lemma OneWrite(s: State, i: nat)
    requires i < |s.waiting| && s.waiting[i].Some?
    ensures OverlapRun(s, [Write(i)]).account == Written(s.account, s.waiting[i].value)
  {
    assert [Write(i)][..0] == [];
  }

  /** A lock in force at the time `t` stays in force at `t` in every continuation exactly when
      every write under way leaves a lock beyond `t`: an attempt that has read the row earlier
      can lift it otherwise. */
  lemma {:induction false} LockHoldsExactly(s: State, t: int)
    requires s.account.lockedUntil > t
    ensures (forall actions | AllUpTo(actions, t) :: OverlapRun(s, actions).account.lockedUntil > t)
            <==> WaitingLock(s, t)
  {
    if WaitingLock(s, t) {
      forall actions | AllUpTo(actions, t) ensures OverlapRun(s, actions).account.lockedUntil > t {
        LockedRun(s, actions, t);
      }
    } else {
      var i :| 0 <= i < |s.waiting| && s.waiting[i].Some? && LockWritten(s.waiting[i].value) <= t;
      OneWrite(s, i);
      LockIsWritten(s.account, s.waiting[i].value);
      assert AllUpTo([Write(i)], t);
    }
  }

  predicate NoneWaiting(s: State) {
    forall i | 0 <= i < |s.waiting| :: s.waiting[i].None?
  }

  /** No attempt under way has read the row within an hour of the far date. */
  predicate WaitingEarly(s: State) {
    forall i | 0 <= i < |s.waiting| && s.waiting[i].Some? :: s.waiting[i].value.now + 3600 < DISABLED_UNTIL
  }

  lemma EarlyWritesUnlock(s: State)
    requires WaitingEarly(s)
    ensures WaitingLock(s, DISABLED_UNTIL - 1) <==> NoneWaiting(s)
  {
    forall i | 0 <= i < |s.waiting| && s.waiting[i].Some?
      ensures LockWritten(s.waiting[i].value) <= DISABLED_UNTIL - 1
    {}
  }

  /** After `disableUser`, every attempt before the far date is rejected in every continuation
      without `enableUser` exactly when no attempt that has read the row is still to write it. */
  lemma {:induction false} DisableHoldsExactly(s: State)
    requires WaitingEarly(s)
    ensures var d := OverlapStep(s, Administer(Disable));
            (forall actions | AllUpTo(actions, DISABLED_UNTIL - 1) ::
               OverlapRun(d, actions).account.lockedUntil > DISABLED_UNTIL - 1)
            <==> NoneWaiting(s)
  {
    var d := OverlapStep(s, Administer(Disable));
    LockHoldsExactly(d, DISABLED_UNTIL - 1);
    EarlyWritesUnlock(d);
  }

  /** And when none is, such a continuation leaves the row exactly as it is. */
  lemma {:induction false} DisabledRowStays(s: State, actions: seq<Action>)
    requires NoneWaiting(s) && AllUpTo(actions, DISABLED_UNTIL - 1)
    ensures var d := OverlapStep(s, Administer(Disable)); OverlapRun(d, actions) == d
  {
    if actions != [] {
      assert actions[|actions| - 1] in actions;
      DisabledRowStays(s, actions[..|actions| - 1]);
    }
  }

  // ---------- when an enabled account stays open ----------

  /** The writes under way all leave no lock beyond `t`. */
  predicate WaitingOpen(s: State, t: int) {
    forall i | 0 <= i < |s.waiting| && s.waiting[i].Some? :: LockWritten(s.waiting[i].value) <= t
  }

  predicate WaitingRight(s: State) {
    forall i | 0 <= i < |s.waiting| && s.waiting[i].Some? :: s.waiting[i].value.valid
  }

  /** Nothing new that could lock: right passwords, writes, and no `disableUser`. */
  predicate NothingNew(actions: seq<Action>) {
    forall a <- actions :: (a.Read? ==> a.valid) && (a.Administer? ==> a.event != Disable)
  }

  lemma {:induction false} OpenRun(s: State, actions: seq<Action>, t: int)
    requires 0 <= t && s.account.lockedUntil <= t && WaitingOpen(s, t) && NothingNew(actions)
    ensures var u := OverlapRun(s, actions); u.account.lockedUntil <= t && WaitingOpen(u, t)
  {
    if actions != [] {
      assert actions[|actions| - 1] in actions;
      OpenRun(s, actions[..|actions| - 1], t);
      OpenStep(OverlapRun(s, actions[..|actions| - 1]), actions[|actions| - 1], t);
    }
  }

  lemma OpenStep(s: State, a: Action, t: int)
    requires 0 <= t && s.account.lockedUntil <= t && WaitingOpen(s, t)
    requires (a.Read? ==> a.valid) && (a.Administer? ==> a.event != Disable)
    ensures var u := OverlapStep(s, a); u.account.lockedUntil <= t && WaitingOpen(u, t)
  {
    if IsWrite(s, a) { LockIsWritten(s.account, s.waiting[a.i].value); }
  }

  /** After `enableUser`, an attempt at the time `t` is looked at in every continuation without
      new wrong passwords exactly when no write under way leaves a lock beyond `t`. */
  lemma {:induction false} EnableOpensExactly(s: State, t: int)
    requires 0 <= t
    ensures var e := OverlapStep(s, Administer(Enable));
            (forall actions | NothingNew(actions) :: OverlapRun(e, actions).account.lockedUntil <= t)
            <==> WaitingOpen(s, t)
  {
    var e := OverlapStep(s, Administer(Enable));
    if WaitingOpen(s, t) {
      forall actions | NothingNew(actions) ensures OverlapRun(e, actions).account.lockedUntil <= t {
        OpenRun(e, actions, t);
      }
    } else {
      var i :| 0 <= i < |s.waiting| && s.waiting[i].Some? && LockWritten(s.waiting[i].value) > t;
      OneWrite(e, i);
      LockIsWritten(e.account, e.waiting[i].value);
      assert NothingNew([Write(i)]);
    }
  }

  lemma RightStep(s: State, a: Action)
    requires s.account.failed == 0 && WaitingRight(s) && (a.Read? ==> a.valid)
    ensures var u := OverlapStep(s, a); u.account.failed == 0 && WaitingRight(u)
  {}

  lemma {:induction false} RightRun(s: State, actions: seq<Action>)
    requires s.account.failed == 0 && WaitingRight(s) && NothingNew(actions)
    ensures var u := OverlapRun(s, actions); u.account.failed == 0 && WaitingRight(u)
  {
    if actions != [] {
      assert actions[|actions| - 1] in actions;
      RightRun(s, actions[..|actions| - 1]);
      RightStep(OverlapRun(s, actions[..|actions| - 1]), actions[|actions| - 1]);
    }
  }

  /** After `enableUser`, the count stays at zero in every continuation without new wrong
      passwords exactly when every attempt under way had the right one. */
  lemma {:induction false} EnableClearsExactly(s: State)
    ensures var e := OverlapStep(s, Administer(Enable));
            (forall actions | NothingNew(actions) :: OverlapRun(e, actions).account.failed == 0)
            <==> WaitingRight(s)
  {
    var e := OverlapStep(s, Administer(Enable));
    if WaitingRight(s) {
      forall actions | NothingNew(actions) ensures OverlapRun(e, actions).account.failed == 0 {
        RightRun(e, actions);
      }
    } else {
      var i :| 0 <= i < |s.waiting| && s.waiting[i].Some? && !s.waiting[i].value.valid;
      OneWrite(e, i);
      assert NothingNew([Write(i)]);
    }
  }

  // ---------- runs in which a late write decides ----------

  lemma RunThree(s: State, a: seq<Action>)
    requires |a| == 3
    ensures OverlapRun(s, a) == OverlapStep(OverlapStep(OverlapStep(s, a[0]), a[1]), a[2])
  {
    assert a[..2][..1] == [a[0]] && a[..1][..0] == [];
    assert OverlapRun(s, a[..1]) == OverlapStep(s, a[0]);
    assert OverlapRun(s, a[..2]) == OverlapStep(OverlapStep(s, a[0]), a[1]);
  }

  /** An attempt that was under way undoes `disableUser`: the next right password is accepted. */
  lemma LateWriteUndoesDisable(now: int, next: int)
    requires 0 <= now <= next
    ensures var s := OverlapRun(Start(CLEAR), [Read(now, false), Administer(Disable), Write(0)]);
            s.account.lockedUntil == 0 && Judge(s.account, next, true) == Accepted
  {
    RunThree(Start(CLEAR), [Read(now, false), Administer(Disable), Write(0)]);
  }

  /** An attempt that was under way locks the account again right after `enableUser`. */
  lemma LateWriteUndoesEnable(now: int)
    ensures var s := OverlapRun(Start(Account(19, now, now)), [Read(now, false), Administer(Enable), Write(0)]);
            s.account == Account(20, now + 3600, now) && Judge(s.account, now, true) == Rejected
  {
    RunThree(Start(Account(19, now, now)), [Read(now, false), Administer(Enable), Write(0)]);
  }

  /** One attempt that reads first and writes last, and `n` failing ones in between. */
  function Around(n: nat): seq<Action> {
    if n == 0 then [Read(0, false)] else Around(n - 1) + [Read(LockSum(n - 1), false)] + [Write(n)]
  }

  ghost predicate IsAround(s: State, n: nat) {
    && |s.waiting| == n + 1 && s.waiting[0] == WAITING
    && s.account.failed == n && s.account.lockedUntil <= LockSum(n)
    && (n > 0 && LockFor(n) > 0 ==> s.account.lockedUntil == LockSum(n))
  }

  lemma AroundStep(s: State, n: nat)
    requires IsAround(s, n)
    ensures IsAround(OverlapStep(OverlapStep(s, Read(LockSum(n), false)), Write(n + 1)), n + 1)
  {
    var u := OverlapStep(s, Read(LockSum(n), false));
    assert u.waiting[n + 1] == Some(Pending(s.account, LockSum(n), false));
  }

  lemma AroundOneMore(before: seq<Action>, n: nat)
    requires IsAround(OverlapRun(Start(CLEAR), before), n)
    ensures IsAround(OverlapRun(Start(CLEAR), before + [Read(LockSum(n), false)] + [Write(n + 1)]), n + 1)
  {
    AroundStep(OverlapRun(Start(CLEAR), before), n);
    StepSnoc(Start(CLEAR), before, Read(LockSum(n), false));
    StepSnoc(Start(CLEAR), before + [Read(LockSum(n), false)], Write(n + 1));
  }

  lemma {:induction false} AroundRuns(n: nat)
    ensures IsAround(OverlapRun(Start(CLEAR), Around(n)), n)
  {
    if n == 0 {
      assert Around(0)[..0] == [];
    } else {
      AroundRuns(n - 1);
      AroundOneMore(Around(n - 1), n - 1);
    }
  }

  /** A stale failure lifts a lock: after twenty failures the account is locked for an hour,
      and the write of an attempt that had read the row before them takes lock and count away. */
  lemma LateWriteLiftsLock()
    ensures var s := OverlapRun(Start(CLEAR), Around(20));
            && s.account.failed == 20 && s.account.lockedUntil == 14400
            && OverlapRun(s, [Write(0)]).account == Account(1, 0, 0)
  {
    AroundRuns(20);
    LockSumFrom20(20);
    assert LockSum(20) == LockSum(19) + LockFor(20);
    OneWrite(OverlapRun(Start(CLEAR), Around(20)), 0);
  }

  // ---------- the methods ----------

  class User {
    var failed: nat
    var lockedUntil: int
    var lastFailed: int
    var waiting: seq<Option<Pending>>

    ghost function Row(): Account reads this {
      Account(failed, lockedUntil, lastFailed)
    }

    ghost function View(): State reads this {
      State(Row(), waiting)
    }

    /** `validateUser` from the select to its answer: the UPDATE is sent and not awaited. */
    method ReadRow(now: int, valid: bool) returns (verdict: Verdict)
      modifies this`waiting
      ensures View() == OverlapStep(old(View()), Read(now, valid))
      ensures verdict == Judge(Row(), now, valid)
    {
      if lockedUntil > now { return Rejected; }
      if valid {
        if failed > 0 {
          waiting := waiting + [Some(Pending(Account(failed, lockedUntil, lastFailed), now, true))];
        }
        return Accepted;
      }
      waiting := waiting + [Some(Pending(Account(failed, lockedUntil, lastFailed), now, false))];
      verdict := Refused;
    }

    /** The UPDATE of an attempt. */
    method WriteRow(i: nat)
      requires i < |waiting| && waiting[i].Some?
      modifies this
      ensures View() == OverlapStep(old(View()), Write(i))
      ensures var p, n := old(waiting)[i].value, old(waiting)[i].value.seen.failed + 1;
              if p.valid then failed == 0 && lockedUntil == 0 && lastFailed == old(lastFailed)
              else
                && failed == n && lastFailed == p.now
                && lockedUntil == (if n < 5 then 0 else if n < 10 then p.now + 60 else if n < 15 then p.now + 300
                                   else if n < 20 then p.now + 1800 else p.now + 3600)
    {
      var Pending(seen, now, valid) := waiting[i].value;
      waiting := waiting[i := None];
      if valid {
        failed, lockedUntil := 0, 0;
        return;
      }
      var newFailedCount := seen.failed + 1;
      var newLockedUntil := 0;
      if newFailedCount >= 20 {
        newLockedUntil := now + 3600;
      } else if newFailedCount >= 15 {
        newLockedUntil := now + 1800;
      } else if newFailedCount >= 10 {
        newLockedUntil := now + 300;
      } else if newFailedCount >= 5 {
        newLockedUntil := now + 60;
      }
      failed, lockedUntil, lastFailed := newFailedCount, newLockedUntil, now;
    }

    /** An attempt that nothing overlaps. */
    method ValidateUser(now: int, valid: bool) returns (verdict: Verdict)
      modifies this
      ensures Row() == Step(old(Row()), Attempt(now, valid))
      ensures verdict == Judge(old(Row()), now, valid)
    {
      var n := |waiting|;
      verdict := ReadRow(now, valid);
      if |waiting| > n { WriteRow(n); }
    }

    method DisableUser()
      modifies this`lockedUntil
      ensures View() == OverlapStep(old(View()), Administer(Disable))
      ensures lockedUntil == 9999999999
    {
      lockedUntil := DISABLED_UNTIL;
    }

    method EnableUser()
      modifies this`lockedUntil, this`failed
      ensures View() == OverlapStep(old(View()), Administer(Enable))
      ensures lockedUntil == 0 && failed == 0
    {
      lockedUntil, failed := 0, 0;
    }
  }
}
