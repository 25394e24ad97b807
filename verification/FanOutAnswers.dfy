/** Which answer the fan-out gives: the callback that takes the counter to zero decides between
    success and error by its own insert alone, so a success may list fewer names than were
    asked for. Every combination of outcomes, with every task last, is reached by some run. */
module FanOutAnswers {
  import opened Text
  import opened FanOutJoin

  lemma RunSnoc(names: seq<string>, actions: seq<Action>, a: Action)
    ensures Run(names, actions + [a]) == Step(names, Run(names, actions), a)
  {
    assert (actions + [a])[..|actions|] == actions;
  }

  // ---------- who answers ----------

  /** The task whose countdown took the counter from 1 to 0. */
  function Closer(names: seq<string>, actions: seq<Action>): Option<nat> {
    if actions == [] then None
    else
      var n := |actions| - 1;
      if Run(names, actions[..n]).remaining == 1 && Run(names, actions).remaining == 0 then Some(actions[n].i)
      else Closer(names, actions[..n])
  }

  lemma CloserSnoc(names: seq<string>, actions: seq<Action>, a: Action)
    ensures Closer(names, actions + [a]) ==
            if Run(names, actions).remaining == 1 && Run(names, actions + [a]).remaining == 0 then Some(a.i)
            else Closer(names, actions)
  {
    assert (actions + [a])[..|actions|] == actions;
  }

  ghost predicate CloserOk(names: seq<string>, s: State, closer: Option<nat>)
    requires |s.tasks| == |names|
  {
    && (closer.Some? <==> names != [] && s.remaining == 0)
    && (closer.Some? ==>
          && closer.value < |names|
          && if s.responses == [] then s.tasks[closer.value].Last?
             else
               var t := s.tasks[closer.value];
               t.Finished? && (s.responses[0] == Error <==> t.outcome == Failed))
  }

  /** Two different tasks are never both last. */
  lemma OneIsLast(names: seq<string>, s: State, i: nat, j: nat)
    requires CountsOk(names, s) && i < |names| && j < |names| && s.tasks[i].Last? && s.tasks[j].Last?
    ensures i == j
  {
    var others := s.tasks[i := NotIssued];
    CountUpdate(s.tasks, IsLast, i, NotIssued);
    CountAll(others, IsLast);
    assert !IsLast(others[j]);
  }

  /** With the counter at zero, the only step left is the answer. */
  lemma OnlyTheAnswerIsLeft(names: seq<string>, s: State, a: Action)
    requires CountsOk(names, s) && s.remaining == 0 && Step(names, s, a) != s
    ensures a.Respond? && a.i < |names| && s.tasks[a.i].Last? && s.responses == []
  {
    CountAll(s.tasks, CountedDown);
    assert CountedDown(s.tasks[a.i]);
    if s.responses != [] { AnsweredStays(names, s, a); }
  }

  lemma StepCloser(names: seq<string>, s: State, a: Action, closer: Option<nat>)
    requires CountsOk(names, s) && CloserOk(names, s, closer)
    ensures var t := Step(names, s, a);
            CloserOk(names, t, if s.remaining == 1 && t.remaining == 0 then Some(a.i) else closer)
  {
    var t := Step(names, s, a);
    if t != s && s.remaining == 0 {
      OnlyTheAnswerIsLeft(names, s, a);
      OneIsLast(names, s, a.i, closer.value);
    }
  }

  lemma {:induction false} CloserAlways(names: seq<string>, actions: seq<Action>)
    ensures CloserOk(names, Run(names, actions), Closer(names, actions))
  {
    if actions != [] {
      var n := |actions| - 1;
      CloserAlways(names, actions[..n]);
      InvAlways(names, actions[..n]);
      StepCloser(names, Run(names, actions[..n]), actions[n], Closer(names, actions[..n]));
    }
  }

  /** In every interleaving, the response is an error exactly when the insert of the task that
      took the counter to zero failed. */
  lemma {:induction false} ErrorExactly(names: seq<string>, actions: seq<Action>)
    requires Run(names, actions).responses != [] && names != []
    ensures var s, closer := Run(names, actions), Closer(names, actions);
            && closer.Some? && closer.value < |names|
            && (s.responses[0] == Error <==> s.tasks[closer.value] == Finished(Failed))
  {
    InvAlways(names, actions);
    CloserAlways(names, actions);
    CountAll(Run(names, actions).tasks, CountedDown);
  }

  // ---------- when a success is complete ----------

  lemma {:induction false} NamesSize(names: seq<string>, tasks: seq<Task>, p: Task -> bool, n: nat)
    requires n <= |names| == |tasks|
    ensures |NamesTo(names, tasks, p, n)| == CountTo(tasks, p, n)
  {
    if n > 0 { NamesSize(names, tasks, p, n - 1); }
  }

  lemma {:induction false} NamesOfAll(names: seq<string>, tasks: seq<Task>, p: Task -> bool, n: nat)
    requires n <= |names| == |tasks| && forall i | 0 <= i < |tasks| :: p(tasks[i])
    ensures NamesTo(names, tasks, p, n) == multiset(names[..n])
  {
    if n > 0 {
      NamesOfAll(names, tasks, p, n - 1);
      OneMoreName(names, n);
    }
  }

  lemma OneMoreName(names: seq<string>, n: nat)
    requires 0 < n <= |names|
    ensures multiset(names[..n]) == multiset(names[..n - 1]) + multiset{names[n - 1]}
  {
    assert names[..n] == names[..n - 1] + [names[n - 1]];
  }

  /** All names are listed exactly when all tasks satisfy the predicate. */
  lemma AllNamesExactly(names: seq<string>, tasks: seq<Task>, p: Task -> bool)
    requires |names| == |tasks|
    ensures Names(names, tasks, p) == multiset(names) <==> forall i | 0 <= i < |tasks| :: p(tasks[i])
  {
    if forall i | 0 <= i < |tasks| :: p(tasks[i]) { NamesOfAll(names, tasks, p, |names|); }
    assert names[..|names|] == names;
    NamesSize(names, tasks, p, |names|);
    CountAll(tasks, p);
    assert |multiset(names)| == |names|;
  }

  /** In every interleaving, a success lists all the names that were asked for exactly when
      every insert added its row. */
  lemma SuccessIsCompleteExactly(names: seq<string>, actions: seq<Action>)
    requires var r := Run(names, actions).responses; r != [] && r[0].Success?
    ensures var s := Run(names, actions);
            multiset(s.responses[0].names) == multiset(names)
            <==> forall i | 0 <= i < |names| :: s.tasks[i] == Finished(Inserted)
  {
    var s := Run(names, actions);
    InvAlways(names, actions);
    OneCompleteResponse(names, actions);
    AllNamesExactly(names, s.tasks, TookEffect);
    forall i | 0 <= i < |names| ensures TookEffect(s.tasks[i]) <==> s.tasks[i] == Finished(Inserted) {
      assert CountedDown(s.tasks[i]);
      CountAll(s.tasks, IsLast);
      assert !IsLast(s.tasks[i]);
    }
  }

  // ---------- every outcome is reached ----------

  /** All inserts are issued before the first completes. */
  lemma {:induction false} IssueAll(names: seq<string>, n: nat) returns (actions: seq<Action>)
    requires n <= |names|
    ensures Closer(names, actions) == None
    ensures Run(names, actions) == Initial(names).(tasks := seq(|names|, i => if i < n then Running else NotIssued))
  {
    if n == 0 {
      actions := [];
      assert Initial(names).tasks == seq(|names|, i => if i < n then Running else NotIssued);
    } else {
      actions := IssueAll(names, n - 1);
      var s := Run(names, actions);
      RunSnoc(names, actions, Issue(n - 1));
      CloserSnoc(names, actions, Issue(n - 1));
      actions := actions + [Issue(n - 1)];
      assert s.tasks[n - 1 := Running] == seq(|names|, i => if i < n then Running else NotIssued);
    }
  }

  /** A running task completes, pushes its name if it added a row, and counts down. */
  lemma FinishOne(names: seq<string>, before: seq<Action>, i: nat, outcome: Outcome) returns (actions: seq<Action>)
    requires i < |names| && Run(names, before).tasks[i] == Running && Run(names, before).remaining >= 1
    ensures var s, t, last := Run(names, before), Run(names, actions), Run(names, before).remaining == 1;
            && t.tasks == s.tasks[i := if last then Last(outcome) else Finished(outcome)]
            && t.remaining == s.remaining - 1 && t.responses == s.responses
            && Closer(names, actions) == if last then Some(i) else Closer(names, before)
  {
    actions := before + [Complete(i, outcome)];
    RunSnoc(names, before, Complete(i, outcome));
    CloserSnoc(names, before, Complete(i, outcome));
    if outcome == Inserted {
      RunSnoc(names, actions, Push(i));
      CloserSnoc(names, actions, Push(i));
      actions := actions + [Push(i)];
    }
    RunSnoc(names, actions, Decrement(i));
    CloserSnoc(names, actions, Decrement(i));
    actions := actions + [Decrement(i)];
  }

  /** The tasks before position `n` have finished, but for the one that is to be last. */
  function FinishedUpTo(outcomes: seq<Outcome>, n: nat, last: nat): (tasks: seq<Task>)
    ensures |tasks| == |outcomes|
  {
    seq(|outcomes|, i requires 0 <= i < |outcomes| => if i < n && i != last then Finished(outcomes[i]) else Running)
  }

  lemma {:induction false} FinishOthers(names: seq<string>, outcomes: seq<Outcome>, n: nat, last: nat)
    returns (actions: seq<Action>)
    requires |outcomes| == |names| && n <= |names| && last < |names|
    ensures var s := Run(names, actions);
            && Closer(names, actions) == None && s.responses == []
            && s.tasks == FinishedUpTo(outcomes, n, last)
            && s.remaining == |names| - n + (if last < n then 1 else 0)
  {
    if n == 0 {
      actions := IssueAll(names, |names|);
      assert Run(names, actions).tasks == FinishedUpTo(outcomes, n, last);
    } else {
      actions := FinishOthers(names, outcomes, n - 1, last);
      if n - 1 != last {
        actions := FinishOne(names, actions, n - 1, outcomes[n - 1]);
      }
      assert Run(names, actions).tasks == FinishedUpTo(outcomes, n, last);
    }
  }

  /** Whatever the outcomes of the inserts and whichever task is to be the last, some run ends
      with these outcomes, that task last, and an answer. */
  lemma EveryOutcomeIsReached(names: seq<string>, outcomes: seq<Outcome>, last: nat) returns (actions: seq<Action>)
    requires |outcomes| == |names| && last < |names|
    ensures var s := Run(names, actions);
            && s.responses != [] && Closer(names, actions) == Some(last)
            && forall i | 0 <= i < |names| :: s.tasks[i] == Finished(outcomes[i])
  {
    actions := FinishOthers(names, outcomes, |names|, last);
    actions := FinishOne(names, actions, last, outcomes[last]);
    RunSnoc(names, actions, Respond(last));
    CloserSnoc(names, actions, Respond(last));
    actions := actions + [Respond(last)];
  }

  /** A success that leaves names out: for any names and any task whose insert fails, as long
      as another one succeeds and comes last. */
  lemma PartialSuccess(names: seq<string>, failing: nat, last: nat) returns (actions: seq<Action>)
    requires failing < |names| && last < |names| && failing != last
    ensures var s := Run(names, actions);
            && s.responses != [] && s.responses[0].Success? && s.tasks[failing] == Finished(Failed)
            && multiset(s.responses[0].names) != multiset(names)
  {
    var outcomes := seq(|names|, i => if i == failing then Failed else Inserted);
    actions := EveryOutcomeIsReached(names, outcomes, last);
    ErrorExactly(names, actions);
    SuccessIsCompleteExactly(names, actions);
    assert Run(names, actions).tasks[failing] == Finished(outcomes[failing]);
  }
}
