/** The fan-out of AdminController.cc (`assignUserRoles`, `updateClientScopes`): one insert per
    name is issued, they complete in any order, and their callbacks share an atomic counter
    and a locked list; the callback that counts down to zero answers the request. */
module FanOutJoin {

  /** How an insert ended: it added a row, it added none, or the database refused it. */
  datatype Outcome = Inserted | NoRow | Failed

  /** One insert and its callback, by how far it has come. */
  datatype Task =
    | NotIssued
    | Running
    | Returned(outcome: Outcome)  // the callback runs
    | Pushed                      // it has added its name to the list
    | Last(outcome: Outcome)      // it has taken the counter from 1 to 0
    | Finished(outcome: Outcome)

  datatype Response = Success(names: seq<string>) | Error

  datatype State = State(tasks: seq<Task>, remaining: int, list: seq<string>, responses: seq<Response>)

  datatype Action =
    | Issue(i: nat)
    | Complete(i: nat, outcome: Outcome)
    | Push(i: nat)
    | Decrement(i: nat)
    | Respond(i: nat)

  /** The counter starts at the number of names; without names the answer is immediate. */
  function Initial(names: seq<string>): State {
    State(seq(|names|, i => NotIssued), |names|, [], if names == [] then [Success([])] else [])
  }

  predicate Issued(t: Task) {
    !t.NotIssued?
  }

  /** One atomic step: inserts are issued in the order of the loop, everything else happens
      in any order. A step a task is not ready for changes nothing. */
  function Step(names: seq<string>, s: State, a: Action): State
    requires |s.tasks| == |names|
  {
    if a.i >= |names| then s
    else match (a, s.tasks[a.i])
      case (Issue(i), NotIssued) =>
        if i == 0 || Issued(s.tasks[i - 1]) then s.(tasks := s.tasks[i := Running]) else s
      case (Complete(i, outcome), Running) => s.(tasks := s.tasks[i := Returned(outcome)])
      case (Push(i), Returned(Inserted)) => s.(tasks := s.tasks[i := Pushed], list := s.list + [names[i]])
      case (Decrement(i), Pushed) => CountDown(s, i, Inserted)
      case (Decrement(i), Returned(NoRow)) => CountDown(s, i, NoRow)
      case (Decrement(i), Returned(Failed)) => CountDown(s, i, Failed)
      case (Respond(i), Last(outcome)) =>
        s.(tasks := s.tasks[i := Finished(outcome)],
           responses := s.responses + [if outcome == Failed then Error else Success(s.list)])
      case _ => s
  }

  /** `fetch_sub`: the old value decides who answers. */
  function CountDown(s: State, i: nat, outcome: Outcome): State
    requires i < |s.tasks|
  {
    s.(tasks := s.tasks[i := if s.remaining == 1 then Last(outcome) else Finished(outcome)],
       remaining := s.remaining - 1)
  }

  function Run(names: seq<string>, actions: seq<Action>): (s: State)
    ensures |s.tasks| == |names|
  {
    if actions == [] then Initial(names)
    else Step(names, Run(names, actions[..|actions| - 1]), actions[|actions| - 1])
  }

  // ---------- counting ----------

  /** Whether the insert of a task has taken effect. */
  predicate TookEffect(t: Task) {
    t == Returned(Inserted) || t == Pushed || t == Last(Inserted) || t == Finished(Inserted)
  }

  predicate IsListed(t: Task) {
    t == Pushed || t == Last(Inserted) || t == Finished(Inserted)
  }

  predicate CountedDown(t: Task) {
    t.Last? || t.Finished?
  }

  predicate IsLast(t: Task) {
    t.Last?
  }

  function Count(tasks: seq<Task>, p: Task -> bool): nat {
    CountTo(tasks, p, |tasks|)
  }

  function CountTo(tasks: seq<Task>, p: Task -> bool, n: nat): (r: nat)
    requires n <= |tasks|
  {
    if n == 0 then 0 else CountTo(tasks, p, n - 1) + (if p(tasks[n - 1]) then 1 else 0)
  }

  function One(listed: bool, name: string): multiset<string> {
    if listed then multiset{name} else multiset{}
  }

  /** The names of the tasks that satisfy `p`, with multiplicity. */
  function Names(names: seq<string>, tasks: seq<Task>, p: Task -> bool): multiset<string>
    requires |names| == |tasks|
  {
    NamesTo(names, tasks, p, |tasks|)
  }

  function NamesTo(names: seq<string>, tasks: seq<Task>, p: Task -> bool, n: nat): multiset<string>
    requires n <= |names| == |tasks|
  {
    if n == 0 then multiset{} else NamesTo(names, tasks, p, n - 1) + One(p(tasks[n - 1]), names[n - 1])
  }

  lemma CountUpdate(tasks: seq<Task>, p: Task -> bool, i: nat, t: Task)
    requires i < |tasks|
    ensures Count(tasks[i := t], p) == Count(tasks, p) - (if p(tasks[i]) then 1 else 0) + (if p(t) then 1 else 0)
  {
    CountToUpdate(tasks, p, i, t, |tasks|);
  }

  lemma {:induction false} CountToUpdate(tasks: seq<Task>, p: Task -> bool, i: nat, t: Task, n: nat)
    requires n <= |tasks| && i < |tasks|
    ensures CountTo(tasks[i := t], p, n) - CountTo(tasks, p, n)
            == if i < n then (if p(t) then 1 else 0) - (if p(tasks[i]) then 1 else 0) else 0
  {
    if n > 0 { CountToUpdate(tasks, p, i, t, n - 1); }
  }

  lemma NamesUpdate(names: seq<string>, tasks: seq<Task>, p: Task -> bool, i: nat, t: Task)
    requires |names| == |tasks| && i < |tasks|
    ensures Names(names, tasks[i := t], p) + One(p(tasks[i]), names[i])
            == Names(names, tasks, p) + One(p(t), names[i])
  {
    NamesToUpdate(names, tasks, p, i, t, |tasks|);
  }

  lemma {:induction false} NamesToUpdate(names: seq<string>, tasks: seq<Task>, p: Task -> bool, i: nat, t: Task, n: nat)
    requires n <= |names| == |tasks| && i < |tasks|
    ensures var after, before := NamesTo(names, tasks[i := t], p, n), NamesTo(names, tasks, p, n);
            if i < n then after + One(p(tasks[i]), names[i]) == before + One(p(t), names[i]) else after == before
  {
    if n > 0 {
      var m := n - 1;
      NamesToUpdate(names, tasks, p, i, t, m);
      var after, before := NamesTo(names, tasks[i := t], p, m), NamesTo(names, tasks, p, m);
      if i < m {
        AddToBoth(after, before, One(p(tasks[i]), names[i]), One(p(t), names[i]), One(p(tasks[m]), names[m]));
      } else if i == m {
        SwapLast(before, One(p(tasks[i]), names[i]), One(p(t), names[i]));
      }
    }
  }

  lemma AddToBoth<T>(a: multiset<T>, b: multiset<T>, x: multiset<T>, y: multiset<T>, z: multiset<T>)
    requires a + x == b + y
    ensures (a + z) + x == (b + z) + y
  {
    assert (a + z) + x == (a + x) + z;
    assert (b + z) + y == (b + y) + z;
  }

  lemma SwapLast(a: multiset<string>, x: multiset<string>, y: multiset<string>)
    ensures (a + y) + x == (a + x) + y
  {}

  lemma CountAll(tasks: seq<Task>, p: Task -> bool)
    ensures Count(tasks, p) <= |tasks|
    ensures Count(tasks, p) == |tasks| <==> forall i | 0 <= i < |tasks| :: p(tasks[i])
    ensures Count(tasks, p) == 0 <==> forall i | 0 <= i < |tasks| :: !p(tasks[i])
  {
    CountToAll(tasks, p, |tasks|);
  }

  lemma {:induction false} CountToAll(tasks: seq<Task>, p: Task -> bool, n: nat)
    requires n <= |tasks|
    ensures CountTo(tasks, p, n) <= n
    ensures CountTo(tasks, p, n) == n <==> forall i | 0 <= i < n :: p(tasks[i])
    ensures CountTo(tasks, p, n) == 0 <==> forall i | 0 <= i < n :: !p(tasks[i])
  {
    if n > 0 { CountToAll(tasks, p, n - 1); }
  }

  lemma {:induction false} NamesAgree(names: seq<string>, tasks: seq<Task>, p: Task -> bool, q: Task -> bool, n: nat)
    requires n <= |names| == |tasks| && forall i | 0 <= i < |tasks| :: p(tasks[i]) == q(tasks[i])
    ensures NamesTo(names, tasks, p, n) == NamesTo(names, tasks, q, n)
  {
    if n > 0 { NamesAgree(names, tasks, p, q, n - 1); }
  }

  lemma {:induction false} NoNamesTo(names: seq<string>, tasks: seq<Task>, p: Task -> bool, n: nat)
    requires n <= |names| == |tasks| && forall i | 0 <= i < |tasks| :: !p(tasks[i])
    ensures NamesTo(names, tasks, p, n) == multiset{}
  {
    if n > 0 { NoNamesTo(names, tasks, p, n - 1); }
  }

  lemma NothingYet(names: seq<string>, tasks: seq<Task>, p: Task -> bool)
    requires |names| == |tasks| && forall i | 0 <= i < |tasks| :: !p(tasks[i])
    ensures Names(names, tasks, p) == multiset{} && Count(tasks, p) == 0
  {
    NoNamesTo(names, tasks, p, |tasks|);
    CountAll(tasks, p);
  }

  // ---------- the invariant ----------

  ghost predicate CountsOk(names: seq<string>, s: State) {
    && |s.tasks| == |names|
    && s.remaining == |names| - Count(s.tasks, CountedDown)
    && Count(s.tasks, IsLast) + |s.responses| == (if s.remaining == 0 then 1 else 0)
  }

  ghost predicate ListOk(names: seq<string>, s: State) {
    && |s.tasks| == |names|
    && multiset(s.list) == Names(names, s.tasks, IsListed)
  }

  ghost predicate Inv(names: seq<string>, s: State) {
    && CountsOk(names, s) && ListOk(names, s)
    && (s.responses != [] && s.responses[0].Success? ==> s.responses[0].names == s.list)
  }

  lemma InitialInv(names: seq<string>)
    ensures Inv(names, Initial(names))
  {
    var s := Initial(names);
    NothingYet(names, s.tasks, CountedDown);
    NothingYet(names, s.tasks, IsListed);
    NothingYet(names, s.tasks, IsLast);
  }

  lemma StepCounts(names: seq<string>, s: State, a: Action)
    requires CountsOk(names, s)
    ensures CountsOk(names, Step(names, s, a))
  {
    var u := Step(names, s, a);
    if u != s {
      var t := u.tasks[a.i];
      assert u.tasks == s.tasks[a.i := t];
      CountUpdate(s.tasks, CountedDown, a.i, t);
      CountUpdate(s.tasks, IsLast, a.i, t);
      CountAll(s.tasks, CountedDown);
    }
  }

  lemma Cancel(a: multiset<string>, b: multiset<string>, c: multiset<string>)
    requires a + c == b + c
    ensures a == b
  {
    assert a == (a + c) - c;
    assert b == (b + c) - c;
  }

  /** Replacing a task: the listed names stay, or gain one. */
  lemma ListedUpdate(names: seq<string>, tasks: seq<Task>, i: nat, t: Task)
    requires |names| == |tasks| && i < |tasks| && (IsListed(tasks[i]) ==> IsListed(t))
    ensures Names(names, tasks[i := t], IsListed) ==
            Names(names, tasks, IsListed) + One(IsListed(t) && !IsListed(tasks[i]), names[i])
  {
    NamesUpdate(names, tasks, IsListed, i, t);
    if IsListed(tasks[i]) == IsListed(t) {
      Cancel(Names(names, tasks[i := t], IsListed), Names(names, tasks, IsListed), One(IsListed(t), names[i]));
    }
  }

  /** A step changes one task; a push lists its name, and nothing else does. */
  lemma StepShape(names: seq<string>, s: State, a: Action)
    requires |s.tasks| == |names| && Step(names, s, a) != s
    ensures var u := Step(names, s, a);
            && a.i < |names| && u.tasks == s.tasks[a.i := u.tasks[a.i]]
            && (IsListed(s.tasks[a.i]) ==> IsListed(u.tasks[a.i]))
            && (a.Push? <==> IsListed(u.tasks[a.i]) && !IsListed(s.tasks[a.i]))
            && u.list == if a.Push? then s.list + [names[a.i]] else s.list
  {}

  lemma StepList(names: seq<string>, s: State, a: Action)
    requires ListOk(names, s)
    ensures ListOk(names, Step(names, s, a))
  {
    var u := Step(names, s, a);
    if u != s {
      StepShape(names, s, a);
      ListedUpdate(names, s.tasks, a.i, u.tasks[a.i]);
      ListGrows(s.list, names[a.i], a.Push?, u.list);
    }
  }

  lemma ListGrows(list: seq<string>, name: string, push: bool, longer: seq<string>)
    requires longer == if push then list + [name] else list
    ensures multiset(longer) == multiset(list) + One(push, name)
  {}

  /** Once a response is sent no name is added to the list. */
  lemma AnsweredStays(names: seq<string>, s: State, a: Action)
    requires CountsOk(names, s) && s.responses != []
    ensures Step(names, s, a) == s
  {
    CountAll(s.tasks, CountedDown);
    CountAll(s.tasks, IsLast);
    if a.i < |names| { assert CountedDown(s.tasks[a.i]) && !IsLast(s.tasks[a.i]); }
  }

  lemma {:induction false} StepInv(names: seq<string>, s: State, a: Action)
    requires Inv(names, s)
    ensures Inv(names, Step(names, s, a))
  {
    StepCounts(names, s, a);
    StepList(names, s, a);
    if s.responses != [] { AnsweredStays(names, s, a); }
  }

  lemma {:induction false} InvAlways(names: seq<string>, actions: seq<Action>)
    ensures Inv(names, Run(names, actions))
  {
    if actions == [] {
      InitialInv(names);
    } else {
      InvAlways(names, actions[..|actions| - 1]);
      StepInv(names, Run(names, actions[..|actions| - 1]), actions[|actions| - 1]);
    }
  }

  // ---------- the promises ----------

  /** In every interleaving at most one response is sent, only after every insert has
      completed, and a success lists exactly the names whose insert took effect. */
  lemma {:induction false} OneCompleteResponse(names: seq<string>, actions: seq<Action>)
    ensures var s := Run(names, actions);
            && |s.responses| <= 1
            && (s.responses != [] ==>
                  && (forall i | 0 <= i < |names| :: CountedDown(s.tasks[i]))
                  && (s.responses[0].Success? ==> multiset(s.responses[0].names) == Names(names, s.tasks, TookEffect)))
  {
    InvAlways(names, actions);
    var s := Run(names, actions);
    CountAll(s.tasks, CountedDown);
    if s.responses != [] {
      forall i | 0 <= i < |names| ensures IsListed(s.tasks[i]) == TookEffect(s.tasks[i]) {
        assert CountedDown(s.tasks[i]);
      }
      NamesAgree(names, s.tasks, IsListed, TookEffect, |names|);
    }
  }

  /** A task that has not finished lets some step change the state, so nothing blocks. */
  lemma SomeStepIsEnabled(names: seq<string>, s: State) returns (a: Action)
    requires Inv(names, s) && exists i :: 0 <= i < |names| && !s.tasks[i].Finished?
    ensures Step(names, s, a) != s
  {
    var i :| 0 <= i < |names| && !s.tasks[i].Finished?;
    match s.tasks[i] {
      case NotIssued =>
        var j := i;
        while j > 0 && s.tasks[j - 1].NotIssued?
          invariant 0 <= j <= i && s.tasks[j].NotIssued?
        {
          j := j - 1;
        }
        a := Issue(j);
      case Running => a := Complete(i, Inserted);
      case Returned(Inserted) => a := Push(i);
      case Returned(_) => a := Decrement(i);
      case Pushed => a := Decrement(i);
      case Last(_) => a := Respond(i);
    }
    var t := Step(names, s, a).tasks[a.i];
    assert t != s.tasks[a.i];
  }

  function Left(t: Task): nat {
    match t
    case NotIssued => 5
    case Running => 4
    case Returned(_) => 3
    case Pushed => 2
    case Last(_) => 1
    case Finished(_) => 0
  }

  function Work(tasks: seq<Task>): nat {
    if tasks == [] then 0 else Work(tasks[..|tasks| - 1]) + Left(tasks[|tasks| - 1])
  }

  lemma {:induction false} WorkUpdate(tasks: seq<Task>, i: nat, t: Task)
    requires i < |tasks|
    ensures Work(tasks[i := t]) == Work(tasks) - Left(tasks[i]) + Left(t)
  {
    var n := |tasks| - 1;
    if i < n {
      WorkUpdate(tasks[..n], i, t);
      assert tasks[i := t][..n] == tasks[..n][i := t];
    } else {
      assert tasks[i := t][..n] == tasks[..n];
    }
  }

  /** Every step that changes something uses up work, so every run that is not cut short ends. */
  lemma StepsUseUpWork(names: seq<string>, s: State, a: Action)
    requires |s.tasks| == |names|
    ensures var u := Step(names, s, a); u != s ==> Work(u.tasks) < Work(s.tasks)
  {
    var u := Step(names, s, a);
    if u != s {
      assert u.tasks == s.tasks[a.i := u.tasks[a.i]];
      WorkUpdate(s.tasks, a.i, u.tasks[a.i]);
    }
  }

  /** A run that can go no further has sent exactly one response. */
  lemma QuietMeansAnswered(names: seq<string>, actions: seq<Action>)
    requires forall a :: Step(names, Run(names, actions), a) == Run(names, actions)
    ensures |Run(names, actions).responses| == 1
  {
    InvAlways(names, actions);
    var s := Run(names, actions);
    if exists i :: 0 <= i < |names| && !s.tasks[i].Finished? {
      var a := SomeStepIsEnabled(names, s);
    }
    CountAll(s.tasks, CountedDown);
    CountAll(s.tasks, IsLast);
  }

  // ---------- the shared state of the callbacks ----------

  function After(names: seq<string>, s: State, actions: seq<Action>): (t: State)
    requires |s.tasks| == |names|
    ensures |t.tasks| == |names|
  {
    if actions == [] then s
    else Step(names, After(names, s, actions[..|actions| - 1]), actions[|actions| - 1])
  }

  lemma {:induction false} RunAfter(names: seq<string>, a: seq<Action>, b: seq<Action>)
    ensures Run(names, a + b) == After(names, Run(names, a), b)
  {
    if b == [] {
      assert a + b == a;
    } else {
      var n := |b| - 1;
      RunAfter(names, a, b[..n]);
      assert (a + b)[..|a + b| - 1] == a + b[..n];
    }
  }

  predicate NoIssue(actions: seq<Action>) {
    forall a <- actions :: !a.Issue?
  }

  /** The inserts before number `n`, each with what happens before the next one is issued. */
  function Interleaved(callbacks: seq<seq<Action>>, n: nat): seq<Action>
    requires n <= |callbacks|
  {
    if n == 0 then [] else Interleaved(callbacks, n - 1) + [Issue(n - 1)] + callbacks[n - 1]
  }

  class Join {
    const names: seq<string>
    var tasks: seq<Task>
    var remaining: int
    var list: seq<string>
    var responses: seq<Response>

    ghost function View(): State reads this {
      State(tasks, remaining, list, responses)
    }

    constructor (names: seq<string>)
      ensures this.names == names && View() == Initial(names)
    {
      this.names := names;
      tasks := seq(|names|, i => NotIssued);
      remaining := |names|;
      list := [];
      responses := if names == [] then [Success([])] else [];
    }

    /** One insert is issued. */
    method IssueNext(i: nat)
      requires |tasks| == |names| && i < |names| && tasks[i].NotIssued? && (i == 0 || Issued(tasks[i - 1]))
      modifies this`tasks
      ensures View() == Step(names, old(View()), Issue(i))
    {
      tasks := tasks[i := Running];
    }

    /** The loop that issues the inserts; in `callbacks` stands what the database and the
        callbacks of the issued ones do before the next is issued. */
    method IssueInserts(callbacks: seq<seq<Action>>)
      requires View() == Initial(names) && |callbacks| == |names|
      requires forall c <- callbacks :: NoIssue(c)
      modifies this
      ensures View() == Run(names, Interleaved(callbacks, |names|))
    {
      for i := 0 to |names|
        invariant |tasks| == |names| && View() == Run(names, Interleaved(callbacks, i))
        invariant forall j | 0 <= j < |names| :: Issued(tasks[j]) <==> j < i
      {
        ghost var before := Interleaved(callbacks, i);
        IssueNext(i);
        RunAfter(names, before, [Issue(i)]);
        assert callbacks[i] in callbacks;
        RunCallbacks(callbacks[i]);
        RunAfter(names, before + [Issue(i)], callbacks[i]);
      }
    }

    /** Steps of the database and of the callbacks, in any order. */
    method RunCallbacks(actions: seq<Action>)
      requires |tasks| == |names| && NoIssue(actions)
      modifies this
      ensures View() == After(names, old(View()), actions)
      ensures |tasks| == |names| && forall j | 0 <= j < |tasks| :: Issued(tasks[j]) <==> Issued(old(tasks[j]))
    {
      for k := 0 to |actions|
        invariant |tasks| == |names| && View() == After(names, old(View()), actions[..k])
        invariant forall j | 0 <= j < |tasks| :: Issued(tasks[j]) <==> Issued(old(tasks[j]))
      {
        assert actions[..k + 1][..k] == actions[..k];
        assert !actions[k].Issue?;
        RunCallback(actions[k]);
      }
      assert actions[..|actions|] == actions;
    }

    method RunCallback(a: Action)
      requires |tasks| == |names| && !a.Issue?
      modifies this
      ensures View() == Step(names, old(View()), a)
      ensures |tasks| == |names| && forall j | 0 <= j < |tasks| :: Issued(tasks[j]) <==> Issued(old(tasks[j]))
    {
      if a.i >= |names| { return; }
      match (a, tasks[a.i]) {
        case (Complete(i, outcome), Running) => tasks := tasks[i := Returned(outcome)];
        case (Push(i), Returned(Inserted)) => AddName(i);
        case (Decrement(i), Pushed) => var _ := FetchSub(i, Inserted);
        case (Decrement(i), Returned(NoRow)) => var _ := FetchSub(i, NoRow);
        case (Decrement(i), Returned(Failed)) => var _ := FetchSub(i, Failed);
        case (Respond(i), Last(_)) => Answer(i);
        case _ =>
      }
    }

    /** The locked part of the success callback. */
    method AddName(i: nat)
      requires |tasks| == |names| && i < |names| && tasks[i] == Returned(Inserted)
      modifies this`tasks, this`list
      ensures View() == Step(names, old(View()), Push(i))
    {
      list := list + [names[i]];
      tasks := tasks[i := Pushed];
    }

    /** The counter; `last` is what the old value tells the callback. */
    method FetchSub(i: nat, outcome: Outcome) returns (last: bool)
      requires |tasks| == |names| && i < |names|
      requires tasks[i] == if outcome == Inserted then Pushed else Returned(outcome)
      modifies this`tasks, this`remaining
      ensures View() == Step(names, old(View()), Decrement(i))
      ensures last <==> tasks[i] == Last(outcome)
    {
      last := remaining == 1;
      remaining := remaining - 1;
      tasks := tasks[i := if last then Last(outcome) else Finished(outcome)];
    }

    method Answer(i: nat)
      requires |tasks| == |names| && i < |names| && tasks[i].Last?
      modifies this`tasks, this`responses
      ensures View() == Step(names, old(View()), Respond(i))
    {
      responses := responses + [if tasks[i].outcome == Failed then Error else Success(list)];
      tasks := tasks[i := Finished(tasks[i].outcome)];
    }
  }
}
