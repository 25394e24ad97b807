/** How many token pairs a device code can still bring. The row of a code is deleted after its
    tokens are saved and nobody waits for it, so a code is not good for one pair only. In a
    state that some run reaches, the most that any continuation brings is known exactly. */
module DevicePairs {
  import opened Text
  import opened DeviceGrant

  function Pairs(s: State, code: Code): nat {
    About(s.log, code).pairs
  }

  /** Further polls can still be served: the row is approved or can be, and not expired, or
      the code has not been inserted yet. */
  predicate Open(s: State, code: Code) {
    && code != ""
    && if code in s.rows then
         var row := s.rows[code];
         s.clock < row.expiresAt && (row.status == Approved || (row.status == Pending && row.userCode != ""))
       else About(s.log, code).row == None
  }

  /** A poll that brings a pair whatever happens to the row: its tokens are being saved, or
      what it has read is good enough at this time. */
  predicate IsReady(poll: Poll, code: Code, clock: int) {
    match poll
    case Selected(c, client, found) => c == code && Answered(found, client, clock) == Tokens
    case Saving(pair) => pair.code == code
    case Deleting(_) => false
    case Done(_) => false
  }

  function Ready(s: State, code: Code): set<nat> {
    set p: nat | p < |s.polls| && IsReady(s.polls[p], code, s.clock)
  }

  lemma {:induction false} RunConcat(s: State, a: seq<Action>, b: seq<Action>)
    ensures Run(s, a + b) == Run(Run(s, a), b)
  {
    if b == [] {
      assert a + b == a;
    } else {
      var n := |b| - 1;
      RunConcat(s, a, b[..n]);
      assert (a + b)[..|a + b| - 1] == a + b[..n];
    }
  }

  lemma RunOne(s: State, a: Action)
    ensures Run(s, [a]) == Step(s, a)
  {
    assert [a][..0] == [];
  }

  lemma {:induction false} RunKeeps(s: State, actions: seq<Action>)
    requires Inv(s)
    ensures Inv(Run(s, actions))
  {
    if actions != [] {
      RunKeeps(s, actions[..|actions| - 1]);
      StepKeeps(Run(s, actions[..|actions| - 1]), actions[|actions| - 1]);
    }
  }

  // ---------- once closed, only the ready polls bring pairs ----------

  /** Only inserts, approvals and deletions touch a row. */
  lemma RowStays(s: State, a: Action, code: Code)
    requires !a.Insert? && !a.Approve? && !a.Delete?
    ensures var t := Step(s, a);
            t.rows == s.rows && t.clock >= s.clock && About(t.log, code).row == About(s.log, code).row
  {
    LogGrows(s, a, code);
  }

  lemma ClosedStays(s: State, a: Action, code: Code)
    requires Inv(s) && !Open(s, code)
    ensures !Open(Step(s, a), code)
  {
    assert CodeOk(s, code);
    if !a.Insert? && !a.Approve? && !a.Delete? {
      RowStays(s, a, code);
    } else {
      LogGrows(s, a, code);
      if a.Delete? && Step(s, a) != s { assert PollOk(s.log, a.poll, s.polls[a.poll], s.clock); }
    }
  }

  lemma PairsOnlyBySaving(s: State, a: Action, code: Code)
    requires a.Save? ==> !Serves(s, a.poll, code)
    ensures Pairs(Step(s, a), code) == Pairs(s, code)
  {
    LogGrows(s, a, code);
  }

  lemma NoPollGetsReady(s: State, a: Action, code: Code, p: nat)
    requires Inv(s) && !Open(s, code) && p in Ready(Step(s, a), code)
    ensures p in Ready(s, code)
  {
    if p == |s.polls| {
      assert CodeOk(s, code);
      assert a.Select? && a.code == code && Open(s, code);
    }
  }

  /** A step that issues no pair for the code makes no poll ready. */
  lemma {:induction false} QuietStep(s: State, a: Action, code: Code)
    requires Inv(s) && !Open(s, code) && (a.Save? ==> !Serves(s, a.poll, code))
    ensures Pairs(Step(s, a), code) == Pairs(s, code) && Ready(Step(s, a), code) <= Ready(s, code)
  {
    PairsOnlyBySaving(s, a, code);
    forall p | p in Ready(Step(s, a), code) ensures p in Ready(s, code) {
      NoPollGetsReady(s, a, code, p);
    }
  }

  predicate Serves(s: State, p: nat, code: Code) {
    p < |s.polls| && s.polls[p].Saving? && s.polls[p].pair.code == code
  }

  lemma ServingStep(s: State, p: nat, code: Code)
    requires Serves(s, p, code)
    ensures var t := Step(s, Save(p));
            && Pairs(t, code) == Pairs(s, code) + 1 && Ready(t, code) == Ready(s, code) - {p}
            && t.rows == s.rows && t.clock == s.clock && About(t.log, code).window == About(s.log, code).window
  {
    Snoc(s.log, Issued(s.polls[p].pair), code);
  }

  lemma StepUsesReady(s: State, a: Action, code: Code)
    requires Inv(s) && !Open(s, code)
    ensures var t := Step(s, a);
            Pairs(t, code) + |Ready(t, code)| <= Pairs(s, code) + |Ready(s, code)|
  {
    if a.Save? && Serves(s, a.poll, code) {
      ServingStep(s, a.poll, code);
    } else {
      QuietStep(s, a, code);
      SubsetSize(Ready(Step(s, a), code), Ready(s, code));
    }
  }

  lemma {:induction false} ClosedBound(s: State, more: seq<Action>, code: Code)
    requires Inv(s) && !Open(s, code)
    ensures var t := Run(s, more);
            !Open(t, code) && Pairs(t, code) + |Ready(t, code)| <= Pairs(s, code) + |Ready(s, code)|
  {
    if more != [] {
      var before := more[..|more| - 1];
      ClosedBound(s, before, code);
      RunKeeps(s, before);
      ClosedStays(Run(s, before), more[|more| - 1], code);
      StepUsesReady(Run(s, before), more[|more| - 1], code);
    }
  }

  // ---------- the ready polls do bring them ----------

  lemma DecidedIsSaving(s: State, p: nat, code: Code)
    requires p in Ready(s, code) && s.polls[p].Selected?
    ensures var t := Step(s, Decide(p));
            && Serves(t, p, code) && Ready(t, code) == Ready(s, code) && Pairs(t, code) == Pairs(s, code)
            && t.rows == s.rows && t.clock == s.clock && t.log == s.log
  {
    var t := Step(s, Decide(p));
    assert forall q: nat | q < |s.polls| && q != p :: t.polls[q] == s.polls[q];
  }

  lemma {:induction false} Drain(s: State, code: Code) returns (more: seq<Action>)
    ensures Pairs(Run(s, more), code) == Pairs(s, code) + |Ready(s, code)|
    decreases |Ready(s, code)|
  {
    if Ready(s, code) == {} { return []; }
    var p :| p in Ready(s, code);
    var first := if s.polls[p].Selected? then [Decide(p)] else [];
    var t := Run(s, first);
    if s.polls[p].Selected? {
      RunOne(s, Decide(p));
      DecidedIsSaving(s, p, code);
    }
    ServingStep(t, p, code);
    RunOne(t, Save(p));
    var rest := Drain(Step(t, Save(p)), code);
    RunConcat(s, first, [Save(p)]);
    RunConcat(s, first + [Save(p)], rest);
    more := first + [Save(p)] + rest;
  }

  // ---------- an open code brings any number ----------

  predicate CanPoll(s: State, code: Code) {
    code != "" && code in s.rows && s.rows[code].status == Approved && s.clock < s.rows[code].expiresAt
  }

  /** One poll from select to save, before any deletion. */
  function OnePoll(s: State, code: Code): seq<Action>
    requires CanPoll(s, code)
  {
    [Select(code, s.rows[code].client), Decide(|s.polls|), Save(|s.polls|)]
  }

  lemma SelectGetsReady(s: State, code: Code)
    requires Inv(s) && CanPoll(s, code)
    ensures var t := Step(s, Select(code, s.rows[code].client));
            && |s.polls| in Ready(t, code) && t.polls[|s.polls|].Selected?
            && t.rows == s.rows && t.clock == s.clock && Pairs(t, code) == Pairs(s, code)
            && |About(t.log, code).window| == |About(s.log, code).window| + 1
  {
    var row := s.rows[code];
    assert CodeOk(s, code);
    assert Answered(Some(row), row.client, s.clock) == Tokens;
    Snoc(s.log, Read(|s.polls|, code), code);
  }

  lemma OnePollServes(s: State, code: Code)
    requires Inv(s) && CanPoll(s, code)
    ensures var t := Run(s, OnePoll(s, code));
            && Inv(t) && CanPoll(t, code)
            && Pairs(t, code) == Pairs(s, code) + 1
            && |About(t.log, code).window| == |About(s.log, code).window| + 1
  {
    var a, n := OnePoll(s, code), |s.polls|;
    var s1 := Step(s, a[0]);
    SelectGetsReady(s, code);
    var s2 := Step(s1, a[1]);
    DecidedIsSaving(s1, n, code);
    ServingStep(s2, n, code);
    RunThree(s, a);
    RunKeeps(s, a);
  }

  lemma RunThree(s: State, a: seq<Action>)
    requires |a| == 3
    ensures Run(s, a) == Step(Step(Step(s, a[0]), a[1]), a[2])
  {
    assert a[..2][..1] == [a[0]] && a[..1][..0] == [];
    assert Run(s, a[..1]) == Step(s, a[0]);
    assert Run(s, a[..2]) == Step(Step(s, a[0]), a[1]);
  }

  /** From any state with an approved and unexpired row, any number of further pairs. */
  lemma {:induction false} AnyNumberOfPairs(s: State, code: Code, n: nat) returns (more: seq<Action>)
    requires Inv(s) && CanPoll(s, code)
    ensures var t := Run(s, more);
            && Pairs(t, code) == Pairs(s, code) + n
            && |About(t.log, code).window| == |About(s.log, code).window| + n
    decreases n
  {
    if n == 0 { return []; }
    var first := OnePoll(s, code);
    OnePollServes(s, code);
    var rest := AnyNumberOfPairs(Run(s, first), code, n - 1);
    RunConcat(s, first, rest);
    more := first + rest;
  }

  lemma {:induction false} UnusedUserCode(rows: map<Code, Row>) returns (unused: string)
    ensures unused != "" && !UserCodeTaken(rows, unused)
    ensures forall c | c in rows :: |rows[c].userCode| < |unused|
  {
    if rows == map[] { return "A"; }
    var c :| c in rows;
    var rest := UnusedUserCode(rows - {c});
    unused := if |rest| > |rows[c].userCode| then rest else rows[c].userCode + "A";
    assert forall d | d in rows :: d == c || (d in rows - {c} && (rows - {c})[d] == rows[d]);
  }

  lemma InsertOpens(s: State, code: Code) returns (a: Action)
    requires Inv(s) && Open(s, code) && code !in s.rows
    ensures var t := Step(s, a); code in t.rows && t.rows[code].status == Pending && Open(t, code)
    ensures Pairs(Step(s, a), code) == Pairs(s, code) && About(Step(s, a).log, code).window == About(s.log, code).window
  {
    var unused := UnusedUserCode(s.rows);
    a := Insert(code, unused, "client", "", s.clock);
    var t := Step(s, a);
    Snoc(s.log, Inserted(code, t.rows[code]), code);
  }

  lemma ApprovalOpens(s: State, code: Code) returns (a: Action)
    requires Inv(s) && Open(s, code) && code in s.rows && s.rows[code].status == Pending
    ensures CanPoll(Step(s, a), code)
    ensures Pairs(Step(s, a), code) == Pairs(s, code) && About(Step(s, a).log, code).window == About(s.log, code).window
  {
    a := Approve(code, s.rows[code].userCode, "user", s.clock);
    Snoc(s.log, ApprovedBy(code, "user", s.clock), code);
  }

  /** An open code can be brought to where it can be polled. */
  lemma OpenCanPoll(s: State, code: Code) returns (more: seq<Action>)
    requires Inv(s) && Open(s, code)
    ensures var t := Run(s, more);
            && Inv(t) && CanPoll(t, code) && Pairs(t, code) == Pairs(s, code)
            && About(t.log, code).window == About(s.log, code).window
  {
    more := [];
    if code !in s.rows {
      var a := InsertOpens(s, code);
      RunOne(s, a);
      more := [a];
    }
    var mid := Run(s, more);
    RunKeeps(s, more);
    assert CodeOk(mid, code);
    if mid.rows[code].status == Pending {
      var a := ApprovalOpens(mid, code);
      RunOne(mid, a);
      RunConcat(s, more, [a]);
      more := more + [a];
    }
    RunKeeps(s, more);
  }

  lemma OpenIsUnbounded(s: State, code: Code, n: nat) returns (more: seq<Action>)
    requires Inv(s) && Open(s, code)
    ensures var t := Run(s, more);
            && Pairs(t, code) == Pairs(s, code) + n
            && |About(t.log, code).window| == |About(s.log, code).window| + n
  {
    var first := OpenCanPoll(s, code);
    var rest := AnyNumberOfPairs(Run(s, first), code, n);
    RunConcat(s, first, rest);
    more := first + rest;
  }

  // ---------- the exact numbers ----------

  /** After any run, the pairs of a code stay within a bound in every continuation if and only
      if the code is closed and the bound has room for its ready polls. With the bound 1 this
      is when a code is good for at most one pair. */
  lemma {:induction false} PairsStayWithinExactly(actions: seq<Action>, code: Code, bound: nat)
    ensures var s := Run(INITIAL, actions);
            (forall more :: Pairs(Run(INITIAL, actions + more), code) <= bound)
            <==> !Open(s, code) && Pairs(s, code) + |Ready(s, code)| <= bound
  {
    var s := Run(INITIAL, actions);
    InvAlways(actions);
    if Open(s, code) {
      var more := OpenIsUnbounded(s, code, bound + 1);
      RunConcat(INITIAL, actions, more);
    } else {
      var more := Drain(s, code);
      RunConcat(INITIAL, actions, more);
      forall later ensures Pairs(Run(INITIAL, actions + later), code) <= Pairs(s, code) + |Ready(s, code)| {
        RunConcat(INITIAL, actions, later);
        ClosedBound(s, later, code);
      }
    }
  }

  /** After any run, some continuation issues a further pair for a code if and only if the code
      is open or one of its polls is ready. */
  lemma {:induction false} FurtherPairExactly(actions: seq<Action>, code: Code)
    ensures var s := Run(INITIAL, actions);
            (exists more :: Pairs(Run(INITIAL, actions + more), code) > Pairs(s, code))
            <==> Open(s, code) || Ready(s, code) != {}
  {
    var s := Run(INITIAL, actions);
    PairsStayWithinExactly(actions, code, Pairs(s, code));
    if forall more :: Pairs(Run(INITIAL, actions + more), code) <= Pairs(s, code) {
      assert |Ready(s, code)| == 0;
    } else {
      assert Open(s, code) || |Ready(s, code)| > 0;
    }
  }

  /** The bound by selects is attained: whatever the code, the user code and the client, some
      run that starts with their insert issues any number of pairs, one for each poll between
      the approval and the first deletion. */
  lemma {:induction false} BoundIsAttained(code: Code, userCode: string, client: string, n: nat)
    returns (actions: seq<Action>)
    requires code != "" && userCode != "" && client != ""
    ensures actions != [] && actions[0] == Insert(code, userCode, client, "", 0)
    ensures var h := About(Run(INITIAL, actions).log, code); h.pairs == n == |h.window|
  {
    var insert := Insert(code, userCode, client, "", 0);
    InvAlways([]);
    RunKeeps(INITIAL, [insert]);
    InsertedOpen(code, userCode, client);
    var more := OpenIsUnbounded(Run(INITIAL, [insert]), code, n);
    RunConcat(INITIAL, [insert], more);
    actions := [insert] + more;
  }

  lemma InsertedOpen(code: Code, userCode: string, client: string)
    requires code != "" && userCode != "" && client != ""
    ensures var s := Run(INITIAL, [Insert(code, userCode, client, "", 0)]);
            Open(s, code) && Pairs(s, code) == 0 && About(s.log, code).window == {}
  {
    RunOne(INITIAL, Insert(code, userCode, client, "", 0));
    Snoc([], Inserted(code, Row(userCode, client, "", Pending, "", DEVICE_CODE_LIFETIME)), code);
  }
}
