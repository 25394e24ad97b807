/** The device grant from the side of its requests: a token pair is what was asked for and
    approved, a poll is answered by what had happened before it, and a grant goes through within
    ten minutes. */
module DeviceRequests {
  import opened Text
  import opened DeviceGrant
  import opened DevicePairs

  // ---------- rows and approvals are asked for ----------

  /** The row is that of an insert, pending for ten minutes. */
  predicate InsertedBy(a: Action, code: Code, row: Row) {
    && a.Insert? && a.code == code && a.client != ""
    && row == Row(a.userCode, a.client, a.scope, Pending, "", a.now + 600)
  }

  /** The approval names the user and the row's user code, within the ten minutes. */
  predicate ApprovesRow(a: Action, code: Code, row: Row, user: string) {
    && a.Approve? && a.code == code && a.user == user && user != ""
    && a.userCode == row.userCode && a.now < row.expiresAt
  }

  ghost predicate IsInserted(actions: seq<Action>, code: Code, row: Row) {
    exists i | 0 <= i < |actions| :: InsertedBy(actions[i], code, row)
  }

  ghost predicate IsApproved(actions: seq<Action>, code: Code, row: Row, user: string) {
    exists i, j | 0 <= i < j < |actions| ::
      InsertedBy(actions[i], code, row) && ApprovesRow(actions[j], code, row, user)
  }

  ghost predicate OriginOk(h: History, code: Code, actions: seq<Action>) {
    && (h.row.Some? ==> IsInserted(actions, code, h.row.value))
    && forall k | 0 <= k < |h.approvals| :: ApprovalOk(h, h.approvals[k], code, actions)
  }

  ghost predicate ApprovalOk(h: History, approval: Approval, code: Code, actions: seq<Action>) {
    h.row.Some? && IsApproved(actions, code, h.row.value, approval.user)
  }

  /** Every prefix of the log has its requests. */
  ghost predicate OriginsOk(log: seq<Event>, actions: seq<Action>) {
    forall n, code | 0 <= n <= |log| :: OriginOk(About(log[..n], code), code, actions)
  }

  lemma MoreActions(h: History, code: Code, actions: seq<Action>, a: Action)
    requires OriginOk(h, code, actions)
    ensures OriginOk(h, code, actions + [a])
  {
    var more := actions + [a];
    if h.row.Some? {
      var i :| 0 <= i < |actions| && InsertedBy(actions[i], code, h.row.value);
      assert more[i] == actions[i];
    }
    forall k | 0 <= k < |h.approvals| ensures ApprovalOk(h, h.approvals[k], code, more) {
      assert ApprovalOk(h, h.approvals[k], code, actions);
      var i, j :| 0 <= i < j < |actions| && InsertedBy(actions[i], code, h.row.value)
                  && ApprovesRow(actions[j], code, h.row.value, h.approvals[k].user);
      assert more[i] == actions[i] && more[j] == actions[j];
    }
  }

  /** The history behind one more event. */
  lemma NextOrigin(s: State, a: Action, code: Code, actions: seq<Action>)
    requires Inv(s) && OriginOk(About(s.log, code), code, actions)
    ensures OriginOk(About(Step(s, a).log, code), code, actions + [a])
  {
    MoreActions(About(s.log, code), code, actions, a);
    LogGrows(s, a, code);
    if Step(s, a).log != s.log {
      if a.Insert? && a.code == code { NextInsert(s, a, actions); }
      if a.Approve? && a.code == code { NextApproval(s, a, actions); }
    }
  }

  lemma NextInsert(s: State, a: Action, actions: seq<Action>)
    requires Inv(s) && a.Insert? && Step(s, a).log != s.log
    ensures OriginOk(About(Step(s, a).log, a.code), a.code, actions + [a])
  {
    var t, more := Step(s, a), actions + [a];
    LogGrows(s, a, a.code);
    assert CodeOk(s, a.code);
    assert more[|actions|] == a && InsertedBy(a, a.code, t.rows[a.code]);
  }

  lemma NextApproval(s: State, a: Action, actions: seq<Action>)
    requires Inv(s) && a.Approve? && Step(s, a).log != s.log && OriginOk(About(s.log, a.code), a.code, actions)
    ensures OriginOk(About(Step(s, a).log, a.code), a.code, actions + [a])
  {
    var h, u := About(s.log, a.code), About(Step(s, a).log, a.code);
    MoreActions(h, a.code, actions, a);
    LogGrows(s, a, a.code);
    assert CodeOk(s, a.code);
    assert u.row == h.row && h.approvals == [] && u.approvals == [Approval(a.user, s.clock)];
    ApprovalAdds(h, a.code, actions, a);
  }

  lemma ApprovalAdds(h: History, code: Code, actions: seq<Action>, a: Action)
    requires a.Approve? && h.row.Some?
    requires IsInserted(actions, code, h.row.value) && ApprovesRow(a, code, h.row.value, a.user)
    ensures IsApproved(actions + [a], code, h.row.value, a.user)
  {
    var more := actions + [a];
    var i :| 0 <= i < |actions| && InsertedBy(actions[i], code, h.row.value);
    assert more[i] == actions[i] && more[|actions|] == a;
  }

  lemma {:induction false} OriginsAlways(actions: seq<Action>)
    ensures OriginsOk(Run(INITIAL, actions).log, actions)
  {
    if actions != [] {
      var before, a := actions[..|actions| - 1], actions[|actions| - 1];
      var s, t := Run(INITIAL, before), Run(INITIAL, actions);
      InvAlways(before);
      OriginsAlways(before);
      assert actions == before + [a];
      forall n, code | 0 <= n <= |t.log| ensures OriginOk(About(t.log[..n], code), code, actions) {
        PrefixOrigin(s, a, n, code, before);
      }
    }
  }

  lemma PrefixOrigin(s: State, a: Action, n: nat, code: Code, actions: seq<Action>)
    requires Inv(s) && OriginsOk(s.log, actions) && n <= |Step(s, a).log|
    ensures OriginOk(About(Step(s, a).log[..n], code), code, actions + [a])
  {
    var t := Step(s, a);
    LogGrows(s, a, code);
    LogIsPrefix(s, a);
    if n <= |s.log| {
      assert t.log[..n] == s.log[..n];
      assert OriginOk(About(s.log[..n], code), code, actions);
      MoreActions(About(s.log[..n], code), code, actions, a);
    } else {
      assert t.log[..n] == t.log && s.log[..|s.log|] == s.log;
      assert OriginOk(About(s.log[..|s.log|], code), code, actions);
      NextOrigin(s, a, code, actions);
    }
  }

  lemma LogIsPrefix(s: State, a: Action)
    ensures s.log <= Step(s, a).log && |Step(s, a).log| <= |s.log| + 1
  {}

  /** In every interleaving, each token pair has the code, client and scope of an insert among
      the actions and the user of a later approval that names its user code, both within ten
      minutes of the insert; it is good for an hour and its refresh token for thirty days. */
  lemma {:induction false} PairsAreRequested(actions: seq<Action>, n: nat)
    requires n < |Run(INITIAL, actions).log| && Run(INITIAL, actions).log[n].Issued?
    ensures var pair := Run(INITIAL, actions).log[n].pair;
            && (exists i, j | 0 <= i < j < |actions| ::
                  && actions[i].Insert? && actions[j].Approve?
                  && pair.code == actions[i].code == actions[j].code
                  && pair.client == actions[i].client && pair.scope == actions[i].scope
                  && actions[j].userCode == actions[i].userCode && pair.user == actions[j].user
                  && actions[j].now < actions[i].now + 600 && pair.issuedAt < actions[i].now + 600)
            && pair.accessExpiresAt == pair.issuedAt + 3600 && pair.refreshExpiresAt == pair.issuedAt + 2592000
  {
    var log := Run(INITIAL, actions).log;
    var pair := log[n].pair;
    PairsAreBacked(actions, n);
    OriginsAlways(actions);
    var h := About(log[..n], pair.code);
    assert OriginOk(h, pair.code, actions);
    var i, j :| 0 <= i < j < |actions| && InsertedBy(actions[i], pair.code, h.row.value)
                && ApprovesRow(actions[j], pair.code, h.row.value, h.approvals[0].user);
  }

  // ---------- a poll is answered by what had happened before it ----------

  /** The answer to a poll of the client at the time `now`, by the history up to its select. */
  function AnswerTo(h: History, client: string, now: int): Answer {
    if h.row.None? || h.phase == Gone || h.phase == Absent then InvalidCode
    else if h.row.value.client != client then ClientMismatch
    else if now >= h.row.value.expiresAt then ExpiredToken
    else if h.phase == WasPending then AuthorizationPending
    else Tokens
  }

  /** What a poll has read is the row as its history has it. */
  ghost predicate FoundBy(found: Option<Row>, h: History) {
    && (found.None? <==> h.phase == Absent || h.phase == Gone)
    && (found.Some? ==>
          && h.row == Some(found.value.(status := Pending, user := ""))
          && found.value.status == if h.phase == WasApproved then Approved else Pending)
  }

  ghost predicate ReadAt(log: seq<Event>, n: nat, p: nat, poll: Poll) {
    poll.Selected? && n < |log| && log[n] == Read(p, poll.code) && FoundBy(poll.found, About(log[..n], poll.code))
  }

  ghost predicate PollRead(log: seq<Event>, p: nat, poll: Poll) {
    poll.Selected? ==> exists n: nat :: ReadAt(log, n, p, poll)
  }

  lemma ReadStays(log: seq<Event>, longer: seq<Event>, p: nat, poll: Poll)
    requires PollRead(log, p, poll) && log <= longer
    ensures PollRead(longer, p, poll)
  {
    if poll.Selected? {
      var n: nat :| ReadAt(log, n, p, poll);
      assert longer[..n] == log[..n];
      assert ReadAt(longer, n, p, poll);
    }
  }

  lemma SelectReads(s: State, code: Code, client: string)
    requires Inv(s) && code != "" && client != ""
    ensures var t := Step(s, Select(code, client)); PollRead(t.log, |s.polls|, t.polls[|s.polls|])
  {
    var t := Step(s, Select(code, client));
    assert CodeOk(s, code);
    assert t.log[..|s.log|] == s.log;
    assert ReadAt(t.log, |s.log|, |s.polls|, t.polls[|s.polls|]);
  }

  ghost predicate AllRead(s: State) {
    forall p | 0 <= p < |s.polls| :: PollRead(s.log, p, s.polls[p])
  }

  lemma {:induction false} PollsReadAlways(actions: seq<Action>)
    ensures AllRead(Run(INITIAL, actions))
  {
    if actions != [] {
      var before, a := actions[..|actions| - 1], actions[|actions| - 1];
      var s, t := Run(INITIAL, before), Run(INITIAL, actions);
      InvAlways(before);
      PollsReadAlways(before);
      LogIsPrefix(s, a);
      forall p | 0 <= p < |t.polls| ensures PollRead(t.log, p, t.polls[p]) {
        if p < |s.polls| {
          assert PollRead(s.log, p, s.polls[p]);
          if t.polls[p] == s.polls[p] { ReadStays(s.log, t.log, p, s.polls[p]); }
        } else {
          SelectReads(s, a.code, a.client);
        }
      }
    }
  }

  /** In every interleaving, a poll is answered by the history of its code up to its select: an
      unknown or used code, another client, an expired code, one that is not approved yet, or
      the tokens. */
  lemma {:induction false} AnswersFollowHistory(actions: seq<Action>, p: nat, now: int)
    requires p < |Run(INITIAL, actions).polls| && Run(INITIAL, actions).polls[p].Selected?
    ensures var s := Run(INITIAL, actions);
            var Selected(code, client, found) := s.polls[p];
            exists n | 0 <= n < |s.log| ::
              && s.log[n] == Read(p, code)
              && Answered(found, client, now) == AnswerTo(About(s.log[..n], code), client, now)
  {
    var s := Run(INITIAL, actions);
    PollsReadAlways(actions);
    assert PollRead(s.log, p, s.polls[p]);
    var n: nat :| ReadAt(s.log, n, p, s.polls[p]);
  }

  /** A row that is found for its client in time is answered by its status. */
  lemma AnswersByStatus(row: Row, now: int)
    requires now < row.expiresAt
    ensures Answered(Some(row), row.client, now) ==
            match row.status
            case Pending => AuthorizationPending
            case Approved => Tokens
            case Denied => AccessDenied
            case Unknown => InvalidStatus
  {}

  // ---------- a grant goes through ----------

  /** Insert, approval after `a` seconds and poll after `b` more. */
  function Grant(s: State, code: Code, userCode: string, client: string, scope: string, user: string, a: nat, b: nat)
    : (actions: seq<Action>)
    ensures |actions| == 6
  {
    [Insert(code, userCode, client, scope, s.clock), Tick(a), Approve(code, userCode, user, s.clock + a), Tick(b),
     Select(code, client), Decide(|s.polls|)]
  }

  lemma RunSix(s: State, x: seq<Action>)
    requires |x| == 6
    ensures Run(s, x) == Step(Step(Step(Run(s, x[..3]), x[3]), x[4]), x[5])
  {
    assert x[..5][..4] == x[..4] && x[..4][..3] == x[..3];
    assert Run(s, x[..4]) == Step(Run(s, x[..3]), x[3]);
    assert Run(s, x[..5]) == Step(Run(s, x[..4]), x[4]);
  }

  /** From any reachable state: within ten minutes the poll gets the tokens that were asked
      for, with their lifetimes; from then on it is told that the code has expired. */
  lemma GrantGoesThrough(s: State, code: Code, userCode: string, client: string, scope: string, user: string,
                         a: nat, b: nat)
    requires Inv(s) && About(s.log, code).row == None && !UserCodeTaken(s.rows, userCode)
    requires code != "" && userCode != "" && client != "" && user != "" && a < 600
    ensures var t, now := Run(s, Grant(s, code, userCode, client, scope, user, a, b)), s.clock + a + b;
            && |t.polls| == |s.polls| + 1
            && t.polls[|s.polls|] ==
               if a + b < 600 then
                 Saving(Pair(|s.polls|, code, client, user, scope, now, now + 3600, now + 2592000))
               else Done(ExpiredToken)
  {
    var x := Grant(s, code, userCode, client, scope, user, a, b);
    RunSix(s, x);
    RunThree(s, x[..3]);
    var row := ApprovedRow(s, code, userCode, client, scope, user, a);
    PollOf(Step(Step(Step(Step(s, x[0]), x[1]), x[2]), x[3]), code, row);
  }

  /** The row after insert and approval. */
  lemma ApprovedRow(s: State, code: Code, userCode: string, client: string, scope: string, user: string, a: nat)
    returns (row: Row)
    requires About(s.log, code).row == None && !UserCodeTaken(s.rows, userCode)
    requires code != "" && userCode != "" && client != "" && user != "" && a < 600
    ensures row == Row(userCode, client, scope, Approved, user, s.clock + 600)
    ensures var t := Step(Step(Step(s, Insert(code, userCode, client, scope, s.clock)), Tick(a)),
                          Approve(code, userCode, user, s.clock + a));
            t.rows == s.rows[code := row] && t.clock == s.clock + a && t.polls == s.polls
  {
    row := Row(userCode, client, scope, Approved, user, s.clock + 600);
    var s1 := Step(s, Insert(code, userCode, client, scope, s.clock));
    assert s1.rows == s.rows[code := Row(userCode, client, scope, Pending, "", s.clock + 600)];
    assert s1.rows[code := row] == s.rows[code := row];
  }

  /** The poll of an approved row at the present time. */
  lemma PollOf(s: State, code: Code, row: Row)
    requires code in s.rows && s.rows[code] == row && row.status == Approved && code != "" && row.client != ""
    ensures var t, now := Step(Step(s, Select(code, row.client)), Decide(|s.polls|)), s.clock;
            && |t.polls| == |s.polls| + 1
            && t.polls[|s.polls|] ==
               if now < row.expiresAt then
                 Saving(Pair(|s.polls|, code, row.client, row.user, row.scope, now, now + 3600, now + 2592000))
               else Done(ExpiredToken)
  {}

  /** An approval after ten minutes is refused, and one for another user code. */
  lemma LateApprovalIsRefused(s: State, code: Code, userCode: string, user: string, now: int)
    requires code in s.rows && (now >= s.rows[code].expiresAt || s.rows[code].userCode != userCode)
    ensures Step(s, Approve(code, userCode, user, now)) == s
  {}
}
