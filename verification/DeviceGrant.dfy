/** The device authorization grant (RFC 8628) as interleaved steps: the requests and approvals
    of DeviceAuthController.cc and the device branch of the token endpoint in
    OAuth2StandardController.cc. Every SQL statement, every save and every callback is a step
    of its own; the deletion of a used code is not awaited, so it is one too. */
module DeviceGrant {
  import opened Text

  type Code = string

  datatype Status = Pending | Approved | Denied | Unknown

  /** A row of oauth2_device_codes; its key is the device code, which the table stores hashed. */
  datatype Row = Row(userCode: string, client: string, scope: string, status: Status, user: string, expiresAt: int)

  /** The access and refresh token saved for one poll. */
  datatype Pair = Pair(poll: nat, code: Code, client: string, user: string, scope: string,
                       issuedAt: int, accessExpiresAt: int, refreshExpiresAt: int)

  datatype Answer =
    | InvalidCode
    | ClientMismatch
    | ExpiredToken
    | AuthorizationPending
    | AccessDenied
    | InvalidStatus
    | Tokens

  /** A request to the token endpoint, by how far it has come. */
  datatype Poll =
    | Selected(code: Code, client: string, found: Option<Row>)
    | Saving(pair: Pair)
    | Deleting(code: Code)
    | Done(answer: Answer)

  /** What the database has seen, in order. */
  datatype Event =
    | Inserted(code: Code, row: Row)
    | ApprovedBy(code: Code, user: string, at: int)
    | Read(poll: nat, code: Code)
    | Issued(pair: Pair)
    | Deleted(code: Code)

  datatype State = State(rows: map<Code, Row>, polls: seq<Poll>, clock: int, log: seq<Event>)

  const DEVICE_CODE_LIFETIME := 600
  const ACCESS_LIFETIME := 3600
  const REFRESH_LIFETIME := 3600 * 24 * 30

  /** A statement carries the time `now` at which its request read the clock. */
  datatype Action =
    | Tick(seconds: nat)
    | Insert(code: Code, userCode: string, client: string, scope: string, now: int)
    | Approve(code: Code, userCode: string, user: string, now: int)
    | Select(code: Code, client: string)
    | Decide(poll: nat)
    | Save(poll: nat)
    | Delete(poll: nat, ok: bool)

  // ---------- what the log says about a code ----------

  datatype Phase = Absent | WasPending | WasApproved | Gone

  datatype Approval = Approval(user: string, at: int)

  /** The log, read for one code: how far the code has come; the polls whose select landed
      between its approval and its first deletion; the number of pairs issued, and the polls
      they were issued to; the row as it was inserted; and the approvals. */
  datatype History = History(phase: Phase, window: set<nat>, pairs: nat, served: set<nat>,
                             row: Option<Row>, approvals: seq<Approval>)

  function Then(h: History, e: Event, code: Code): History {
    match e
    case Inserted(c, row) => if c == code then h.(phase := WasPending, row := Some(row)) else h
    case ApprovedBy(c, user, at) =>
      if c == code then h.(phase := WasApproved, approvals := h.approvals + [Approval(user, at)]) else h
    case Read(poll, c) => if c == code && h.phase == WasApproved then h.(window := h.window + {poll}) else h
    case Issued(pair) => if pair.code == code then h.(pairs := h.pairs + 1, served := h.served + {pair.poll}) else h
    case Deleted(c) => if c == code then h.(phase := Gone) else h
  }

  function About(log: seq<Event>, code: Code): History {
    if log == [] then History(Absent, {}, 0, {}, None, [])
    else Then(About(log[..|log| - 1], code), log[|log| - 1], code)
  }

  /** The log accounts for the pair: it carries the client and scope of the row and the one
      user who approved it, after the approval and before the row's expiry. */
  ghost predicate Backed(log: seq<Event>, pair: Pair) {
    var h := About(log, pair.code);
    && h.row.Some? && |h.approvals| == 1
    && pair.client == h.row.value.client && pair.scope == h.row.value.scope && pair.user == h.approvals[0].user
    && h.approvals[0].at <= pair.issuedAt < h.row.value.expiresAt
    && pair.accessExpiresAt == pair.issuedAt + ACCESS_LIFETIME
    && pair.refreshExpiresAt == pair.issuedAt + REFRESH_LIFETIME
  }

  // ---------- the steps ----------

  /** The checks of the token endpoint, in the source's order. */
  function Answered(found: Option<Row>, client: string, now: int): Answer {
    match found
    case None => InvalidCode
    case Some(row) =>
      if row.client != client then ClientMismatch
      else if now >= row.expiresAt then ExpiredToken
      else match row.status
        case Pending => AuthorizationPending
        case Denied => AccessDenied
        case Unknown => InvalidStatus
        case Approved => Tokens
  }

  predicate UserCodeTaken(rows: map<Code, Row>, userCode: string) {
    exists c :: c in rows && rows[c].userCode == userCode
  }

  function Step(s: State, a: Action): State {
    match a
    case Tick(seconds) => s.(clock := s.clock + seconds)
    case Insert(code, userCode, client, scope, now) =>
      if client == "" || now > s.clock || About(s.log, code).row != None || UserCodeTaken(s.rows, userCode) then s
      else
        var row := Row(userCode, client, scope, Pending, "", now + DEVICE_CODE_LIFETIME);
        s.(rows := s.rows[code := row], log := s.log + [Inserted(code, row)])
    case Approve(code, userCode, user, now) =>
      if userCode == "" || user == "" || now > s.clock || code !in s.rows then s
      else
        var row := s.rows[code];
        if row.userCode != userCode || row.status != Pending || row.expiresAt <= now then s
        else s.(rows := s.rows[code := row.(status := Approved, user := user)],
                log := s.log + [ApprovedBy(code, user, s.clock)])
    case Select(code, client) =>
      if code == "" || client == "" then s
      else
        var found := if code in s.rows then Some(s.rows[code]) else None;
        s.(polls := s.polls + [Selected(code, client, found)], log := s.log + [Read(|s.polls|, code)])
    case Decide(p) =>
      if p < |s.polls| && s.polls[p].Selected? then s.(polls := s.polls[p := Decided(s.polls[p], p, s.clock)]) else s
    case Save(p) =>
      if p < |s.polls| && s.polls[p].Saving? then
        var pair := s.polls[p].pair;
        s.(polls := s.polls[p := Deleting(pair.code)], log := s.log + [Issued(pair)])
      else s
    case Delete(p, ok) =>
      if p < |s.polls| && s.polls[p].Deleting? then
        var done := s.(polls := s.polls[p := Done(Tokens)]);
        if ok then done.(rows := s.rows - {s.polls[p].code}, log := s.log + [Deleted(s.polls[p].code)]) else done
      else s
  }

  /** The callback of the select: an error, or a token pair to save. */
  function Decided(poll: Poll, p: nat, now: int): Poll
    requires poll.Selected?
  {
    var Selected(code, client, found) := poll;
    var answer := Answered(found, client, now);
    if answer != Tokens then Done(answer)
    else
      Saving(Pair(p, code, client, found.value.user, found.value.scope,
                  now, now + ACCESS_LIFETIME, now + REFRESH_LIFETIME))
  }

  function Run(s: State, actions: seq<Action>): State {
    if actions == [] then s else Step(Run(s, actions[..|actions| - 1]), actions[|actions| - 1])
  }

  const INITIAL := State(map[], [], 0, [])

  // ---------- the invariant ----------

  /** A row that is or was in the table agrees with the log. */
  ghost predicate RowOk(h: History, row: Row, clock: int) {
    && row.client != "" && h.row == Some(row.(status := Pending, user := ""))
    && (row.status == Pending || row.status == Approved)
    && (row.status == Approved ==> |h.approvals| == 1 && h.approvals[0].user == row.user && h.approvals[0].at <= clock)
  }

  ghost predicate HistoryOk(h: History, row: Option<Row>, clock: int, polls: nat) {
    && (row.Some? ==> RowOk(h, row.value, clock))
    && (match h.phase
        case Absent => row == None && h.row == None && h.approvals == []
        case WasPending => row.Some? && row.value.status == Pending && h.approvals == []
        case WasApproved => row.Some? && row.value.status == Approved
        case Gone => row == None && h.row.Some? && |h.approvals| <= 1)
    && h.pairs == |h.served| && h.served <= h.window
    && forall p <- h.window :: p < polls
  }

  ghost predicate CodeOk(s: State, code: Code) {
    HistoryOk(About(s.log, code), if code in s.rows then Some(s.rows[code]) else None, s.clock, |s.polls|)
  }

  function CodeOf(poll: Poll): Code {
    match poll
    case Selected(code, _, _) => code
    case Saving(pair) => pair.code
    case Deleting(code) => code
    case Done(_) => ""
  }

  ghost predicate PollOk(log: seq<Event>, p: nat, poll: Poll, clock: int) {
    var h := About(log, CodeOf(poll));
    match poll
    case Selected(code, client, found) =>
      && code != "" && p !in h.served
      && (found.Some? ==>
            RowOk(h, found.value, clock) && (found.value.status == Approved ==> p in h.window))
    case Saving(pair) => pair.code != "" && Backed(log, pair) && pair.poll == p && p in h.window && p !in h.served
    case Deleting(code) => h.phase != Absent
    case Done(_) => true
  }

  ghost predicate IssuedOk(log: seq<Event>) {
    forall i | 0 <= i < |log| && log[i].Issued? :: Backed(log[..i], log[i].pair)
  }

  /** The UNIQUE constraint: a user code names at most one row. */
  ghost predicate UniqueUserCodes(rows: map<Code, Row>) {
    forall c, d | c in rows && d in rows && rows[c].userCode == rows[d].userCode :: c == d
  }

  ghost predicate Inv(s: State) {
    && (forall code :: CodeOk(s, code))
    && (forall p | 0 <= p < |s.polls| :: PollOk(s.log, p, s.polls[p], s.clock))
    && IssuedOk(s.log)
    && UniqueUserCodes(s.rows)
  }

  lemma Snoc(log: seq<Event>, e: Event, code: Code)
    ensures About(log + [e], code) == Then(About(log, code), e, code)
  {
    assert (log + [e])[..|log|] == log;
  }

  lemma SnocIssued(log: seq<Event>, e: Event)
    requires IssuedOk(log) && (e.Issued? ==> Backed(log, e.pair))
    ensures IssuedOk(log + [e])
  {
    var l := log + [e];
    forall i | 0 <= i < |l| && l[i].Issued? ensures Backed(l[..i], l[i].pair) {
      assert i < |log| ==> l[..i] == log[..i];
      assert l[..|log|] == log;
    }
  }

  lemma TickKeeps(s: State, seconds: nat)
    requires Inv(s)
    ensures Inv(Step(s, Tick(seconds)))
  {
    var t := Step(s, Tick(seconds));
    forall code ensures CodeOk(t, code) { assert CodeOk(s, code); }
  }

  lemma {:induction false} InsertKeeps(s: State, a: Action)
    requires Inv(s) && a.Insert?
    ensures Inv(Step(s, a))
  {
    var t := Step(s, a);
    if t != s {
      var e := Inserted(a.code, t.rows[a.code]);
      assert CodeOk(s, a.code);
      forall code ensures CodeOk(t, code) {
        assert CodeOk(s, code);
        Snoc(s.log, e, code);
      }
      forall p | 0 <= p < |t.polls| ensures PollOk(t.log, p, t.polls[p], t.clock) {
        PollStays(s, e, p);
      }
      SnocIssued(s.log, e);
    }
  }

  /** An event that is allowed does not touch what the log says for a poll. */
  lemma PollStays(s: State, e: Event, p: nat)
    requires Inv(s) && p < |s.polls|
    requires e.Inserted? ==> About(s.log, e.code).phase == Absent
    requires e.ApprovedBy? ==> About(s.log, e.code).phase == WasPending
    requires e.Issued? ==> e.pair.poll != p
    ensures PollOk(s.log + [e], p, s.polls[p], s.clock)
  {
    assert CodeOk(s, CodeOf(s.polls[p]));
    assert PollOk(s.log, p, s.polls[p], s.clock);
    Snoc(s.log, e, CodeOf(s.polls[p]));
  }

  lemma {:induction false} ApproveKeeps(s: State, a: Action)
    requires Inv(s) && a.Approve?
    ensures Inv(Step(s, a))
  {
    var t := Step(s, a);
    if t != s {
      var e := ApprovedBy(a.code, a.user, s.clock);
      assert CodeOk(s, a.code);
      forall code ensures CodeOk(t, code) {
        assert CodeOk(s, code);
        Snoc(s.log, e, code);
      }
      forall p | 0 <= p < |t.polls| ensures PollOk(t.log, p, t.polls[p], t.clock) {
        PollStays(s, e, p);
      }
      SnocIssued(s.log, e);
    }
  }

  lemma {:induction false} SelectKeeps(s: State, a: Action)
    requires Inv(s) && a.Select?
    ensures Inv(Step(s, a))
  {
    var t := Step(s, a);
    if t != s {
      var e := Read(|s.polls|, a.code);
      forall code ensures CodeOk(t, code) {
        assert CodeOk(s, code);
        Snoc(s.log, e, code);
      }
      forall p | 0 <= p < |t.polls| ensures PollOk(t.log, p, t.polls[p], t.clock) {
        if p < |s.polls| {
          PollStays(s, e, p);
        } else {
          assert CodeOk(s, a.code);
          Snoc(s.log, e, a.code);
        }
      }
      SnocIssued(s.log, e);
    }
  }

  lemma DecideKeeps(s: State, a: Action)
    requires Inv(s) && a.Decide?
    ensures Inv(Step(s, a))
  {
    var t := Step(s, a);
    if t != s {
      forall code ensures CodeOk(t, code) { assert CodeOk(s, code); }
      forall p | 0 <= p < |t.polls| ensures PollOk(t.log, p, t.polls[p], t.clock) {
        assert PollOk(s.log, p, s.polls[p], s.clock);
      }
    }
  }

  lemma {:induction false} SaveKeeps(s: State, a: Action)
    requires Inv(s) && a.Save?
    ensures Inv(Step(s, a))
  {
    var t := Step(s, a);
    if t != s {
      var pair := s.polls[a.poll].pair;
      var e := Issued(pair);
      assert PollOk(s.log, a.poll, s.polls[a.poll], s.clock);
      forall code ensures CodeOk(t, code) {
        assert CodeOk(s, code);
        Snoc(s.log, e, code);
      }
      forall p | 0 <= p < |t.polls| ensures PollOk(t.log, p, t.polls[p], t.clock) {
        if p == a.poll {
          assert CodeOk(s, pair.code);
          Snoc(s.log, e, pair.code);
        } else {
          PollStays(s, e, p);
        }
      }
      SnocIssued(s.log, e);
    }
  }

  lemma {:induction false} DeleteKeeps(s: State, a: Action)
    requires Inv(s) && a.Delete?
    ensures Inv(Step(s, a))
  {
    var t := Step(s, a);
    if t != s {
      var gone := s.polls[a.poll].code;
      var e := Deleted(gone);
      assert PollOk(s.log, a.poll, s.polls[a.poll], s.clock);
      forall code ensures CodeOk(t, code) {
        assert CodeOk(s, code);
        Snoc(s.log, e, code);
      }
      forall p | 0 <= p < |t.polls| ensures PollOk(t.log, p, t.polls[p], t.clock) {
        assert PollOk(s.log, p, s.polls[p], s.clock);
        if a.ok && p != a.poll { PollStays(s, e, p); }
      }
      if a.ok { SnocIssued(s.log, e); }
    }
  }

  lemma {:induction false} StepKeeps(s: State, a: Action)
    requires Inv(s)
    ensures Inv(Step(s, a))
  {
    match a
    case Tick(seconds) => TickKeeps(s, seconds);
    case Insert(_, _, _, _, _) => InsertKeeps(s, a);
    case Approve(_, _, _, _) => ApproveKeeps(s, a);
    case Select(_, _) => SelectKeeps(s, a);
    case Decide(_) => DecideKeeps(s, a);
    case Save(_) => SaveKeeps(s, a);
    case Delete(_, _) => DeleteKeeps(s, a);
  }

  lemma {:induction false} InvAlways(actions: seq<Action>)
    ensures Inv(Run(INITIAL, actions))
  {
    if actions == [] {
      forall code ensures CodeOk(INITIAL, code) {}
    } else {
      InvAlways(actions[..|actions| - 1]);
      StepKeeps(Run(INITIAL, actions[..|actions| - 1]), actions[|actions| - 1]);
    }
  }

  // ---------- the promises ----------

  /** In every interleaving, each token pair carries the client and the scope of the row its
      code was inserted with and the single user who had approved it by then, and is issued
      after the approval and before the row's expiry. */
  lemma {:induction false} PairsAreBacked(actions: seq<Action>, i: nat)
    requires i < |Run(INITIAL, actions).log| && Run(INITIAL, actions).log[i].Issued?
    ensures var log := Run(INITIAL, actions).log; Backed(log[..i], log[i].pair)
  {
    InvAlways(actions);
  }

  /** The number of pairs issued for a code never exceeds the number of polls whose select
      landed between its approval and its first deletion. */
  lemma {:induction false} PairsAreBounded(actions: seq<Action>, code: Code)
    ensures var h := About(Run(INITIAL, actions).log, code); h.pairs <= |h.window|
  {
    InvAlways(actions);
    var s := Run(INITIAL, actions);
    assert CodeOk(s, code);
    SubsetSize(About(s.log, code).served, About(s.log, code).window);
  }

  function Rank(phase: Phase): nat {
    match phase
    case Absent => 0
    case WasPending => 1
    case WasApproved => 2
    case Gone => 3
  }

  /** A step logs at most one event. */
  lemma LogGrows(s: State, a: Action, code: Code)
    ensures var t := Step(s, a);
            || t.log == s.log
            || (&& |t.log| == |s.log| + 1
                && About(t.log, code) == Then(About(s.log, code), t.log[|s.log|], code))
  {
    var t := Step(s, a);
    if t.log != s.log {
      assert t.log == s.log + [t.log[|s.log|]];
      Snoc(s.log, t.log[|s.log|], code);
    }
  }

  /** Only an insert of a new code or an approval of a pending one can change the phase of a
      code before its deletion. */
  lemma PhaseMovesForward(s: State, a: Action, code: Code)
    requires Inv(s)
    ensures Rank(About(s.log, code).phase) <= Rank(About(Step(s, a).log, code).phase)
  {
    var t, h := Step(s, a), About(s.log, code);
    LogGrows(s, a, code);
    if t.log != s.log {
      var e := t.log[|s.log|];
      assert CodeOk(s, code);
      assert e.Inserted? && e.code == code ==> h.phase == Absent;
      assert e.ApprovedBy? && e.code == code ==> h.phase == WasPending;
    }
  }

  /** A code only moves from absent to pending, approved and deleted, and the table's status
      is what the log says. */
  lemma {:induction false} StatusMovesForward(actions: seq<Action>, a: Action, code: Code)
    ensures var s := Run(INITIAL, actions);
            var phase := About(s.log, code).phase;
            && Rank(phase) <= Rank(About(Step(s, a).log, code).phase)
            && (code in s.rows <==> phase == WasPending || phase == WasApproved)
            && (code in s.rows ==> (s.rows[code].status == Approved <==> phase == WasApproved))
  {
    InvAlways(actions);
    var s := Run(INITIAL, actions);
    assert CodeOk(s, code);
    PhaseMovesForward(s, a, code);
  }

  /** The approving UPDATE names its row by user code: no other row has that code. */
  lemma {:induction false} ApprovalHitsOneRow(actions: seq<Action>, code: Code, other: Code)
    requires var rows := Run(INITIAL, actions).rows;
             code in rows && other in rows && rows[code].userCode == rows[other].userCode
    ensures code == other
  {
    InvAlways(actions);
  }

  // ---------- the table and the token endpoint as they are written ----------

  class DeviceCodes {
    var rows: map<Code, Row>
    var polls: seq<Poll>
    var clock: int
    ghost var log: seq<Event>

    ghost function View(): State reads this {
      State(rows, polls, clock, log)
    }

    constructor ()
      ensures View() == INITIAL
    {
      rows, polls, clock, log := map[], [], 0, [];
    }

    /** `deviceAuthorization`: the insert, which the UNIQUE constraint may reject. */
    method DeviceAuthorization(code: Code, userCode: string, client: string, scope: string, now: int) returns (ok: bool)
      requires now <= clock && About(log, code).row == None
      modifies this
      ensures View() == Step(old(View()), Insert(code, userCode, client, scope, now))
      ensures ok <==> client != "" && !UserCodeTaken(old(rows), userCode)
      ensures rows == if ok then old(rows)[code := Row(userCode, client, scope, Pending, "", now + 600)] else old(rows)
    {
      if client == "" || UserCodeTaken(rows, userCode) { return false; }
      var row := Row(userCode, client, scope, Pending, "", now + DEVICE_CODE_LIFETIME);
      rows := rows[code := row];
      log := log + [Inserted(code, row)];
      ok := true;
    }

    /** `approveDevice`: the UPDATE, on the row it finds by user code. */
    method ApproveDevice(userCode: string, user: string, now: int) returns (ok: bool, ghost code: Code)
      requires now <= clock && UniqueUserCodes(rows)
      modifies this
      ensures View() == Step(old(View()), Approve(code, userCode, user, now))
      ensures ok <==> userCode != "" && user != ""
                      && exists c :: c in old(rows) && old(rows)[c].userCode == userCode
                                     && old(rows)[c].status == Pending && old(rows)[c].expiresAt > now
      ensures ok ==> code in old(rows) && old(rows)[code].userCode == userCode
      ensures rows == if !ok then old(rows) else old(rows)[code := old(rows)[code].(status := Approved, user := user)]
    {
      code := "";
      if userCode == "" || user == "" || !UserCodeTaken(rows, userCode) { return false, ""; }
      var found :| found in rows && rows[found].userCode == userCode;
      code := found;
      if rows[found].status != Pending || rows[found].expiresAt <= now { return false, found; }
      rows := rows[found := rows[found].(status := Approved, user := user)];
      log := log + [ApprovedBy(found, user, clock)];
      ok := true;
    }

    /** The token endpoint: the select of a poll; an empty parameter is refused before it. */
    method SelectRow(code: Code, client: string) returns (poll: Option<nat>)
      modifies this
      ensures View() == Step(old(View()), Select(code, client))
      ensures poll == if code == "" || client == "" then None else Some(|old(polls)|)
    {
      if code == "" || client == "" { return None; }
      poll := Some(|polls|);
      log := log + [Read(|polls|, code)];
      polls := polls + [Selected(code, client, if code in rows then Some(rows[code]) else None)];
    }

    /** The callback of the select: every way to refuse, then the tokens. */
    method AnswerPoll(poll: nat) returns (answer: Answer)
      requires poll < |polls| && polls[poll].Selected?
      modifies this
      ensures View() == Step(old(View()), Decide(poll))
      ensures rows == old(rows)
      ensures match old(polls)[poll].found
              case None => answer == InvalidCode
              case Some(row) =>
                answer == Tokens ==>
                  var pair := Pair(poll, old(polls)[poll].code, old(polls)[poll].client, row.user, row.scope,
                                   clock, clock + 3600, clock + 2592000);
                  polls == old(polls)[poll := Saving(pair)]
      ensures answer == Answered(old(polls)[poll].found, old(polls)[poll].client, clock)
    {
      var Selected(code, client, found) := polls[poll];
      if found.None? {
        answer := InvalidCode;
      } else if found.value.client != client {
        answer := ClientMismatch;
      } else if clock >= found.value.expiresAt {
        answer := ExpiredToken;
      } else if found.value.status == Pending {
        answer := AuthorizationPending;
      } else if found.value.status == Denied {
        answer := AccessDenied;
      } else if found.value.status != Approved {
        answer := InvalidStatus;
      } else {
        answer := Tokens;
        var row := found.value;
        polls := polls[poll := Saving(Pair(poll, code, client, row.user, row.scope, clock,
                                           clock + ACCESS_LIFETIME, clock + REFRESH_LIFETIME))];
        return;
      }
      polls := polls[poll := Done(answer)];
    }

    /** The callback of the save: the DELETE is sent and not awaited. */
    method DeleteRow(poll: nat, ok: bool)
      requires poll < |polls| && polls[poll].Deleting?
      modifies this
      ensures View() == Step(old(View()), Delete(poll, ok))
      ensures rows == if ok then old(rows) - {old(polls)[poll].code} else old(rows)
    {
      var code := polls[poll].code;
      polls := polls[poll := Done(Tokens)];
      if ok {
        rows := rows - {code};
        log := log + [Deleted(code)];
      }
    }
  }
}
