/** One-shot tokens: the password reset tokens of PasswordResetController.cc, consumed by a
    conditional UPDATE, and the verification tokens of EmailVerificationController.cc,
    consumed by a DELETE that returns the row. Requests and confirmations interleave freely;
    consuming a token and the change it allows are two statements. */
module OneShotTokens {
  import opened Text

  type Hash = string

  datatype Kind = Reset | Verification

  datatype Row = Row(user: nat, expiresAt: int, used: bool)

  /** A confirmation that has consumed its token, until its change has landed or failed. */
  datatype Job = Consumed(hash: Hash, user: nat) | Finished

  datatype Event =
    | Issued(hash: Hash, user: nat, expiresAt: int)
    | Taken(hash: Hash, at: int)
    | Changed(hash: Hash, user: nat)  // the password set, or the address verified

  datatype State = State(table: map<Hash, Row>, jobs: seq<Job>, log: seq<Event>)

  datatype Action =
    | Request(hash: Hash, user: nat, now: int)
    | Confirm(hash: Hash, now: int)
    | Change(job: nat, ok: bool)

  function Lifetime(kind: Kind): int {
    if kind == Reset then 900 else 86400
  }

  /** The row a confirmation may consume. */
  predicate Usable(table: map<Hash, Row>, hash: Hash, now: int) {
    hash in table && !table[hash].used && table[hash].expiresAt > now
  }

  function Take(kind: Kind, table: map<Hash, Row>, hash: Hash): map<Hash, Row>
    requires hash in table
  {
    if kind == Reset then table[hash := table[hash].(used := true)] else table - {hash}
  }

  /** Generated tokens are fresh: a hash is never issued twice. */
  function Step(kind: Kind, s: State, a: Action): State {
    match a
    case Request(hash, user, now) =>
      if About(s.log, hash).issued != None then s
      else State(s.table[hash := Row(user, now + Lifetime(kind), false)], s.jobs,
                 s.log + [Issued(hash, user, now + Lifetime(kind))])
    case Confirm(hash, now) =>
      if !Usable(s.table, hash, now) then s
      else State(Take(kind, s.table, hash), s.jobs + [Consumed(hash, s.table[hash].user)], s.log + [Taken(hash, now)])
    case Change(j, ok) =>
      if j >= |s.jobs| || s.jobs[j].Finished? then s
      else
        var done := s.(jobs := s.jobs[j := Finished]);
        if ok then done.(log := s.log + [Changed(s.jobs[j].hash, s.jobs[j].user)]) else done
  }

  function Run(kind: Kind, actions: seq<Action>): State {
    if actions == [] then State(map[], [], [])
    else Step(kind, Run(kind, actions[..|actions| - 1]), actions[|actions| - 1])
  }

  // ---------- the log, read for one token and for one user ----------

  datatype History = History(issued: Option<(nat, int)>, taken: seq<int>, changes: seq<nat>)

  function Then(h: History, e: Event, hash: Hash): History {
    match e
    case Issued(x, user, expiresAt) => if x == hash then h.(issued := Some((user, expiresAt))) else h
    case Taken(x, at) => if x == hash then h.(taken := h.taken + [at]) else h
    case Changed(x, user) => if x == hash then h.(changes := h.changes + [user]) else h
  }

  function About(log: seq<Event>, hash: Hash): History {
    if log == [] then History(None, [], []) else Then(About(log[..|log| - 1], hash), log[|log| - 1], hash)
  }

  function ChangesOf(log: seq<Event>, user: nat): nat {
    if log == [] then 0
    else
      var e := log[|log| - 1];
      ChangesOf(log[..|log| - 1], user) + (if e.Changed? && e.user == user then 1 else 0)
  }

  function IssuedTo(log: seq<Event>, user: nat): nat {
    if log == [] then 0
    else
      var e := log[|log| - 1];
      IssuedTo(log[..|log| - 1], user) + (if e.Issued? && e.user == user then 1 else 0)
  }

  function ChangedBy(log: seq<Event>, user: nat): set<Hash> {
    if log == [] then {}
    else
      var e := log[|log| - 1];
      ChangedBy(log[..|log| - 1], user) + (if e.Changed? && e.user == user then {e.hash} else {})
  }

  function TokensOf(log: seq<Event>, user: nat): set<Hash> {
    if log == [] then {}
    else
      var e := log[|log| - 1];
      TokensOf(log[..|log| - 1], user) + (if e.Issued? && e.user == user then {e.hash} else {})
  }

  lemma {:induction false} ByTokenAndByUser(log: seq<Event>, hash: Hash, user: nat)
    ensures hash in ChangedBy(log, user) <==> user in About(log, hash).changes
    ensures hash in TokensOf(log, user) ==> About(log, hash).issued != None
    ensures About(log, hash).issued.Some? && About(log, hash).issued.value.0 == user ==> hash in TokensOf(log, user)
  {
    if log != [] { ByTokenAndByUser(log[..|log| - 1], hash, user); }
  }

  // ---------- the invariant ----------

  /** The users of the jobs that hold the token. */
  function Holding(jobs: seq<Job>, hash: Hash): seq<nat> {
    if jobs == [] then []
    else
      var j := jobs[|jobs| - 1];
      Holding(jobs[..|jobs| - 1], hash) + (if j.Consumed? && j.hash == hash then [j.user] else [])
  }

  ghost predicate TokenOk(h: History, row: Option<Row>, holding: seq<nat>) {
    && (row.Some? ==> h.issued == Some((row.value.user, row.value.expiresAt)))
    && (h.issued.Some? && h.taken == [] ==> row.Some?)
    && (h.taken == [] ==> h.changes == [] && holding == [] && (row.Some? ==> !row.value.used))
    && (h.taken != [] ==> |h.taken| == 1 && h.issued.Some? && h.taken[0] < h.issued.value.1
                          && (row.Some? ==> row.value.used))
    && |h.changes| + |holding| <= 1
    && (h.changes != [] ==> h.issued.Some? && h.changes[0] == h.issued.value.0)
    && (holding != [] ==> h.issued.Some? && holding[0] == h.issued.value.0)
  }

  function RowFor(table: map<Hash, Row>, hash: Hash): Option<Row> {
    if hash in table then Some(table[hash]) else None
  }

  ghost predicate HashOk(s: State, hash: Hash) {
    TokenOk(About(s.log, hash), RowFor(s.table, hash), Holding(s.jobs, hash))
  }

  /** Counting events for a user is counting tokens. */
  ghost predicate UserOk(log: seq<Event>, user: nat) {
    ChangesOf(log, user) == |ChangedBy(log, user)| && IssuedTo(log, user) == |TokensOf(log, user)|
  }

  ghost predicate Inv(s: State) {
    && (forall hash :: HashOk(s, hash))
    && (forall user :: UserOk(s.log, user))
  }

  lemma Snoc(log: seq<Event>, e: Event, hash: Hash)
    ensures About(log + [e], hash) == Then(About(log, hash), e, hash)
  {
    assert (log + [e])[..|log|] == log;
  }

  lemma {:induction false} SnocUser(log: seq<Event>, e: Event, user: nat)
    requires UserOk(log, user)
    requires e.Issued? ==> About(log, e.hash).issued == None
    requires e.Changed? ==> About(log, e.hash).changes == []
    ensures UserOk(log + [e], user)
  {
    assert (log + [e])[..|log|] == log;
    if !e.Taken? { ByTokenAndByUser(log, e.hash, user); }
  }

  lemma HoldingSnoc(jobs: seq<Job>, j: Job, hash: Hash)
    ensures Holding(jobs + [j], hash) == Holding(jobs, hash) + (if j.Consumed? && j.hash == hash then [j.user] else [])
  {
    assert (jobs + [j])[..|jobs|] == jobs;
  }

  /** Finishing a job takes its user out of those that hold the token. */
  lemma {:induction false} HoldingDone(jobs: seq<Job>, i: nat, hash: Hash)
    requires i < |jobs| && jobs[i].Consumed? && |Holding(jobs, hash)| <= 1
    ensures jobs[i].hash != hash ==> Holding(jobs[i := Finished], hash) == Holding(jobs, hash)
    ensures jobs[i].hash == hash ==> Holding(jobs, hash) == [jobs[i].user] && Holding(jobs[i := Finished], hash) == []
  {
    var n := |jobs| - 1;
    if i < n {
      HoldingDone(jobs[..n], i, hash);
      assert jobs[i := Finished][..n] == jobs[..n][i := Finished];
    } else {
      assert jobs[i := Finished][..n] == jobs[..n];
    }
  }

  lemma UsersStayOk(s: State, e: Event)
    requires Inv(s)
    requires e.Issued? ==> About(s.log, e.hash).issued == None
    requires e.Changed? ==> About(s.log, e.hash).changes == []
    ensures forall user :: UserOk(s.log + [e], user)
  {
    forall user ensures UserOk(s.log + [e], user) {
      assert UserOk(s.log, user);
      SnocUser(s.log, e, user);
    }
  }

  lemma IssuedKeepsToken(s: State, x: Hash, user: nat, expiresAt: int, hash: Hash)
    requires HashOk(s, hash) && About(s.log, x).issued == None
    ensures HashOk(State(s.table[x := Row(user, expiresAt, false)], s.jobs, s.log + [Issued(x, user, expiresAt)]), hash)
  {
    Snoc(s.log, Issued(x, user, expiresAt), hash);
  }

  lemma RequestKeepsToken(kind: Kind, s: State, a: Action, hash: Hash)
    requires HashOk(s, hash) && a.Request?
    ensures HashOk(Step(kind, s, a), hash)
  {
    if About(s.log, a.hash).issued == None {
      IssuedKeepsToken(s, a.hash, a.user, a.now + Lifetime(kind), hash);
    }
  }

  lemma RequestKeeps(kind: Kind, s: State, a: Action)
    requires Inv(s) && a.Request?
    ensures Inv(Step(kind, s, a))
  {
    var t := Step(kind, s, a);
    forall hash ensures HashOk(t, hash) {
      assert HashOk(s, hash);
      RequestKeepsToken(kind, s, a, hash);
    }
    if About(s.log, a.hash).issued == None { UsersStayOk(s, Issued(a.hash, a.user, a.now + Lifetime(kind))); }
  }

  lemma ConfirmKeeps(kind: Kind, s: State, a: Action)
    requires Inv(s) && a.Confirm?
    ensures Inv(Step(kind, s, a))
  {
    var t := Step(kind, s, a);
    if t != s {
      var e, job := Taken(a.hash, a.now), Consumed(a.hash, s.table[a.hash].user);
      assert t.log == s.log + [e] && t.jobs == s.jobs + [job] && t.table == Take(kind, s.table, a.hash);
      forall hash ensures HashOk(t, hash) {
        assert HashOk(s, hash);
        Snoc(s.log, e, hash);
        HoldingSnoc(s.jobs, job, hash);
      }
      UsersStayOk(s, e);
    }
  }

  lemma ChangeKeeps(kind: Kind, s: State, a: Action)
    requires Inv(s) && a.Change?
    ensures Inv(Step(kind, s, a))
  {
    var t := Step(kind, s, a);
    if t != s {
      var job := s.jobs[a.job];
      var e := Changed(job.hash, job.user);
      forall hash ensures HashOk(t, hash) {
        assert HashOk(s, hash);
        Snoc(s.log, e, hash);
        HoldingDone(s.jobs, a.job, hash);
      }
      if a.ok {
        assert HashOk(s, job.hash);
        HoldingDone(s.jobs, a.job, job.hash);
        UsersStayOk(s, e);
      }
    }
  }

  lemma {:induction false} InvAlways(kind: Kind, actions: seq<Action>)
    ensures Inv(Run(kind, actions))
  {
    if actions != [] {
      var s, a := Run(kind, actions[..|actions| - 1]), actions[|actions| - 1];
      InvAlways(kind, actions[..|actions| - 1]);
      match a
      case Request(_, _, _) => RequestKeeps(kind, s, a);
      case Confirm(_, _) => ConfirmKeeps(kind, s, a);
      case Change(_, _) => ChangeKeeps(kind, s, a);
    }
  }

  // ---------- the promises ----------

  /** In every interleaving, each token brings at most one change, to the user it was issued
      to, and only if it was taken, once, before its expiry. */
  lemma {:induction false} TokensWorkOnce(kind: Kind, actions: seq<Action>, hash: Hash)
    ensures var h := About(Run(kind, actions).log, hash);
            && |h.changes| <= 1 && |h.taken| <= 1
            && (h.taken != [] ==> h.issued.Some? && h.taken[0] < h.issued.value.1)
            && (h.changes != [] ==> h.taken != [] && h.changes[0] == h.issued.value.0)
  {
    InvAlways(kind, actions);
    var s := Run(kind, actions);
    assert HashOk(s, hash);
  }

  /** The changes to a user never exceed the tokens issued to that user. */
  lemma {:induction false} ChangesAreBounded(kind: Kind, actions: seq<Action>, user: nat)
    ensures var log := Run(kind, actions).log; ChangesOf(log, user) <= IssuedTo(log, user)
  {
    InvAlways(kind, actions);
    var s := Run(kind, actions);
    assert UserOk(s.log, user);
    forall hash | hash in ChangedBy(s.log, user) ensures hash in TokensOf(s.log, user) {
      ByTokenAndByUser(s.log, hash, user);
      assert HashOk(s, hash);
    }
    SubsetSize(ChangedBy(s.log, user), TokensOf(s.log, user));
  }

  /** A token may be consumed exactly as long as it is issued, not taken and not expired. */
  lemma {:induction false} UsableExactly(kind: Kind, actions: seq<Action>, hash: Hash, now: int)
    ensures var s := Run(kind, actions);
            var h := About(s.log, hash);
            Usable(s.table, hash, now) <==> h.issued.Some? && h.taken == [] && now < h.issued.value.1
  {
    InvAlways(kind, actions);
    assert HashOk(Run(kind, actions), hash);
  }

  /** The request asks for the token: a quarter of an hour for a password reset, a day for the
      verification of an address. */
  predicate Asks(kind: Kind, a: Action, hash: Hash, user: nat, expiresAt: int) {
    && a.Request? && a.hash == hash && a.user == user
    && expiresAt == a.now + if kind == Reset then 900 else 86400
  }

  ghost predicate Asked(kind: Kind, actions: seq<Action>, hash: Hash, issued: Option<(nat, int)>) {
    issued.Some? ==> exists i | 0 <= i < |actions| :: Asks(kind, actions[i], hash, issued.value.0, issued.value.1)
  }

  lemma AskedBefore(kind: Kind, actions: seq<Action>, a: Action, hash: Hash, issued: Option<(nat, int)>)
    requires Asked(kind, actions, hash, issued)
    ensures Asked(kind, actions + [a], hash, issued)
  {
    if issued.Some? {
      var i :| 0 <= i < |actions| && Asks(kind, actions[i], hash, issued.value.0, issued.value.1);
      assert (actions + [a])[i] == actions[i];
    }
  }

  lemma StepAsks(kind: Kind, s: State, a: Action, hash: Hash)
    ensures var before, after := About(s.log, hash).issued, About(Step(kind, s, a).log, hash).issued;
            after == before || (after.Some? && Asks(kind, a, hash, after.value.0, after.value.1))
  {
    var t := Step(kind, s, a);
    if t.log != s.log {
      assert t.log == s.log + [t.log[|s.log|]];
      Snoc(s.log, t.log[|s.log|], hash);
    }
  }

  /** In every interleaving, an issued token was requested for its user, and expires a quarter
      of an hour or a day after that. */
  lemma {:induction false} IssuedAsRequested(kind: Kind, actions: seq<Action>, hash: Hash)
    ensures Asked(kind, actions, hash, About(Run(kind, actions).log, hash).issued)
  {
    if actions != [] {
      var before, a := actions[..|actions| - 1], actions[|actions| - 1];
      IssuedAsRequested(kind, before, hash);
      AskedBefore(kind, before, a, hash, About(Run(kind, before).log, hash).issued);
      StepAsks(kind, Run(kind, before), a, hash);
      assert actions == before + [a];
    }
  }

  /** Consuming a usable token and the change it allows go through for the token's user. */
  lemma ConfirmationGoesThrough(kind: Kind, s: State, hash: Hash, now: int)
    requires Usable(s.table, hash, now)
    ensures var t := Step(kind, Step(kind, s, Confirm(hash, now)), Change(|s.jobs|, true));
            && t.log == s.log + [Taken(hash, now), Changed(hash, s.table[hash].user)]
            && !Usable(t.table, hash, now)
  {}

  // ---------- the table ----------

  class TokenTable {
    const kind: Kind
    var table: map<Hash, Row>
    ghost var jobs: seq<Job>
    ghost var log: seq<Event>

    ghost function View(): State reads this {
      State(table, jobs, log)
    }

    constructor (kind: Kind)
      ensures this.kind == kind && View() == Run(kind, [])
    {
      this.kind, table, jobs, log := kind, map[], [], [];
    }

    /** The INSERT of a fresh token. */
    method Issue(hash: Hash, user: nat, now: int)
      requires About(log, hash).issued == None
      modifies this
      ensures View() == Step(kind, old(View()), Request(hash, user, now))
    {
      var expiresAt := now + (if kind == Reset then 900 else 86400);
      table := table[hash := Row(user, expiresAt, false)];
      log := log + [Issued(hash, user, expiresAt)];
    }

    /** The atomic consume, with the user it returns. */
    method Consume(hash: Hash, now: int) returns (user: Option<nat>)
      modifies this
      ensures View() == Step(kind, old(View()), Confirm(hash, now))
      ensures user == if Usable(old(table), hash, now) then Some(old(table)[hash].user) else None
    {
      if hash !in table || table[hash].used || table[hash].expiresAt <= now { return None; }
      var row := table[hash];
      if kind == Reset {
        table := table[hash := row.(used := true)];
      } else {
        table := table - {hash};
      }
      jobs := jobs + [Consumed(hash, row.user)];
      log := log + [Taken(hash, now)];
      user := Some(row.user);
    }
  }
}
