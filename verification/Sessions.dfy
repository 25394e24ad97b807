/** What a password change does to sessions (UserSelfServiceController.cc, `changePassword`):
    after the password, all access tokens and then all refresh tokens of the user are revoked,
    each by its own statement, which may fail, while tokens are issued and revoked elsewhere. */
module Sessions {

  type Key = string

  datatype Token = Token(owner: string, revoked: bool)

  type Tokens = map<Key, Token>

  /** A password change whose password is set, by how far its revocations have come. The keys
      are those the user's tokens had when the password was set. */
  datatype Job =
    | RevokingAccess(user: string, access: set<Key>, refresh: set<Key>)
    | RevokingRefresh(user: string, access: set<Key>, refresh: set<Key>, accessOk: bool)
    | Answered(user: string, access: set<Key>, refresh: set<Key>, allRevoked: bool)

  datatype State = State(access: Tokens, refresh: Tokens, jobs: seq<Job>)

  datatype Action =
    | IssueAccess(key: Key, owner: string)
    | IssueRefresh(key: Key, owner: string)
    | RevokeElsewhere(keys: set<Key>)
    | PasswordSet(user: string)
    | Next(job: nat, ok: bool)

  function KeysOf(tokens: Tokens, owner: string): set<Key> {
    set k | k in tokens && tokens[k].owner == owner
  }

  /** `UPDATE ... SET revoked = true WHERE user_id = $1` */
  function RevokeAll(tokens: Tokens, owner: string): Tokens {
    map k | k in tokens :: if tokens[k].owner == owner then tokens[k].(revoked := true) else tokens[k]
  }

  function RevokeKeys(tokens: Tokens, keys: set<Key>): Tokens {
    map k | k in tokens :: if k in keys then tokens[k].(revoked := true) else tokens[k]
  }

  function Step(s: State, a: Action): State {
    match a
    case IssueAccess(key, owner) =>
      if key in s.access then s else s.(access := s.access[key := Token(owner, false)])
    case IssueRefresh(key, owner) =>
      if key in s.refresh then s else s.(refresh := s.refresh[key := Token(owner, false)])
    case RevokeElsewhere(keys) => s.(access := RevokeKeys(s.access, keys), refresh := RevokeKeys(s.refresh, keys))
    case PasswordSet(user) =>
      s.(jobs := s.jobs + [RevokingAccess(user, KeysOf(s.access, user), KeysOf(s.refresh, user))])
    case Next(j, ok) =>
      if j >= |s.jobs| then s
      else match s.jobs[j]
        case RevokingAccess(user, access, refresh) =>
          State(if ok then RevokeAll(s.access, user) else s.access, s.refresh,
                s.jobs[j := RevokingRefresh(user, access, refresh, ok)])
        case RevokingRefresh(user, access, refresh, accessOk) =>
          State(s.access, if ok then RevokeAll(s.refresh, user) else s.refresh,
                s.jobs[j := Answered(user, access, refresh, accessOk && ok)])
        case Answered(_, _, _, _) => s
  }

  function Run(actions: seq<Action>): State {
    if actions == [] then State(map[], map[], [])
    else Step(Run(actions[..|actions| - 1]), actions[|actions| - 1])
  }

  /** No token disappears, changes its owner, or comes back from being revoked. */
  ghost predicate OnlyRevoked(before: Tokens, after: Tokens) {
    forall k | k in before ::
      k in after && after[k].owner == before[k].owner && (before[k].revoked ==> after[k].revoked)
  }

  ghost predicate Revoked(tokens: Tokens, keys: set<Key>) {
    forall k | k in keys :: k in tokens && tokens[k].revoked
  }

  ghost predicate Owned(tokens: Tokens, keys: set<Key>, user: string) {
    forall k | k in keys :: k in tokens && tokens[k].owner == user
  }

  ghost predicate JobOk(s: State, job: Job) {
    && Owned(s.access, job.access, job.user) && Owned(s.refresh, job.refresh, job.user)
    && (job.RevokingRefresh? && job.accessOk ==> Revoked(s.access, job.access))
    && (job.Answered? && job.allRevoked ==> Revoked(s.access, job.access) && Revoked(s.refresh, job.refresh))
  }

  ghost predicate Inv(s: State) {
    forall j | 0 <= j < |s.jobs| :: JobOk(s, s.jobs[j])
  }

  lemma StepOnlyRevokes(s: State, a: Action)
    ensures OnlyRevoked(s.access, Step(s, a).access) && OnlyRevoked(s.refresh, Step(s, a).refresh)
  {}

  lemma JobStays(s: State, t: State, job: Job)
    requires JobOk(s, job) && OnlyRevoked(s.access, t.access) && OnlyRevoked(s.refresh, t.refresh)
    ensures JobOk(t, job)
  {}

  lemma {:induction false} StepKeepsInv(s: State, a: Action)
    requires Inv(s)
    ensures Inv(Step(s, a))
  {
    var t := Step(s, a);
    StepOnlyRevokes(s, a);
    forall j | 0 <= j < |t.jobs| ensures JobOk(t, t.jobs[j]) {
      if j < |s.jobs| {
        assert JobOk(s, s.jobs[j]);
        JobStays(s, t, s.jobs[j]);
      }
    }
  }

  lemma {:induction false} InvAlways(actions: seq<Action>)
    ensures Inv(Run(actions))
  {
    if actions != [] {
      InvAlways(actions[..|actions| - 1]);
      StepKeepsInv(Run(actions[..|actions| - 1]), actions[|actions| - 1]);
    }
  }

  /** In every interleaving, a revoked token stays revoked, and none disappears or changes
      hands. */
  lemma {:induction false} RevokedStays(before: seq<Action>, later: seq<Action>)
    ensures OnlyRevoked(Run(before).access, Run(before + later).access)
    ensures OnlyRevoked(Run(before).refresh, Run(before + later).refresh)
  {
    if later == [] {
      assert before + later == before;
    } else {
      var n := |later| - 1;
      RevokedStays(before, later[..n]);
      assert (before + later)[..|before + later| - 1] == before + later[..n];
      StepOnlyRevokes(Run(before + later[..n]), later[n]);
    }
  }

  /** The job's user and keys are settled when it starts. */
  predicate SameJob(job: Job, later: Job) {
    later.user == job.user && later.access == job.access && later.refresh == job.refresh
  }

  lemma {:induction false} JobKeepsItsKeys(before: seq<Action>, later: seq<Action>, j: nat)
    requires j < |Run(before).jobs|
    ensures j < |Run(before + later).jobs| && SameJob(Run(before).jobs[j], Run(before + later).jobs[j])
  {
    if later == [] {
      assert before + later == before;
    } else {
      var n := |later| - 1;
      JobKeepsItsKeys(before, later[..n], j);
      assert (before + later)[..|before + later| - 1] == before + later[..n];
      assert (before + later)[|before + later| - 1] == later[n];
    }
  }

  /** In every interleaving, an answer that says all sessions have been revoked means that
      every token the user had when the password was set is revoked, and stays so. */
  lemma AllRevokedIsTrue(before: seq<Action>, user: string, later: seq<Action>)
    ensures var s, t := Run(before), Run(before + [PasswordSet(user)] + later);
            && |s.jobs| < |t.jobs|
            && var job := t.jobs[|s.jobs|];
               job.Answered? && job.allRevoked ==>
                 Revoked(t.access, KeysOf(s.access, user)) && Revoked(t.refresh, KeysOf(s.refresh, user))
  {
    var started := before + [PasswordSet(user)];
    assert started[..|started| - 1] == before;
    JobKeepsItsKeys(started, later, |Run(before).jobs|);
    InvAlways(started + later);
    assert JobOk(Run(started + later), Run(started + later).jobs[|Run(before).jobs|]);
  }

  /** The tokens of everybody else. */
  ghost predicate OthersSame(before: Tokens, after: Tokens, user: string) {
    && before.Keys == after.Keys
    && forall k | k in before && before[k].owner != user :: after[k] == before[k]
  }

  /** A step of a password change revokes all tokens of its user in one of the two tables, if
      its statement goes through, and leaves the tokens of everybody else as they are. */
  lemma RevocationIsTheUsers(s: State, j: nat, ok: bool)
    requires j < |s.jobs|
    ensures var t, job := Step(s, Next(j, ok)), s.jobs[j];
            && OthersSame(s.access, t.access, job.user) && OthersSame(s.refresh, t.refresh, job.user)
            && (job.RevokingAccess? && ok ==> Revoked(t.access, KeysOf(s.access, job.user)))
            && (job.RevokingRefresh? && ok ==> Revoked(t.refresh, KeysOf(s.refresh, job.user)))
            && (!ok ==> t.access == s.access && t.refresh == s.refresh)
  {}

  /** The chain answers after two statements, and promises everything if both went through. */
  lemma ChainAnswers(s: State, user: string, first: bool, second: bool)
    ensures var j := |s.jobs|;
            var t := Step(Step(Step(s, PasswordSet(user)), Next(j, first)), Next(j, second));
            && j < |t.jobs| && t.jobs[j].Answered? && t.jobs[j].user == user
            && t.jobs[j].access == KeysOf(s.access, user) && t.jobs[j].refresh == KeysOf(s.refresh, user)
            && (t.jobs[j].allRevoked <==> first && second)
  {}

  class TokenTables {
    var access: Tokens
    var refresh: Tokens

    /** The revocation chain of `changePassword`; `note` is the answer's promise. A failure of
        the first statement does not stop the second, and neither fails the request. */
    method RevokeSessions(user: string, accessOk: bool, refreshOk: bool) returns (note: bool)
      modifies this
      ensures access == if accessOk then RevokeAll(old(access), user) else old(access)
      ensures refresh == if refreshOk then RevokeAll(old(refresh), user) else old(refresh)
      ensures note ==> Revoked(access, KeysOf(old(access), user)) && Revoked(refresh, KeysOf(old(refresh), user))
      ensures note <==> accessOk && refreshOk
      ensures OthersSame(old(access), access, user) && OthersSame(old(refresh), refresh, user)
    {
      if accessOk {
        access := RevokeAll(access, user);
        if refreshOk {
          refresh := RevokeAll(refresh, user);
          return true;
        }
        return false;
      }
      if refreshOk {
        refresh := RevokeAll(refresh, user);
      }
      note := false;
    }
  }
}
