/** The browser's token store (OAuth2Frontend/src/services/http.ts): an access token in memory,
    a refresh token in memory and in local storage, the restore on page load and the response
    interceptor that refreshes once on a 401. Requests, refreshes, restores and logouts
    interleave at every await. */
module TokenStore {
  import opened Text

  /** A value out of a response body or a module variable. */
  datatype Js = Undefined | Null | Str(s: string)

  /** `if (v)` */
  predicate Truthy(v: Js) {
    v.Str? && v.s != ""
  }

  /** `localStorage` holds strings: `setItem` turns every value into one. */
  function AsItem(v: Js): Js {
    match v
    case Undefined => Str("undefined")
    case Null => Str("null")
    case Str(s) => v
  }

  /** The module variables and the stored item; `getItem` of a missing item is null. */
  datatype Store = Store(access: Js, refresh: Js, stored: Js)

  function SetTokens(s: Store, access: Js, refresh: Js): Store {
    Store(access, refresh, AsItem(refresh))
  }

  function ClearTokens(s: Store): Store {
    Store(Null, Null, Null)
  }

  /** The refresh token in memory is the stored one. */
  predicate InSync(s: Store) {
    s.refresh == s.stored
  }

  /** Where an access token is present, as the module tests it, so is a refresh token. */
  predicate AccessHasRefresh(s: Store) {
    Truthy(s.access) ==> Truthy(s.refresh)
  }

  // ---------- interleavings ----------

  /** A request by what it waits for, with how often it was sent and what it caused. */
  datatype Phase =
    | Sent         // waiting for the response
    | Refreshing   // its 401 is waiting for new tokens
    | Settled

  datatype Request = Request(phase: Phase, retry: bool, sends: nat, refreshes: nat)

  datatype State = State(store: Store, requests: seq<Request>, restores: nat)

  /** What a refresh call brings. */
  datatype Refreshed = Tokens(access: Js, refresh: Js) | Refused

  datatype Action =
    | Send
    | Respond(i: nat, unauthorized: bool)
    | RefreshDone(i: nat, result: Refreshed)
    | StartRestore
    | RestoreDone(result: Refreshed)
    | Login(access: string, refresh: string)
    | Logout

  function AfterRefresh(s: Store, result: Refreshed): Store {
    match result
    case Tokens(access, refresh) => SetTokens(s, access, refresh)
    case Refused => ClearTokens(s)
  }

  function Step(s: State, a: Action): State {
    match a
    case Send => s.(requests := s.requests + [Request(Sent, false, 1, 0)])
    case Respond(i, unauthorized) =>
      if i >= |s.requests| || s.requests[i].phase != Sent then s
      else
        var r := s.requests[i];
        if unauthorized && Truthy(s.store.refresh) && !r.retry then
          s.(requests := s.requests[i := r.(phase := Refreshing, retry := true, refreshes := r.refreshes + 1)])
        else s.(requests := s.requests[i := r.(phase := Settled)])
    case RefreshDone(i, result) =>
      if i >= |s.requests| || s.requests[i].phase != Refreshing then s
      else
        var r := s.requests[i];
        var next := if result.Tokens? then r.(phase := Sent, sends := r.sends + 1) else r.(phase := Settled);
        s.(store := AfterRefresh(s.store, result), requests := s.requests[i := next])
    case StartRestore =>
      if Truthy(s.store.access) || !Truthy(s.store.refresh) then s else s.(restores := s.restores + 1)
    case RestoreDone(result) =>
      if s.restores == 0 then s else s.(store := AfterRefresh(s.store, result), restores := s.restores - 1)
    case Login(access, refresh) => s.(store := SetTokens(s.store, Str(access), Str(refresh)))
    case Logout => s.(store := ClearTokens(s.store))
  }

  /** The module when the page has loaded: what the storage holds. */
  function Loaded(item: Js): State {
    State(Store(Null, item, item), [], 0)
  }

  function After(s: State, actions: seq<Action>): State {
    if actions == [] then s else Step(After(s, actions[..|actions| - 1]), actions[|actions| - 1])
  }

  function Run(item: Js, actions: seq<Action>): State {
    After(Loaded(item), actions)
  }

  /** The tokens a step hands to `setTokens`: those of a login, and those of a refresh that
      some request or restore is waiting for. */
  function NewTokens(s: State, a: Action): Option<(Js, Js)> {
    match a
    case Login(access, refresh) => Some((Str(access), Str(refresh)))
    case RefreshDone(i, Tokens(access, refresh)) =>
      if i < |s.requests| && s.requests[i].phase == Refreshing then Some((access, refresh)) else None
    case RestoreDone(Tokens(access, refresh)) => if s.restores > 0 then Some((access, refresh)) else None
    case _ => None
  }

  ghost predicate RequestOk(r: Request) {
    match r.phase
    case Sent => (!r.retry && r.sends == 1 && r.refreshes == 0) || (r.retry && r.sends == 2 && r.refreshes == 1)
    case Refreshing => r.retry && r.sends == 1 && r.refreshes == 1
    case Settled => r.sends <= 2 && r.refreshes <= 1
  }

  lemma {:induction false} RequestsAlways(item: Js, actions: seq<Action>)
    ensures forall i | 0 <= i < |Run(item, actions).requests| :: RequestOk(Run(item, actions).requests[i])
  {
    if actions != [] {
      var s := Run(item, actions[..|actions| - 1]);
      RequestsAlways(item, actions[..|actions| - 1]);
      forall i | 0 <= i < |Run(item, actions).requests| ensures RequestOk(Run(item, actions).requests[i]) {
        if i < |s.requests| { assert RequestOk(s.requests[i]); }
      }
    }
  }

  /** In every interleaving each request is sent at most twice and refreshes at most once. */
  lemma AtMostOneRetry(item: Js, actions: seq<Action>, i: nat)
    requires i < |Run(item, actions).requests|
    ensures var r := Run(item, actions).requests[i]; r.sends <= 2 && r.refreshes <= 1
  {
    RequestsAlways(item, actions);
    assert RequestOk(Run(item, actions).requests[i]);
  }

  /** The step brings the end of a login: a logout, or a refresh that is refused. */
  predicate Clears(s: State, a: Action) {
    match a
    case Logout => true
    case RefreshDone(i, Refused) => i < |s.requests| && s.requests[i].phase == Refreshing
    case RestoreDone(Refused) => s.restores > 0
    case _ => false
  }

  /** A step sets new tokens, clears the store, or leaves it alone. */
  lemma StoreAfter(s: State, a: Action)
    ensures var t, tokens := Step(s, a).store, NewTokens(s, a);
            t == if tokens.Some? then SetTokens(s.store, tokens.value.0, tokens.value.1)
                 else if Clears(s, a) then Store(Null, Null, Null)
                 else s.store
  {}

  /** The new tokens of every step of a run satisfy `p`. */
  predicate AllNewTokens(item: Js, actions: seq<Action>, p: (Js, Js) -> bool) {
    actions == []
    || (var before, last := actions[..|actions| - 1], actions[|actions| - 1];
        AllNewTokens(item, before, p) && TokensSatisfy(NewTokens(Run(item, before), last), p))
  }

  predicate TokensSatisfy(tokens: Option<(Js, Js)>, p: (Js, Js) -> bool) {
    tokens.Some? ==> p(tokens.value.0, tokens.value.1)
  }

  /** The store satisfies `p` at the start of a run and after each of its steps. */
  predicate AllStores(item: Js, actions: seq<Action>, p: Store -> bool) {
    p(Run(item, actions).store) && (actions == [] || AllStores(item, actions[..|actions| - 1], p))
  }

  function IsString(access: Js, refresh: Js): bool {
    refresh.Str?
  }

  function RefreshIfAccess(access: Js, refresh: Js): bool {
    Truthy(access) ==> Truthy(refresh)
  }

  /** In every interleaving, the refresh token in memory is the stored one after every step
      exactly when every login and every refresh that takes effect brings a string: a response
      without a refresh token leaves `undefined` in memory and its name in storage. */
  lemma {:induction false} InSyncExactly(item: Js, actions: seq<Action>)
    ensures AllStores(item, actions, InSync) <==> AllNewTokens(item, actions, IsString)
  {
    if actions != [] {
      var before := actions[..|actions| - 1];
      InSyncExactly(item, before);
      StoreAfter(Run(item, before), actions[|actions| - 1]);
    }
  }

  /** In every interleaving, a present access token has a present refresh token after every
      step exactly when that is true of the tokens of every login and every refresh that takes
      effect. */
  lemma {:induction false} AccessHasRefreshExactly(item: Js, actions: seq<Action>)
    ensures AllStores(item, actions, AccessHasRefresh) <==> AllNewTokens(item, actions, RefreshIfAccess)
  {
    if actions != [] {
      var before := actions[..|actions| - 1];
      AccessHasRefreshExactly(item, before);
      StoreAfter(Run(item, before), actions[|actions| - 1]);
    }
  }

  /** Neither promise holds of every run: one restore whose response has no refresh token
      breaks both. */
  lemma IncompleteRefreshLosesBoth(item: string, access: string)
    requires item != "" && access != ""
    ensures var actions := [StartRestore, RestoreDone(Tokens(Str(access), Undefined))];
            && Run(Str(item), actions).store == Store(Str(access), Undefined, Str("undefined"))
            && !AllStores(Str(item), actions, InSync)
            && !AllStores(Str(item), actions, AccessHasRefresh)
  {
    var actions := [StartRestore, RestoreDone(Tokens(Str(access), Undefined))];
    var start := Loaded(Str(item));
    assert actions[..1] == [StartRestore];
    OneAfter(start, StartRestore);
    assert Run(Str(item), actions[..1]) == Step(start, StartRestore);
    assert Run(Str(item), actions) == Step(Step(start, StartRestore), actions[1]);
    assert Run(Str(item), actions).store == Store(Str(access), Undefined, Str("undefined"));
  }

  // ---------- after a logout ----------

  /** No restore and no request waits for new tokens. */
  predicate NoRefreshUnderWay(s: State) {
    s.restores == 0 && forall i | 0 <= i < |s.requests| :: s.requests[i].phase != Refreshing
  }

  predicate NoLogin(actions: seq<Action>) {
    forall a <- actions :: !a.Login?
  }

  const EMPTY := Store(Null, Null, Null)

  lemma EmptyStep(s: State, a: Action)
    requires s.store == EMPTY && NoRefreshUnderWay(s) && !a.Login?
    ensures Step(s, a).store == EMPTY && NoRefreshUnderWay(Step(s, a))
  {}

  lemma {:induction false} EmptyStays(s: State, actions: seq<Action>)
    requires s.store == EMPTY && NoRefreshUnderWay(s) && NoLogin(actions)
    ensures After(s, actions).store == EMPTY && NoRefreshUnderWay(After(s, actions))
  {
    if actions != [] {
      assert actions[|actions| - 1] in actions;
      EmptyStays(s, actions[..|actions| - 1]);
      EmptyStep(After(s, actions[..|actions| - 1]), actions[|actions| - 1]);
    }
  }

  lemma OneAfter(s: State, a: Action)
    ensures After(s, [a]) == Step(s, a)
  {
    assert [a][..0] == [];
  }

  /** After a logout, the store stays empty in every continuation without a login exactly when
      no refresh is under way: one that is under way logs the user in again. */
  lemma {:induction false} LogoutLastsExactly(s: State)
    ensures var out := Step(s, Logout);
            (forall actions | NoLogin(actions) :: After(out, actions).store == EMPTY) <==> NoRefreshUnderWay(s)
  {
    var out := Step(s, Logout);
    if NoRefreshUnderWay(s) {
      forall actions | NoLogin(actions) ensures After(out, actions).store == EMPTY {
        EmptyStays(out, actions);
      }
    } else if s.restores > 0 {
      var a := RestoreDone(Tokens(Str("access"), Str("refresh")));
      OneAfter(out, a);
      assert NoLogin([a]);
    } else {
      var i :| 0 <= i < |s.requests| && s.requests[i].phase == Refreshing;
      var a := RefreshDone(i, Tokens(Str("access"), Str("refresh")));
      OneAfter(out, a);
      assert NoLogin([a]);
    }
  }

  // ---------- the module ----------

  class Http {
    var accessToken: Js
    var refreshToken: Js
    var item: Js
    var requests: seq<Request>
    var restores: nat

    ghost function View(): State reads this {
      State(Store(accessToken, refreshToken, item), requests, restores)
    }

    constructor (stored: Js)
      ensures View() == Loaded(stored)
      ensures accessToken == Null && refreshToken == stored && item == stored && requests == [] && restores == 0
    {
      accessToken, refreshToken, item := Null, stored, stored;
      requests, restores := [], 0;
    }

    method SetBoth(access: Js, refresh: Js)
      modifies this`accessToken, this`refreshToken, this`item
      ensures View() == old(View()).(store := SetTokens(old(View()).store, access, refresh))
    {
      accessToken := access;
      refreshToken := refresh;
      item := AsItem(refresh);
    }

    method Clear()
      modifies this`accessToken, this`refreshToken, this`item
      ensures View() == old(View()).(store := ClearTokens(old(View()).store))
    {
      accessToken := Null;
      refreshToken := Null;
      item := Null;
    }

    /** `tryRestoreSession` up to its await: an answer at once, or a refresh under way. */
    method TryRestoreSession() returns (answer: Option<bool>)
      modifies this`restores
      ensures View() == Step(old(View()), StartRestore)
      ensures answer == if Truthy(accessToken) then Some(true) else if !Truthy(refreshToken) then Some(false) else None
      ensures answer == None <==> restores == old(restores) + 1
    {
      if Truthy(accessToken) { return Some(true); }
      if !Truthy(refreshToken) { return Some(false); }
      restores := restores + 1;
      answer := None;
    }

    /** `tryRestoreSession` behind its await, whatever has happened meanwhile. */
    method FinishRestore(result: Refreshed) returns (restored: bool)
      requires restores > 0
      modifies this
      ensures View() == Step(old(View()), RestoreDone(result))
      ensures match result
              case Tokens(access, refresh) => accessToken == access && refreshToken == refresh
              case Refused => accessToken == Null && refreshToken == Null && item == Null
      ensures restored <==> result.Tokens?
    {
      restores := restores - 1;
      match result
      case Tokens(access, refresh) =>
        SetBoth(access, refresh);
        restored := true;
      case Refused =>
        Clear();
        restored := false;
    }

    /** The interceptor up to its await: a first 401 with a refresh token at hand refreshes. */
    method OnResponse(i: nat, unauthorized: bool) returns (refreshing: bool)
      requires i < |requests| && requests[i].phase == Sent
      modifies this`requests
      ensures View() == Step(old(View()), Respond(i, unauthorized))
      ensures refreshing <==> unauthorized && Truthy(refreshToken) && !old(requests[i].retry)
      ensures requests[i].phase == if refreshing then Refreshing else Settled
      ensures requests[i].retry <==> refreshing || old(requests[i].retry)
    {
      var r := requests[i];
      refreshing := unauthorized && Truthy(refreshToken) && !r.retry;
      if refreshing {
        requests := requests[i := r.(phase := Refreshing, retry := true, refreshes := r.refreshes + 1)];
      } else {
        requests := requests[i := r.(phase := Settled)];
      }
    }

    /** The interceptor behind its await: the request is sent again, or the user logged out. */
    method OnRefreshed(i: nat, result: Refreshed)
      requires i < |requests| && requests[i].phase == Refreshing
      modifies this
      ensures View() == Step(old(View()), RefreshDone(i, result))
      ensures match result
              case Tokens(access, refresh) =>
                && accessToken == access && refreshToken == refresh
                && requests[i].phase == Sent && requests[i].sends == old(requests[i].sends) + 1
              case Refused =>
                accessToken == Null && refreshToken == Null && item == Null && requests[i].phase == Settled
    {
      var r := requests[i];
      match result
      case Tokens(access, refresh) =>
        SetBoth(access, refresh);
        requests := requests[i := r.(phase := Sent, sends := r.sends + 1)];
      case Refused =>
        Clear();
        requests := requests[i := r.(phase := Settled)];
    }
  }
}
