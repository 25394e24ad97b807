/** Consent to scopes: splitting a scope string (section 3.3 of RFC 6749), the recursion of
    `OAuth2StandardController::checkUserConsentAndProceed` over the requested scopes, and the
    saves of `SessionController::consent`. */
module Consent {
  import opened Text

  // ---------- splitting ----------

  /** The piece up to the next blank, if it is not empty. */
  function FirstItem(s: string): seq<string> {
    var i := IndexOf(s, IsBlank);
    if i == 0 then [] else [s[..i]]
  }

  function Behind(s: string): (r: string)
    requires s != ""
    ensures |r| < |s|
  {
    var i := IndexOf(s, IsBlank);
    if i == |s| then "" else s[i + 1..]
  }

  /** `std::getline` on blanks, empty pieces skipped. */
  function Scopes(s: string): seq<string>
    decreases |s|
  {
    if s == "" then [] else FirstItem(s) + Scopes(Behind(s))
  }

  lemma UnfoldScopes(scopes: seq<string>, rest: string)
    requires rest != ""
    ensures scopes + Scopes(rest) == scopes + FirstItem(rest) + Scopes(Behind(rest))
    ensures FirstItem(rest) == [] ==> scopes + FirstItem(rest) == scopes
  {
    Regroup(scopes, FirstItem(rest), Scopes(Behind(rest)));
  }

  lemma Regroup(a: seq<string>, b: seq<string>, c: seq<string>)
    ensures a + (b + c) == a + b + c && (b == [] ==> a + b == a)
  {}

  method SplitScopes(scope: string) returns (scopes: seq<string>)
    ensures scopes == Scopes(scope)
  {
    scopes := [];
    var rest := scope;
    while rest != ""
      invariant scopes + Scopes(rest) == Scopes(scope)
      decreases |rest|
    {
      var i := IndexOf(rest, IsBlank);
      var scopeItem := rest[..i];
      UnfoldScopes(scopes, rest);
      if scopeItem != "" {
        scopes := scopes + [scopeItem];
      }
      rest := if i == |rest| then "" else rest[i + 1..];
    }
  }

  /** A scope token: not empty, no blank. */
  predicate IsToken(t: string) {
    t != "" && ' ' !in t
  }

  /** The token stands in the string at `k`, with a blank or an end on either side. */
  predicate StandsAt(s: string, t: string, k: nat) {
    && k + |t| <= |s| && (forall m | 0 <= m < |t| :: s[k + m] == t[m])
    && (k == 0 || s[k - 1] == ' ') && (k + |t| == |s| || s[k + |t|] == ' ')
  }

  /** Standing behind a blank is standing in the tail. */
  lemma StandsInTail(s: string, t: string, n: nat, k: nat)
    requires 0 < n <= |s| && s[n - 1] == ' '
    ensures StandsAt(s[n..], t, k) <==> StandsAt(s, t, n + k)
  {
    if n + k + |t| <= |s| {
      if StandsAt(s, t, n + k) {
        forall m | 0 <= m < |t| ensures s[n..][k + m] == t[m] { assert s[(n + k) + m] == t[m]; }
      }
      if StandsAt(s[n..], t, k) {
        forall m | 0 <= m < |t| ensures s[(n + k) + m] == t[m] { assert s[n..][k + m] == t[m]; }
      }
    }
  }

  /** The first blank is at `i`. */
  predicate FirstBlank(s: string, i: nat) {
    i <= |s| && (i < |s| ==> s[i] == ' ') && forall j | 0 <= j < i :: s[j] != ' '
  }

  lemma FirstBlankAt(s: string)
    ensures FirstBlank(s, IndexOf(s, IsBlank))
  {
    IndexOfFacts(s, IsBlank);
  }

  lemma LaterPiece(s: string, t: string, i: nat, k: nat)
    requires FirstBlank(s, i) && IsToken(t) && StandsAt(s, t, k) && k > 0
    ensures i < k && i < |s| && StandsAt(s[i + 1..], t, k - i - 1)
  {
    assert i <= k - 1;
    StandsInTail(s, t, i + 1, k - i - 1);
  }

  lemma StandsInFront(s: string, t: string, i: nat)
    requires FirstBlank(s, i) && IsToken(t) && StandsAt(s, t, 0)
    ensures i == |t| && t == s[..i]
  {
    forall m | 0 <= m < |t| ensures s[m] == t[m] != ' ' { assert s[0 + m] == t[m]; }
  }

  lemma FirstItemStands(s: string, i: nat)
    requires FirstBlank(s, i) && i > 0
    ensures IsToken(s[..i]) && StandsAt(s, s[..i], 0)
  {
    forall m | 0 <= m < i ensures s[0 + m] == s[..i][m] {}
  }

  lemma {:induction false} ScopesStand(s: string, t: string)
    requires t in Scopes(s)
    ensures IsToken(t) && exists k: nat :: StandsAt(s, t, k)
    decreases |s|
  {
    var i := IndexOf(s, IsBlank);
    FirstBlankAt(s);
    if t in FirstItem(s) {
      FirstItemStands(s, i);
    } else {
      ScopesStand(Behind(s), t);
      var k: nat :| StandsAt(Behind(s), t, k);
      if i < |s| { StandsInTail(s, t, i + 1, k); }
    }
  }

  lemma FrontIsSplit(s: string, t: string)
    requires IsToken(t) && StandsAt(s, t, 0)
    ensures t in Scopes(s)
  {
    FirstBlankAt(s);
    StandsInFront(s, t, IndexOf(s, IsBlank));
    assert t in FirstItem(s);
  }

  lemma BehindIsSplit(s: string, t: string)
    requires s != "" && t in Scopes(Behind(s))
    ensures t in Scopes(s)
  {}

  /** A token that does not stand in front stands behind the first blank. */
  lemma StandsBehind(s: string, t: string, k: nat) returns (j: nat)
    requires IsToken(t) && StandsAt(s, t, k) && k > 0
    ensures s != "" && StandsAt(Behind(s), t, j)
  {
    var i := IndexOf(s, IsBlank);
    FirstBlankAt(s);
    LaterPiece(s, t, i, k);
    j := k - i - 1;
    BehindBlank(s, i);
  }

  lemma BehindBlank(s: string, i: nat)
    requires s != "" && i == IndexOf(s, IsBlank) && i < |s|
    ensures Behind(s) == s[i + 1..]
  {}

  lemma {:induction false} TokensAreSplit(s: string, t: string, k: nat)
    requires IsToken(t) && StandsAt(s, t, k)
    ensures t in Scopes(s)
    decreases |s|
  {
    if k == 0 {
      FrontIsSplit(s, t);
    } else {
      var j := StandsBehind(s, t, k);
      TokensAreSplit(Behind(s), t, j);
      BehindIsSplit(s, t);
    }
  }

  /** The split is exactly the tokens that stand in the string. */
  lemma ScopesAreTheTokens(s: string, t: string)
    ensures t in Scopes(s) <==> IsToken(t) && exists k: nat :: StandsAt(s, t, k)
  {
    if t in Scopes(s) { ScopesStand(s, t); }
    if IsToken(t) && exists k: nat :: StandsAt(s, t, k) {
      var k: nat :| StandsAt(s, t, k);
      TokensAreSplit(s, t, k);
    }
  }

  function Blanks(n: nat): string {
    seq(n, i => ' ')
  }

  /** Tokens with blanks in front of each, at least one between two, and at the end. */
  function Spaced(tokens: seq<string>, gaps: seq<nat>, last: nat): string
    requires |gaps| == |tokens|
  {
    if tokens == [] then Blanks(last)
    else Blanks(gaps[0]) +
         if |tokens| == 1 then tokens[0] + Blanks(last) else tokens[0] + (" " + Spaced(tokens[1..], gaps[1..], last))
  }

  lemma FirstItemAt(s: string, i: nat)
    requires s != "" && FirstBlank(s, i)
    ensures FirstItem(s) == (if i == 0 then [] else [s[..i]]) && Behind(s) == if i == |s| then "" else s[i + 1..]
  {
    IndexOfUnique(s, IsBlank, i);
  }

  /** The split at the first blank: `front` stands before it and `rest` behind. */
  lemma ScopesAt(s: string, front: string, rest: string)
    requires s == front + " " + rest && ' ' !in front
    ensures Scopes(s) == (if front == "" then [] else [front]) + Scopes(rest)
  {
    assert s[..|front|] == front && s[|front| + 1..] == rest && s[|front|] == ' ';
    assert forall j | 0 <= j < |front| :: s[j] == front[j];
    FirstItemAt(s, |front|);
  }

  lemma BlankInFront(s: string)
    ensures Scopes(" " + s) == Scopes(s)
  {
    assert " " + s == "" + " " + s;
    ScopesAt(" " + s, "", s);
    assert [] + Scopes(s) == Scopes(s);
  }

  lemma BlanksCons(n: nat, s: string)
    requires n > 0
    ensures Blanks(n) + s == " " + (Blanks(n - 1) + s)
  {}

  lemma {:induction false} SkipBlanks(n: nat, s: string)
    ensures Scopes(Blanks(n) + s) == Scopes(s)
  {
    if n == 0 {
      assert Blanks(0) + s == s;
    } else {
      SkipBlanks(n - 1, s);
      BlankInFront(Blanks(n - 1) + s);
      BlanksCons(n, s);
    }
  }

  lemma TokenAlone(t: string)
    requires IsToken(t)
    ensures Scopes(t) == [t]
  {
    FirstItemAt(t, |t|);
    assert t[..|t|] == t && [t] + [] == [t];
  }

  lemma TokenInFront(t: string, rest: string)
    requires IsToken(t)
    ensures Scopes(t + (" " + rest)) == [t] + Scopes(rest)
  {
    assert t + (" " + rest) == t + " " + rest;
    ScopesAt(t + (" " + rest), t, rest);
  }

  lemma LastToken(t: string, last: nat)
    requires IsToken(t)
    ensures Scopes(t + Blanks(last)) == [t]
  {
    if last == 0 {
      TokenAlone(t);
      assert t + Blanks(0) == t;
    } else {
      TokenInFront(t, Blanks(last - 1));
      SkipBlanks(last - 1, "");
      BlanksCons(last, "");
      assert Blanks(last) + "" == Blanks(last) && Blanks(last - 1) + "" == Blanks(last - 1);
      assert [t] + [] == [t];
    }
  }

  /** The split gives the tokens in their order, whatever blanks stand around them: this is the
      order in which they are checked. */
  lemma {:induction false} ScopesInOrder(tokens: seq<string>, gaps: seq<nat>, last: nat)
    requires |gaps| == |tokens| && forall i | 0 <= i < |tokens| :: IsToken(tokens[i])
    ensures Scopes(Spaced(tokens, gaps, last)) == tokens
  {
    if tokens == [] {
      SkipBlanks(last, "");
      assert Blanks(last) + "" == Blanks(last);
    } else if |tokens| == 1 {
      SkipBlanks(gaps[0], tokens[0] + Blanks(last));
      LastToken(tokens[0], last);
      assert tokens == [tokens[0]];
    } else {
      ScopesInOrder(tokens[1..], gaps[1..], last);
      OneTokenMore(tokens[0], gaps[0], Spaced(tokens[1..], gaps[1..], last));
      assert tokens == [tokens[0]] + tokens[1..];
    }
  }

  lemma OneTokenMore(t: string, gap: nat, rest: string)
    requires IsToken(t)
    ensures Scopes(Blanks(gap) + (t + (" " + rest))) == [t] + Scopes(rest)
  {
    SkipBlanks(gap, t + (" " + rest));
    TokenInFront(t, rest);
  }

  // ---------- checking ----------

  /** A user's consents for one client. */
  type Consents = set<string>

  datatype Reply = Code | ConsentPage(missing: string)

  /** One scope after the other: the first without consent ends in the consent page. Each check
      waits for the database, so check number `n` sees the consents of its own moment. */
  function CheckAndProceed(seen: nat -> Consents, checked: nat, requested: seq<string>): Reply
    decreases requested
  {
    if requested == [] then Code
    else if requested[0] !in seen(checked) then ConsentPage(requested[0])
    else CheckAndProceed(seen, checked + 1, requested[1..])
  }

  /** The first `n` scopes are all consented to when they are checked. */
  ghost predicate ConsentedUpTo(seen: nat -> Consents, checked: nat, requested: seq<string>, n: nat) {
    forall i: nat | i < n && i < |requested| :: requested[i] in seen(checked + i)
  }

  /** A code is issued exactly when every requested scope is consented to when it is checked;
      otherwise the user is sent to consent for the first that is not. */
  lemma {:induction false} CodeIffConsented(seen: nat -> Consents, checked: nat, requested: seq<string>)
    ensures CheckAndProceed(seen, checked, requested) == Code <==> ConsentedUpTo(seen, checked, requested, |requested|)
    ensures var reply := CheckAndProceed(seen, checked, requested);
            reply.ConsentPage? ==>
              exists i: nat :: i < |requested| && requested[i] == reply.missing && reply.missing !in seen(checked + i)
                               && ConsentedUpTo(seen, checked, requested, i)
    decreases requested
  {
    if requested != [] {
      var rest := requested[1..];
      CodeIffConsented(seen, checked + 1, rest);
      var reply := CheckAndProceed(seen, checked, requested);
      if requested[0] !in seen(checked) {
        assert requested[0] !in seen(checked + 0);
        assert ConsentedUpTo(seen, checked, requested, 0);
      } else {
        ConsentedTail(seen, checked, requested, |rest|);
        if reply.ConsentPage? {
          var i: nat :| i < |rest| && rest[i] == reply.missing && reply.missing !in seen(checked + 1 + i)
                        && ConsentedUpTo(seen, checked + 1, rest, i);
          assert requested[i + 1] == reply.missing && reply.missing !in seen(checked + (i + 1));
          ConsentedTail(seen, checked, requested, i);
        }
      }
    }
  }

  lemma ConsentedTail(seen: nat -> Consents, checked: nat, requested: seq<string>, n: nat)
    requires requested != [] && requested[0] in seen(checked)
    ensures ConsentedUpTo(seen, checked, requested, n + 1) == ConsentedUpTo(seen, checked + 1, requested[1..], n)
  {
    var rest := requested[1..];
    if ConsentedUpTo(seen, checked, requested, n + 1) {
      forall i: nat | i < n && i < |rest| ensures rest[i] in seen(checked + 1 + i) {
        assert requested[i + 1] in seen(checked + (i + 1));
      }
    }
    if ConsentedUpTo(seen, checked + 1, rest, n) {
      forall i: nat | i < n + 1 && i < |requested| ensures requested[i] in seen(checked + i) {
        if i > 0 { assert rest[i - 1] in seen(checked + 1 + (i - 1)); }
      }
    }
  }

  // ---------- saving ----------

  /** The saves of one consent: the first must land for a code to be issued, the others are
      sent and not awaited; `landed` says which of them have arrived. */
  function AfterSaves(consents: Consents, scopes: seq<string>, landed: set<nat>): Consents {
    consents + set i | 0 <= i < |scopes| && i in landed :: scopes[i]
  }

  /** Once all saves of a consent for the string `s` have landed, and as long as no consent is
      withdrawn, any string whose tokens all stand in `s` proceeds to a code. */
  lemma ConsentCovers(consents: Consents, s: string, landed: set<nat>, seen: nat -> Consents, later: string)
    requires forall i: nat | i < |Scopes(s)| :: i in landed
    requires forall n :: AfterSaves(consents, Scopes(s), landed) <= seen(n)
    requires forall t | IsToken(t) && (exists k: nat :: StandsAt(later, t, k)) :: exists k: nat :: StandsAt(s, t, k)
    ensures CheckAndProceed(seen, 0, Scopes(later)) == Code
  {
    var granted := AfterSaves(consents, Scopes(s), landed);
    forall t | t in Scopes(later) ensures t in granted {
      ScopesAreTheTokens(later, t);
      ScopesAreTheTokens(s, t);
      var i :| 0 <= i < |Scopes(s)| && Scopes(s)[i] == t;
      assert i in landed;
    }
    forall i: nat | i < |Scopes(later)| ensures Scopes(later)[i] in seen(0 + i) {
      assert granted <= seen(i);
    }
    CodeIffConsented(seen, 0, Scopes(later));
  }

  /** And no other: a token that was not consented to before and does not stand in `s`, or whose
      save has not landed, stops the request. */
  lemma NothingElseIsCovered(consents: Consents, s: string, landed: set<nat>, seen: nat -> Consents, later: string,
                             t: string, k: nat)
    requires forall n :: seen(n) <= AfterSaves(consents, Scopes(s), landed)
    requires IsToken(t) && StandsAt(later, t, k) && t !in consents
    requires forall i: nat | i < |Scopes(s)| && Scopes(s)[i] == t :: i !in landed
    ensures CheckAndProceed(seen, 0, Scopes(later)).ConsentPage?
  {
    ScopesAreTheTokens(later, t);
    var i :| 0 <= i < |Scopes(later)| && Scopes(later)[i] == t;
    assert seen(0 + i) <= AfterSaves(consents, Scopes(s), landed);
    assert t !in seen(0 + i);
    CodeIffConsented(seen, 0, Scopes(later));
  }
}
