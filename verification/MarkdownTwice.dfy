/** Rewriting twice. One pass can join a new occurrence of a pattern out of what stands around
    a replaced one, so a second pass may go on; it changes nothing exactly when no pattern
    occurs outside the code. What makes that exact is that no rule can undo another: each
    raises a weight of the text. */
module MarkdownTwice {
  import opened Text
  import opened MarkdownPaths

  // ---------- weights ----------

  /** Slashes weigh, and the marks that the rules take out of the old names weigh most. */
  function CharWeight(c: char): int {
    if IsMark(c) then -1000 else if c == '/' then 1 else if c == 'u' then -1 else 0
  }

  predicate IsMark(c: char) {
    c == '_' || c == 'P' || c == 'G'
  }

  function Weight(s: string): int {
    WeightTo(s, |s|)
  }

  function WeightTo(s: string, n: nat): int
    requires n <= |s|
  {
    if n == 0 then 0 else WeightTo(s, n - 1) + CharWeight(s[n - 1])
  }

  predicate Rises(rule: Rule) {
    rule.pattern != "" && Weight(rule.pattern) < Weight(rule.replacement)
  }

  predicate AllRise(rules: seq<Rule>) {
    forall i | 0 <= i < |rules| :: Rises(rules[i])
  }

  lemma WeightConcat(a: string, b: string)
    ensures Weight(a + b) == Weight(a) + Weight(b)
  {
    WeightInFront(a, b, |a|);
    WeightBehind(a, b, |b|);
  }

  lemma {:induction false} WeightInFront(a: string, b: string, n: nat)
    requires n <= |a|
    ensures WeightTo(a + b, n) == WeightTo(a, n)
  {
    if n > 0 { WeightInFront(a, b, n - 1); }
  }

  lemma {:induction false} WeightBehind(a: string, b: string, n: nat)
    requires n <= |b|
    ensures WeightTo(a + b, |a| + n) == WeightTo(a + b, |a|) + WeightTo(b, n)
  {
    if n > 0 { WeightBehind(a, b, n - 1); }
  }

  lemma {:induction false} WeightBounds(s: string, n: nat)
    requires n <= |s|
    ensures WeightTo(s, n) <= n
    ensures (forall i | 0 <= i < n :: !IsMark(s[i])) ==> WeightTo(s, n) + n >= 0
    ensures (exists i | 0 <= i < n :: IsMark(s[i])) ==> WeightTo(s, n) <= n - 1000
  {
    if n > 0 { WeightBounds(s, n - 1); }
  }

  lemma {:induction false} Weightless(s: string, n: nat)
    requires n <= |s| && forall i | 0 <= i < n :: CharWeight(s[i]) == 0
    ensures WeightTo(s, n) == 0
  {
    if n > 0 { Weightless(s, n - 1); }
  }

  lemma WeightOne(c: char)
    ensures Weight([c]) == CharWeight(c)
  {
    assert WeightTo([c], 0) == 0;
  }

  // ---------- one rule ----------

  predicate Occurs(s: string, p: string) {
    Find(s, p, 0) != -1
  }

  lemma OccursAtTail(s: string, p: string, k: nat)
    requires s != ""
    ensures OccursAt(s, p, k + 1) <==> OccursAt(s[1..], p, k)
  {
    if k + 1 + |p| <= |s| { assert s[1..][k..k + |p|] == s[k + 1..k + 1 + |p|]; }
  }

  lemma OccursSomewhere(s: string, p: string)
    ensures Occurs(s, p) <==> exists k: nat :: OccursAt(s, p, k)
  {
    FindIsFirst(s, p, 0);
  }

  lemma OccursInTail(s: string, p: string)
    requires s != "" && p != ""
    ensures Occurs(s, p) <==> StartsWith(s, p) || Occurs(s[1..], p)
  {
    OccursSomewhere(s, p);
    OccursSomewhere(s[1..], p);
    assert StartsWith(s, p) <==> OccursAt(s, p, 0);
    if Occurs(s, p) {
      var k: nat :| OccursAt(s, p, k);
      if k > 0 { OccursAtTail(s, p, k - 1); }
    }
    if Occurs(s[1..], p) {
      var k: nat :| OccursAt(s[1..], p, k);
      OccursAtTail(s, p, k);
    }
  }

  /** A rule changes exactly the texts in which its pattern occurs, and makes them heavier. */
  lemma {:induction false} ReplaceAllRises(s: string, rule: Rule)
    requires Rises(rule)
    ensures if Occurs(s, rule.pattern) then Weight(ReplaceAll(s, rule)) > Weight(s) else ReplaceAll(s, rule) == s
    decreases |s|
  {
    var p, r := rule.pattern, rule.replacement;
    if s != "" {
      OccursInTail(s, p);
      if StartsWith(s, p) {
        var rest := s[|p|..];
        assert s == p + rest;
        ReplaceAllRises(rest, rule);
        WeightConcat(p, rest);
        WeightConcat(r, ReplaceAll(rest, rule));
      } else {
        ReplaceAllRises(s[1..], rule);
        assert s == [s[0]] + s[1..];
        WeightConcat([s[0]], s[1..]);
        WeightConcat([s[0]], ReplaceAll(s[1..], rule));
      }
    }
  }

  // ---------- all rules ----------

  predicate NoneOccurs(s: string, rules: seq<Rule>) {
    forall i | 0 <= i < |rules| :: !Occurs(s, rules[i].pattern)
  }

  lemma {:induction false} RewriteTextRises(s: string, rules: seq<Rule>)
    requires RulesOk(rules) && AllRise(rules)
    ensures if NoneOccurs(s, rules) then RewriteText(s, rules) == s else Weight(RewriteText(s, rules)) > Weight(s)
  {
    if rules != [] {
      var n := |rules| - 1;
      var before := rules[..n];
      RewriteTextRises(s, before);
      ReplaceAllRises(RewriteText(s, before), rules[n]);
      assert NoneOccurs(s, rules) <==> NoneOccurs(s, before) && !Occurs(s, rules[n].pattern);
    }
  }

  predicate NoneOutsideCode(segs: seq<Segment>, rules: seq<Rule>) {
    forall i | 0 <= i < |segs| && !segs[i].isCode :: NoneOccurs(segs[i].content, rules)
  }

  lemma RewriteSegmentsExactly(segs: seq<Segment>, rules: seq<Rule>)
    requires RulesOk(rules) && AllRise(rules)
    ensures RewriteSegments(segs, rules) == segs <==> NoneOutsideCode(segs, rules)
  {
    var after := RewriteSegments(segs, rules);
    RewriteSegmentsAt(segs, rules);
    forall i | 0 <= i < |segs| ensures after[i] == segs[i] <==> segs[i].isCode || NoneOccurs(segs[i].content, rules) {
      RewriteTextRises(segs[i].content, rules);
    }
    if NoneOutsideCode(segs, rules) { assert forall i | 0 <= i < |segs| :: after[i] == segs[i]; }
  }

  /** A pass changes nothing exactly when no pattern occurs outside the code. */
  lemma {:induction false} PassChangesNothingExactly(text: string, rules: seq<Rule>)
    requires RulesOk(rules) && AllRise(rules)
    ensures Apply(text, rules) == text <==> NoneOutsideCode(Split(text), rules)
  {
    SplitIsSegmentation(text);
    SplitCommutesWithRewriting(text, rules);
    RewriteSegmentsExactly(Split(text), rules);
  }

  /** So two passes are one exactly when the first leaves no pattern outside the code. */
  lemma {:induction false} TwiceIsOnceExactly(text: string, rules: seq<Rule>)
    requires RulesOk(rules) && AllRise(rules)
    ensures Apply(Apply(text, rules), rules) == Apply(text, rules)
            <==> NoneOutsideCode(RewriteSegments(Split(text), rules), rules)
  {
    PassChangesNothingExactly(Apply(text, rules), rules);
    SplitCommutesWithRewriting(text, rules);
  }

  // ---------- texts without code ----------

  lemma SplitWithoutCode(s: string)
    requires s != "" && NoTick(s)
    ensures Split(s) == [Segment(s, false)]
  {
    var segs := [Segment(s, false)];
    assert segs[1..] == [] && Concat(segs) == s + Concat([]);
    SplitIsTheSegmentation(s, segs);
  }

  lemma {:induction false} ApplyWithoutCode(s: string, rules: seq<Rule>)
    requires s != "" && NoTick(s) && RulesOk(rules)
    ensures Apply(s, rules) == RewriteText(s, rules) && NoTick(Apply(s, rules)) && Apply(s, rules) != ""
  {
    SplitWithoutCode(s);
    var segs := Split(s);
    assert segs[1..] == [];
    assert RewriteSegments(segs, rules) == [Segment(RewriteText(s, rules), false)];
    assert Concat(RewriteSegments(segs, rules)) == RewriteText(s, rules) + Concat([]);
    RewriteTextKeeps(s, rules);
  }

  lemma {:induction false} RewriteTextConcat(s: string, a: seq<Rule>, b: seq<Rule>)
    requires RulesOk(a) && RulesOk(b)
    ensures RulesOk(a + b) && RewriteText(s, a + b) == RewriteText(RewriteText(s, a), b)
  {
    if b == [] {
      assert a + b == a;
    } else {
      var n := |b| - 1;
      RewriteTextConcat(s, a, b[..n]);
      assert (a + b)[..|a + b| - 1] == a + b[..n];
    }
  }

  /** A pattern that occurs brings all its characters. */
  lemma OccursWithAll(s: string, p: string, k: nat)
    requires k < |p|
    ensures Occurs(s, p) ==> p[k] in s
  {
    FindIsFirst(s, p, 0);
    var i := Find(s, p, 0);
    if i != -1 { assert s[i + k] == s[i..i + |p|][k]; }
  }
}
