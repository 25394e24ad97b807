/** The path rules of tools/refactor-doc-paths.py, in the groups and the order of its table. */
module MarkdownRules {
  import opened Text
  import opened MarkdownPaths
  import opened MarkdownTwice

  /** What the laws of rewriting ask of a rule. */
  predicate Good(rule: Rule) {
    RuleOk(rule) && Rises(rule)
  }

  predicate AllGood(rules: seq<Rule>) {
    forall i | 0 <= i < |rules| :: Good(rules[i])
  }

  // ---------- pages under docs/backend: underscores become hyphens ----------

  predicate WordsOk(words: seq<string>) {
    |words| >= 2 && forall w <- words :: NoTick(w)
  }

  function BackendPage(words: seq<string>): Rule {
    Rule("docs/backend/" + Join(words, "_") + ".md", "docs/backend/" + Join(words, "-") + ".md")
  }

  /** The names of the pages, by their words. */
  const BACKEND_PAGES: seq<seq<string>> :=
    [
      ["api", "reference"],
      ["architecture", "overview"],
      ["ci", "cd", "guide"],
      ["configuration", "guide"],
      ["data", "consistency"],
      ["data", "persistence"],
      ["database", "encoding", "guide"],
      ["docker", "deployment"],
      ["documentation", "standards"],
      ["google", "guide"],
      ["oidc", "guide"],
      ["plugin", "integration"],
      ["rbac", "guide"],
      ["security", "architecture"],
      ["security", "hardening"],
      ["testing", "guide"],
      ["wechat", "guide"]
    ]

  function BackendRules(): (rules: seq<Rule>)
    ensures |rules| == |BACKEND_PAGES|
  {
    Map(BackendPage, BACKEND_PAGES)
  }

  lemma {:induction false} HyphensRise(words: seq<string>)
    requires words != []
    ensures Weight(Join(words, "-")) == Weight(Join(words, "_")) + 1000 * (|words| - 1)
  {
    if |words| > 1 {
      HyphensRise(words[1..]);
      JoinWeight(words, "-");
      JoinWeight(words, "_");
      assert Weight("-") == 0 && Weight("_") == -1000;
    }
  }

  lemma JoinWeight(words: seq<string>, sep: string)
    requires |words| > 1
    ensures Weight(Join(words, sep)) == Weight(words[0]) + Weight(sep) + Weight(Join(words[1..], sep))
  {
    WeightConcat(words[0], sep);
    WeightConcat(words[0] + sep, Join(words[1..], sep));
  }

  lemma {:induction false} JoinNoTick(words: seq<string>, sep: string)
    requires NoTick(sep) && forall w <- words :: NoTick(w)
    ensures NoTick(Join(words, sep))
  {
    if |words| > 1 {
      JoinNoTick(words[1..], sep);
      assert words[0] in words;
    }
  }

  lemma BackendPageGood(words: seq<string>)
    requires WordsOk(words)
    ensures Good(BackendPage(words)) && |BackendPage(words).pattern| > 5 && BackendPage(words).pattern[5] == 'b'
  {
    HyphensRise(words);
    JoinNoTick(words, "-");
    InFrame("docs/backend/", Join(words, "_"), Join(words, "-"), ".md");
  }

  /** What stands around a name weighs the same on both sides. */
  lemma InFrame(before: string, from: string, to: string, after: string)
    requires Weight(from) < Weight(to) && NoTick(before) && NoTick(to) && NoTick(after)
    requires before + from + after != "" && before + to + after != ""
    ensures Good(Rule(before + from + after, before + to + after))
  {
    WeightConcat(before, from);
    WeightConcat(before + from, after);
    WeightConcat(before, to);
    WeightConcat(before + to, after);
  }

  lemma BackendWords1()
    ensures forall i | 0 <= i < 6 :: WordsOk(BACKEND_PAGES[i])
  {}

  lemma BackendWords2()
    ensures forall i | 6 <= i < 12 :: WordsOk(BACKEND_PAGES[i])
  {}

  lemma BackendWords3()
    ensures |BACKEND_PAGES| == 17
    ensures forall i | 12 <= i < 17 :: WordsOk(BACKEND_PAGES[i])
  {}

  lemma {:induction false} BackendRulesGood()
    ensures AllGood(BackendRules())
    ensures forall r <- BackendRules() :: |r.pattern| > 5 && r.pattern[5] == 'b'
  {
    BackendWords1();
    BackendWords2();
    BackendWords3();
    forall i | 0 <= i < |BACKEND_PAGES|
      ensures Good(BackendRules()[i]) && |BackendRules()[i].pattern| > 5 && BackendRules()[i].pattern[5] == 'b'
    {
      BackendPageGood(BACKEND_PAGES[i]);
    }
  }

  // ---------- the other pages ----------

  function Rename(before: string, from: string, to: string, after: string): Rule {
    Rule(before + from + after, before + to + after)
  }

  /** docs root to docs/ops */
  function OpsRules(): (rules: seq<Rule>)
    ensures |rules| == 3
  {
    [
      Rename("docs/", "ACCOUNT_LOCKOUT", "ops/account-lockout", ".md"),
      Rename("docs/", "DEPLOYMENT", "ops/deployment", ".md"),
      Rename("docs/", "", "ops/", "security-checklist.md")
    ]
  }

  /** The applications' pages to docs/admin and docs/frontend, the scripts, the superpowers. */
  function OtherRules(): (rules: seq<Rule>)
    ensures |rules| == 6
  {
    [
      Rename("", "OAuth2Admin/docs/E2E_TESTING_GUIDE", "docs/admin/e2e-testing-guide", ".md"),
      Rename("", "OAuth2Frontend/docs/DESIGN", "docs/frontend/design", ".md"),
      Rename("", "OAuth2Frontend/docs/IMPLEMENTATION_PLAN", "docs/frontend/implementation-plan", ".md"),
      Rename("scripts/backend/README", ".build", "", ".md"),
      Rename("", "PRD", "docs/design", "/superpowers/"),
      Rename("docs/", "", "design/", "superpowers/")
    ]
  }

  /** The table. */
  function Replacements(): seq<Rule> {
    OpsRules() + BackendRules() + OtherRules()
  }

  /** A new name without marks weighs more than an old one with a mark. */
  lemma MarkedRises(from: string, k: nat, to: string)
    requires k < |from| && IsMark(from[k]) && |from| + |to| < 1000
    requires forall i | 0 <= i < |to| :: !IsMark(to[i])
    ensures Weight(from) < Weight(to)
  {
    WeightBounds(from, |from|);
    WeightBounds(to, |to|);
  }

  lemma MarkedGood(before: string, from: string, k: nat, to: string, after: string)
    requires k < |from| && IsMark(from[k]) && |from| + |to| < 1000 && to != ""
    requires forall i | 0 <= i < |to| :: !IsMark(to[i]) && to[i] != '`'
    requires NoTick(before) && NoTick(after)
    ensures Good(Rename(before, from, to, after))
  {
    MarkedRises(from, k, to);
    InFrame(before, from, to, after);
  }

  lemma {:induction false} OpsRulesGood()
    ensures AllGood(OpsRules())
  {
    MarkedGood("docs/", "ACCOUNT_LOCKOUT", 7, "ops/account-lockout", ".md");
    MarkedGood("docs/", "DEPLOYMENT", 2, "ops/deployment", ".md");
    ChecklistGood();
  }

  /** One more directory weighs its slash. */
  lemma DirectoryGood(before: string, dir: string, after: string)
    requires NoTick(before) && NoTick(dir) && NoTick(after) && before + after != ""
    requires forall i | 0 <= i < |dir| :: CharWeight(dir[i]) == 0
    ensures Good(Rename(before, "", dir + "/", after))
  {
    Weightless(dir, |dir|);
    WeightOne('/');
    WeightConcat(dir, "/");
    InFrame(before, "", dir + "/", after);
  }

  lemma ChecklistGood()
    ensures Good(Rename("docs/", "", "ops/", "security-checklist.md"))
  {
    DirectoryGood("docs/", "ops", "security-checklist.md");
    assert "ops" + "/" == "ops/";
  }

  lemma E2eGood()
    ensures Good(Rename("", "OAuth2Admin/docs/E2E_TESTING_GUIDE", "docs/admin/e2e-testing-guide", ".md"))
  {
    MarkedGood("", "OAuth2Admin/docs/E2E_TESTING_GUIDE", 20, "docs/admin/e2e-testing-guide", ".md");
  }

  lemma DesignGood()
    ensures Good(Rename("", "OAuth2Frontend/docs/DESIGN", "docs/frontend/design", ".md"))
  {
    MarkedGood("", "OAuth2Frontend/docs/DESIGN", 24, "docs/frontend/design", ".md");
  }

  lemma {:induction false} PlanGood()
    ensures Good(Rename("", "OAuth2Frontend/docs/IMPLEMENTATION_PLAN", "docs/frontend/implementation-plan", ".md"))
  {
    var from := "OAuth2Frontend/docs/IMPLEMENTATION_PLAN";
    MarkedGood("", from, 34, "docs/frontend/implementation-plan", ".md");
  }

  lemma ReadmeGood()
    ensures Good(Rename("scripts/backend/README", ".build", "", ".md"))
  {
    assert ".build" == ".b" + "u" + "ild";
    Weightless(".b", 2);
    WeightOne('u');
    Weightless("ild", 3);
    WeightConcat(".b", "u");
    WeightConcat(".b" + "u", "ild");
    InFrame("scripts/backend/README", ".build", "", ".md");
  }

  lemma SuperpowersGood()
    ensures Good(Rename("", "PRD", "docs/design", "/superpowers/"))
    ensures Good(Rename("docs/", "", "design/", "superpowers/"))
  {
    MarkedGood("", "PRD", 0, "docs/design", "/superpowers/");
    DirectoryGood("docs/", "design", "superpowers/");
    assert "design" + "/" == "design/";
  }

  /** The repository's rules leave some text, never code, and none undoes another. */
  lemma {:induction false} ReplacementsGood()
    ensures AllGood(Replacements()) && RulesOk(Replacements()) && AllRise(Replacements())
  {
    OpsRulesGood();
    BackendRulesGood();
    OtherRulesGood();
    var rules := Replacements();
    forall i | 0 <= i < |rules| ensures Good(rules[i]) {
      assert rules[i] == if i < 3 then OpsRules()[i]
                         else if i < 20 then BackendRules()[i - 3]
                         else OtherRules()[i - 20];
    }
  }

  /** With the repository's rules, the segments of a text are those of the rewritten text,
      code unchanged. */
  lemma {:induction false} RepositoryRulesKeepCode(text: string)
    ensures RulesOk(Replacements())
    ensures Split(Apply(text, Replacements())) == RewriteSegments(Split(text), Replacements())
  {
    ReplacementsGood();
    SplitCommutesWithRewriting(text, Replacements());
  }

  /** With the repository's rules, a second pass changes nothing exactly when the first leaves
      no pattern outside the code. */
  lemma {:induction false} RepositoryTwiceIsOnceExactly(text: string)
    ensures RulesOk(Replacements())
    ensures Apply(Apply(text, Replacements()), Replacements()) == Apply(text, Replacements())
            <==> NoneOutsideCode(RewriteSegments(Split(text), Replacements()), Replacements())
  {
    ReplacementsGood();
    TwiceIsOnceExactly(text, Replacements());
  }

  // ---------- a text that takes two passes ----------

  const OLD := "docs/DEPLOYMENT.md"
  const NEW := "docs/ops/deployment.md"

  /** The old name twice, the first without its last letter: that of the second stands in. */
  const JOINED := "docs/DEPLOYMENT.m" + OLD

  /** What the first pass makes of it: the old name is there again. */
  const HALFWAY := "docs/ops/deployment.m" + OLD

  /** A letter that the old name, the new name and their joints do not use. */
  predicate IsForeign(c: char) {
    c == 'A' || c == 'R' || c == 'b' || c == 'r' || c == 'u'
  }

  lemma NothingForeign()
    ensures forall i | 0 <= i < |JOINED| :: !IsForeign(JOINED[i])
    ensures forall i | 0 <= i < |HALFWAY| :: !IsForeign(HALFWAY[i])
  {
    assert forall i | 0 <= i < |OLD| :: !IsForeign(OLD[i]);
    assert forall c <- "docs/DEPLOYMENT.m" :: !IsForeign(c);
    assert forall c <- "docs/ops/deployment.m" :: !IsForeign(c);
  }

  lemma NotForeign(s: string, rule: Rule, k: nat)
    requires k < |rule.pattern| && IsForeign(rule.pattern[k])
    requires forall i | 0 <= i < |s| :: !IsForeign(s[i])
    ensures !Occurs(s, rule.pattern)
  {
    OccursWithAll(s, rule.pattern, k);
  }

  lemma NoOpsButDeployment(s: string)
    requires forall i | 0 <= i < |s| :: !IsForeign(s[i])
    ensures !Occurs(s, OpsRules()[0].pattern) && !Occurs(s, OpsRules()[2].pattern)
  {
    NotForeign(s, OpsRules()[0], 5);
    assert "security-checklist.md"[3] == 'u';
    NotForeign(s, OpsRules()[2], 8);
  }

  lemma NoOther(s: string)
    requires forall i | 0 <= i < |s| :: !IsForeign(s[i])
    ensures NoneOccurs(s, BackendRules()) && NoneOccurs(s, OtherRules())
  {
    BackendRulesGood();
    forall i | 0 <= i < |BackendRules()| ensures !Occurs(s, BackendRules()[i].pattern) {
      assert BackendRules()[i] in BackendRules();
      NotForeign(s, BackendRules()[i], 5);
    }
    var others := OtherRules();
    NotForeign(s, others[0], 1);
    assert others[0].pattern[1] == 'A';
    NotForeign(s, others[1], 1);
    NotForeign(s, others[2], 1);
    NotForeign(s, others[3], 2);
    NotForeign(s, others[4], 1);
    assert "superpowers/"[1] == 'u';
    NotForeign(s, others[5], 6);
  }

  /** The letter `d` ends one name and starts the next. */
  lemma Joints()
    ensures OLD == "docs/DEPLOYMENT.m" + "d" == "d" + "ocs/DEPLOYMENT.md"
    ensures NEW == "docs/ops/deployment.m" + "d"
  {}

  lemma Regroup(a: string, d: string, rest: string)
    ensures a + (d + rest) == (a + d) + rest
  {}

  lemma ReplaceFirst(p: string, r: string, rest: string)
    requires p != ""
    ensures ReplaceAll(p + rest, Rule(p, r)) == r + ReplaceAll(rest, Rule(p, r))
  {
    assert (p + rest)[|p|..] == rest;
  }

  lemma DeploymentReplaced()
    ensures ReplaceAll(JOINED, Rule(OLD, NEW)) == HALFWAY
  {
    var rest := "ocs/DEPLOYMENT.md";
    Joints();
    Regroup("docs/DEPLOYMENT.m", "d", rest);
    Regroup("docs/ops/deployment.m", "d", rest);
    ReplaceFirst(OLD, NEW, rest);
    NoneInShorter(rest);
  }

  lemma DeploymentRule()
    ensures OpsRules()[1] == Rule(OLD, NEW)
  {
    assert "docs/" + "DEPLOYMENT" + ".md" == OLD;
    assert "docs/" + "ops/deployment" + ".md" == NEW;
  }

  lemma {:induction false} NoneInShorter(s: string)
    requires |s| < |OLD|
    ensures ReplaceAll(s, Rule(OLD, NEW)) == s
  {
    if s != "" { NoneInShorter(s[1..]); }
  }

  /** The first pass over the joined names, rule by rule. */
  lemma {:induction false} FirstPass()
    ensures RulesOk(Replacements()) && RewriteText(JOINED, Replacements()) == HALFWAY
  {
    ReplacementsGood();
    OpsRulesGood();
    BackendRulesGood();
    OtherRulesGood();
    NothingForeign();
    OpsPass();
    NoOther(HALFWAY);
    RewriteTextRises(HALFWAY, BackendRules());
    RewriteTextRises(HALFWAY, OtherRules());
    RewriteTextConcat(JOINED, OpsRules(), BackendRules());
    RewriteTextConcat(JOINED, OpsRules() + BackendRules(), OtherRules());
  }

  lemma {:induction false} OtherRulesGood()
    ensures AllGood(OtherRules())
  {
    E2eGood();
    DesignGood();
    PlanGood();
    ReadmeGood();
    SuperpowersGood();
  }

  lemma ThreeRules(s: string, rules: seq<Rule>)
    requires |rules| == 3 && RulesOk(rules)
    ensures RewriteText(s, rules) == ReplaceAll(ReplaceAll(ReplaceAll(s, rules[0]), rules[1]), rules[2])
  {
    assert rules[..2][..1] == [rules[0]] && [rules[0]][..0] == [];
    assert RewriteText(s, [rules[0]]) == ReplaceAll(s, rules[0]);
    assert RewriteText(s, rules[..2]) == ReplaceAll(ReplaceAll(s, rules[0]), rules[1]);
  }

  lemma {:induction false} OpsPass()
    ensures RulesOk(OpsRules()) && RewriteText(JOINED, OpsRules()) == HALFWAY
  {
    var rules := OpsRules();
    OpsRulesGood();
    NothingForeign();
    NoOpsButDeployment(JOINED);
    NoOpsButDeployment(HALFWAY);
    ReplaceAllRises(JOINED, rules[0]);
    DeploymentRule();
    DeploymentReplaced();
    ReplaceAllRises(HALFWAY, rules[2]);
    ThreeRules(JOINED, rules);
  }

  /** Two passes are not one: the first joins the old name anew and the second replaces it. */
  lemma {:induction false} SecondPassGoesOn()
    ensures RulesOk(Replacements())
    ensures Apply(JOINED, Replacements()) == HALFWAY && Apply(HALFWAY, Replacements()) != HALFWAY
  {
    var rules := Replacements();
    FirstPass();
    ReplacementsGood();
    JoinedIsText();
    ApplyWithoutCode(JOINED, rules);
    SplitWithoutCode(HALFWAY);
    PassChangesNothingExactly(HALFWAY, rules);
    DeploymentRule();
    assert rules[1] == OpsRules()[1];
    OccursSomewhere(HALFWAY, OLD);
    assert OccursAt(HALFWAY, OLD, |"docs/ops/deployment.m"|);
    assert !Split(HALFWAY)[0].isCode && !NoneOccurs(Split(HALFWAY)[0].content, rules);
  }

  lemma JoinedIsText()
    ensures JOINED != "" && HALFWAY != "" && NoTick(JOINED) && NoTick(HALFWAY)
  {
    assert NoTick(OLD) && NoTick("docs/DEPLOYMENT.m") && NoTick("docs/ops/deployment.m");
  }
}
