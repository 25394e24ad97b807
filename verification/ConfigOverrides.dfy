/** Configuration overrides of ConfigManager.cc: a dotted path walks into a JSON tree, and each
    rule whose variable is set assigns through the pointer it ends at. */
module ConfigOverrides {
  import opened Text

  datatype Json =
    | JNull
    | JBool(b: bool)
    | JInt(n: int)
    | JReal(r: real)
    | JString(s: string)
    | JArray(items: seq<Json>)
    | JObject(members: map<string, Json>)

  // ---------- paths ----------

  /** A step of a path, after reading: digits are an index, so `0` and `00` are the same. */
  datatype Part = Index(i: nat) | Key(k: string)

  function ReadPart(p: string): Part {
    if p != "" && AllDigits(p) then Index(StringToNat(p)) else Key(p)
  }

  /** `std::getline` on dots: a trailing dot starts no part, an empty path has none. */
  function PathParts(path: string): seq<string> {
    if path == "" then []
    else
      var i := IndexOf(path, c => c == '.');
      if i == |path| then [path] else [path[..i]] + PathParts(path[i + 1..])
  }

  function ReadPath(path: string): seq<Part> {
    Map(ReadPart, PathParts(path))
  }

  // ---------- lookup and assignment ----------

  /** One step down; nothing when the node is null or of the wrong kind, or has no such child. */
  function Child(j: Json, p: Part): Option<Json> {
    match p
    case Index(i) => if j.JArray? && i < |j.items| then Some(j.items[i]) else None
    case Key(k) => if j.JObject? && k in j.members then Some(j.members[k]) else None
  }

  function Lookup(j: Json, path: seq<Part>): Option<Json> {
    if path == [] then Some(j)
    else match Child(j, path[0])
      case None => None
      case Some(child) => Lookup(child, path[1..])
  }

  function WithChild(j: Json, p: Part, child: Json): Json
    requires Child(j, p).Some?
  {
    match p
    case Index(i) => JArray(j.items[i := child])
    case Key(k) => JObject(j.members[k := child])
  }

  /** The tree after `*ptr = v` for the pointer that the path leads to. */
  function Assign(j: Json, path: seq<Part>, v: Json): Json
    requires Lookup(j, path).Some?
    decreases path
  {
    if path == [] then v
    else WithChild(j, path[0], Assign(Child(j, path[0]).value, path[1..], v))
  }

  /** `getJsonPointer`: the node the moving pointer stops at. */
  method GetJsonPointer(root: Json, path: string) returns (node: Option<Json>)
    ensures node == Lookup(root, ReadPath(path))
  {
    var parts := PathParts(path);
    var current := root;
    assert parts[0..] == parts;
    for n := 0 to |parts|
      invariant Lookup(root, ReadPath(path)) == Lookup(current, Map(ReadPart, parts[n..]))
    {
      var p := parts[n];
      assert Map(ReadPart, parts[n..])[0] == ReadPart(p);
      assert Map(ReadPart, parts[n..])[1..] == Map(ReadPart, parts[n + 1..]);
      if current.JNull? { return None; }
      if p != "" && AllDigits(p) {
        if !current.JArray? { return None; }
        var index := StringToNat(p);
        if index >= |current.items| { return None; }
        current := current.items[index];
      } else {
        if !current.JObject? || p !in current.members { return None; }
        current := current.members[p];
      }
    }
    node := Some(current);
  }

  // ---------- rules ----------

  datatype Rule = Rule(path: string, envVar: string, isNumeric: bool)

  /** The `.env` file and the environment. */
  datatype Env = Env(file: map<string, string>, system: map<string, string>)

  /** `getEnvValue`: a non-empty value in the file comes before the environment. */
  function EnvValue(env: Env, name: string): Option<string> {
    if name in env.file && env.file[name] != "" then Some(env.file[name])
    else if name in env.system then Some(env.system[name])
    else None
  }

  /** White space that `std::stoi` skips. */
  predicate IsStoiBlank(c: char) {
    c == ' ' || 0x09 <= c as int <= 0x0D
  }

  function DigitPrefix(s: string): (r: string)
    ensures AllDigits(r) && r <= s
  {
    if s != "" && IsDigit(s[0]) then [s[0]] + DigitPrefix(s[1..]) else ""
  }

  const INT_MIN := -0x8000_0000
  const INT_MAX := 0x7FFF_FFFF

  /** `parseInt`: what `std::stoi` reads, and 0 for what it throws on. */
  function ParseInt(str: string): (n: int)
    ensures INT_MIN <= n <= INT_MAX
  {
    ParseSigned(TrimLeft(str, IsStoiBlank))
  }

  /** The number behind the blanks. */
  function ParseSigned(s: string): (n: int)
    ensures INT_MIN <= n <= INT_MAX
  {
    var signed := s != "" && (s[0] == '-' || s[0] == '+');
    var digits := DigitPrefix(if signed then s[1..] else s);
    var n := if signed && s[0] == '-' then 0 - StringToNat(digits) else StringToNat(digits);
    if digits == "" || n < INT_MIN || n > INT_MAX then 0 else n
  }

  /** What a sign and a run of digits stand for. */
  function SignedValue(sign: string, digits: string): int
    requires AllDigits(digits)
  {
    if sign == "-" then 0 - StringToNat(digits) else StringToNat(digits)
  }

  predicate IsSign(s: string) {
    s == "" || s == "-" || s == "+"
  }

  /** A text that reads as a number: blanks, a sign, digits, and anything that is no digit. */
  ghost predicate IsNumeral(blanks: string, sign: string, digits: string, rest: string) {
    && (forall i | 0 <= i < |blanks| :: IsStoiBlank(blanks[i])) && IsSign(sign)
    && digits != "" && AllDigits(digits) && (rest == "" || !IsDigit(rest[0]))
  }

  lemma {:induction false} SkipBlanks(blanks: string, s: string)
    requires (forall i | 0 <= i < |blanks| :: IsStoiBlank(blanks[i])) && (s == "" || !IsStoiBlank(s[0]))
    ensures TrimLeft(blanks + s, IsStoiBlank) == s
  {
    if blanks == "" {
      assert blanks + s == s;
    } else {
      SkipBlanks(blanks[1..], s);
      assert (blanks + s)[1..] == blanks[1..] + s;
    }
  }

  lemma {:induction false} DigitsOf(digits: string, rest: string)
    requires AllDigits(digits) && (rest == "" || !IsDigit(rest[0]))
    ensures DigitPrefix(digits + rest) == digits
  {
    if digits == "" {
      assert digits + rest == rest;
    } else {
      DigitsOf(digits[1..], rest);
      assert (digits + rest)[1..] == digits[1..] + rest;
    }
  }

  lemma SignedReads(sign: string, digits: string, rest: string)
    requires IsNumeral("", sign, digits, rest)
    ensures var s, n := sign + (digits + rest), SignedValue(sign, digits);
            && s != "" && !IsStoiBlank(s[0])
            && ParseSigned(s) == if INT_MIN <= n <= INT_MAX then n else 0
  {
    var tail := digits + rest;
    DigitsOf(digits, rest);
    assert tail[0] == digits[0];
    if sign == "" {
      assert sign + tail == tail;
    } else {
      assert (sign + tail)[0] == sign[0] && (sign + tail)[1..] == tail;
    }
  }

  /** A number that fits 32 bits is read as what it is, a larger one as 0. */
  lemma ParseIntReads(blanks: string, sign: string, digits: string, rest: string)
    requires IsNumeral(blanks, sign, digits, rest)
    ensures var n := SignedValue(sign, digits);
            ParseInt(blanks + (sign + (digits + rest))) == if -2147483648 <= n <= 2147483647 then n else 0
  {
    SignedReads(sign, digits, rest);
    SkipBlanks(blanks, sign + (digits + rest));
  }

  /** Any other text is read as 0. */
  lemma OnlyNumeralsAreRead(str: string) returns (blanks: string, sign: string, digits: string, rest: string)
    requires ParseInt(str) != 0
    ensures IsNumeral(blanks, sign, digits, rest) && str == blanks + (sign + (digits + rest))
  {
    var s := TrimLeft(str, IsStoiBlank);
    blanks := SkippedBlanks(str);
    var tail;
    sign, tail := SplitSign(s);
    digits, rest := SplitDigits(tail);
  }

  lemma SplitSign(s: string) returns (sign: string, tail: string)
    ensures IsSign(sign) && s == sign + tail
    ensures tail == if s != "" && (s[0] == '-' || s[0] == '+') then s[1..] else s
  {
    sign, tail := "", s;
    if s != "" && (s[0] == '-' || s[0] == '+') {
      sign, tail := [s[0]], s[1..];
    }
    assert s == sign + tail;
  }

  lemma SplitDigits(s: string) returns (digits: string, rest: string)
    ensures digits == DigitPrefix(s) && AllDigits(digits) && s == digits + rest
    ensures rest == "" || !IsDigit(rest[0])
  {
    digits := DigitPrefix(s);
    rest := s[|digits|..];
    DigitsEnd(s);
  }

  lemma SkippedBlanks(str: string) returns (blanks: string)
    ensures str == blanks + TrimLeft(str, IsStoiBlank) && forall i | 0 <= i < |blanks| :: IsStoiBlank(blanks[i])
  {
    TrimLeftFacts(str, IsStoiBlank);
    blanks := str[..|str| - |TrimLeft(str, IsStoiBlank)|];
  }

  lemma {:induction false} DigitsEnd(s: string)
    ensures var digits := DigitPrefix(s); |digits| < |s| ==> !IsDigit(s[|digits|])
  {
    if s != "" && IsDigit(s[0]) { DigitsEnd(s[1..]); }
  }

  function RuleValue(rule: Rule, value: string): Json {
    if rule.isNumeric then JInt(ParseInt(value)) else JString(value)
  }

  /** A rule applies when its variable is set and its path leads somewhere. */
  predicate Applies(config: Json, rule: Rule, env: Env) {
    EnvValue(env, rule.envVar).Some? && Lookup(config, ReadPath(rule.path)).Some?
  }

  function ApplyRule(config: Json, rule: Rule, env: Env): Json {
    match (EnvValue(env, rule.envVar), Lookup(config, ReadPath(rule.path)))
    case (Some(value), Some(_)) => Assign(config, ReadPath(rule.path), RuleValue(rule, value))
    case _ => config
  }

  function ApplyRules(config: Json, rules: seq<Rule>, env: Env): Json {
    if rules == [] then config
    else ApplyRule(ApplyRules(config, rules[..|rules| - 1], env), rules[|rules| - 1], env)
  }

  method ApplyEnvOverrides(config: Json, rules: seq<Rule>, env: Env) returns (result: Json)
    ensures result == ApplyRules(config, rules, env)
  {
    result := config;
    for r := 0 to |rules|
      invariant result == ApplyRules(config, rules[..r], env)
    {
      assert rules[..r + 1][..r] == rules[..r];
      var envValue := EnvValue(env, rules[r].envVar);
      if envValue.Some? {
        var ptr := GetJsonPointer(result, rules[r].path);
        if ptr.Some? {
          result := Assign(result, ReadPath(rules[r].path),
                           if rules[r].isNumeric then JInt(ParseInt(envValue.value)) else JString(envValue.value));
        }
      }
    }
    assert rules[..|rules|] == rules;
  }

  // ---------- the laws of one assignment ----------

  predicate IsLeaf(v: Json) {
    v.JInt? || v.JString?
  }

  /** What a path leads to after a leaf was assigned at another: the leaf at the path itself,
      nothing below it, and what it led to before at every path that is not above it. */
  lemma {:induction false} AssignLooksUp(j: Json, path: seq<Part>, v: Json, q: seq<Part>)
    requires Lookup(j, path).Some? && IsLeaf(v)
    ensures var after := Lookup(Assign(j, path, v), q);
            if q == path then after == Some(v)
            else if path <= q then after == None
            else if q <= path then after.Some? && Lookup(j, q).Some?
            else after == Lookup(j, q)
    decreases path
  {
    if path == [] {
    } else if q != [] {
      var child := Child(j, path[0]).value;
      if q[0] == path[0] {
        AssignLooksUp(child, path[1..], v, q[1..]);
        assert path == [path[0]] + path[1..] && q == [q[0]] + q[1..];
      } else {
        assert Child(Assign(j, path, v), q[0]) == Child(j, q[0]);
      }
    }
  }

  // ---------- the laws of a list of rules ----------

  /** The last rule that applied at the path or above it, or nothing. */
  function LastAbove(config: Json, rules: seq<Rule>, env: Env, q: seq<Part>): Option<Rule> {
    if rules == [] then None
    else
      var before, rule := rules[..|rules| - 1], rules[|rules| - 1];
      if Applies(ApplyRules(config, before, env), rule, env) && ReadPath(rule.path) <= q then Some(rule)
      else LastAbove(config, before, env, q)
  }

  /** Whether some rule applied strictly below the path. */
  predicate AppliedBelow(config: Json, rules: seq<Rule>, env: Env, q: seq<Part>) {
    rules != [] &&
    (var before, rule := rules[..|rules| - 1], rules[|rules| - 1];
     (Applies(ApplyRules(config, before, env), rule, env) && q < ReadPath(rule.path))
     || AppliedBelow(config, before, env, q))
  }

  /** After all rules, for every path: the last rule that applied at it or above it decides.
      At the path, it leads to that rule's value; above it, it leads nowhere; and without such
      a rule it leads to what it led to before, unless something below was overridden, when it
      still leads to a node. */
  lemma {:induction false} OverridesDecide(config: Json, rules: seq<Rule>, env: Env, q: seq<Part>)
    ensures var after := Lookup(ApplyRules(config, rules, env), q);
            match LastAbove(config, rules, env, q)
            case Some(rule) =>
              EnvValue(env, rule.envVar).Some?
              && after == if ReadPath(rule.path) != q then None
                          else if rule.isNumeric then Some(JInt(ParseInt(EnvValue(env, rule.envVar).value)))
                          else Some(JString(EnvValue(env, rule.envVar).value))
            case None =>
              if AppliedBelow(config, rules, env, q) then after.Some? && Lookup(config, q).Some?
              else after == Lookup(config, q)
  {
    if rules != [] {
      var before, rule := rules[..|rules| - 1], rules[|rules| - 1];
      OverridesDecide(config, before, env, q);
      OneRuleDecides(ApplyRules(config, before, env), rule, env, q);
    }
  }

  /** One rule, for every path. */
  lemma OneRuleDecides(mid: Json, rule: Rule, env: Env, q: seq<Part>)
    ensures var after, path := Lookup(ApplyRule(mid, rule, env), q), ReadPath(rule.path);
            if !Applies(mid, rule, env) then after == Lookup(mid, q)
            else if path == q then
              after == Some(if rule.isNumeric then JInt(ParseInt(EnvValue(env, rule.envVar).value))
                            else JString(EnvValue(env, rule.envVar).value))
            else if path <= q then after == None
            else if q < path then after.Some? && Lookup(mid, q).Some? && !IsLeaf(Lookup(mid, q).value)
            else after == Lookup(mid, q)
  {
    if Applies(mid, rule, env) {
      var path := ReadPath(rule.path);
      AssignLooksUp(mid, path, RuleValue(rule, EnvValue(env, rule.envVar).value), q);
      if q < path { NotALeaf(mid, q, path); }
    }
  }

  /** Where a longer path leads somewhere, the shorter one leads to no leaf. */
  lemma {:induction false} NotALeaf(j: Json, q: seq<Part>, path: seq<Part>)
    requires q < path && Lookup(j, path).Some?
    ensures Lookup(j, q).Some? && !IsLeaf(Lookup(j, q).value)
  {
    if q != [] { NotALeaf(Child(j, q[0]).value, q[1..], path[1..]); }
  }

  /** No override creates a node: a path that led nowhere still leads nowhere. */
  lemma {:induction false} NothingIsCreated(config: Json, rules: seq<Rule>, env: Env, q: seq<Part>)
    requires Lookup(config, q) == None
    ensures Lookup(ApplyRules(config, rules, env), q) == None
  {
    if rules != [] {
      var before, rule := rules[..|rules| - 1], rules[|rules| - 1];
      NothingIsCreated(config, before, env, q);
      var mid := ApplyRules(config, before, env);
      if Applies(mid, rule, env) {
        AssignLooksUp(mid, ReadPath(rule.path), RuleValue(rule, EnvValue(env, rule.envVar).value), q);
      }
    }
  }

  // ---------- what a dotted path means ----------

  /** Going down by one part: a member of an object, or, for digits, an element of an array. */
  predicate StepsDown(from: Json, part: string, to: Json) {
    if part != "" && (forall i | 0 <= i < |part| :: '0' <= part[i] <= '9') then
      from.JArray? && StringToNat(part) < |from.items| && from.items[StringToNat(part)] == to
    else
      from.JObject? && part in from.members && from.members[part] == to
  }

  /** A chain of nodes from the first to the last, one for each part. */
  ghost predicate Leads(nodes: seq<Json>, parts: seq<string>) {
    |nodes| == |parts| + 1 && forall i | 0 <= i < |parts| :: StepsDown(nodes[i], parts[i], nodes[i + 1])
  }

  ghost predicate LeadsTo(root: Json, parts: seq<string>, v: Json) {
    exists nodes :: Leads(nodes, parts) && nodes[0] == root && nodes[|parts|] == v
  }

  lemma LeadsStep(root: Json, parts: seq<string>, v: Json)
    requires parts != []
    ensures var child := Child(root, ReadPart(parts[0]));
            LeadsTo(root, parts, v) <==> child.Some? && LeadsTo(child.value, parts[1..], v)
  {
    var child := Child(root, ReadPart(parts[0]));
    if child.Some? && LeadsTo(child.value, parts[1..], v) {
      var nodes :| Leads(nodes, parts[1..]) && nodes[0] == child.value && nodes[|parts| - 1] == v;
      LeadsCons(root, nodes, parts);
      assert ([root] + nodes)[|parts|] == v;
    }
    if LeadsTo(root, parts, v) {
      var nodes :| Leads(nodes, parts) && nodes[0] == root && nodes[|parts|] == v;
      LeadsTail(nodes, parts);
      assert nodes[1..][|parts| - 1] == v;
    }
  }

  lemma {:induction false} LeadsIsLookup(root: Json, parts: seq<string>, v: Json)
    ensures Lookup(root, Map(ReadPart, parts)) == Some(v) <==> LeadsTo(root, parts, v)
  {
    if parts == [] {
      if root == v { assert Leads([root], parts); }
    } else {
      assert Map(ReadPart, parts)[1..] == Map(ReadPart, parts[1..]);
      LeadsStep(root, parts, v);
      var child := Child(root, ReadPart(parts[0]));
      if child.Some? { LeadsIsLookup(child.value, parts[1..], v); }
    }
  }

  lemma LeadsCons(root: Json, nodes: seq<Json>, parts: seq<string>)
    requires parts != [] && Leads(nodes, parts[1..]) && StepsDown(root, parts[0], nodes[0])
    ensures Leads([root] + nodes, parts)
  {
    var all := [root] + nodes;
    forall i | 0 <= i < |parts| ensures StepsDown(all[i], parts[i], all[i + 1]) {
      if i > 0 { assert StepsDown(nodes[i - 1], parts[1..][i - 1], nodes[i]); }
    }
  }

  lemma LeadsTail(nodes: seq<Json>, parts: seq<string>)
    requires parts != [] && Leads(nodes, parts)
    ensures Leads(nodes[1..], parts[1..]) && Child(nodes[0], ReadPart(parts[0])) == Some(nodes[1])
  {
    forall i | 0 <= i < |parts[1..]| ensures StepsDown(nodes[1..][i], parts[1..][i], nodes[1..][i + 1]) {
      assert StepsDown(nodes[i + 1], parts[i + 1], nodes[i + 2]);
    }
    assert StepsDown(nodes[0], parts[0], nodes[1]);
  }

  lemma PartsCons(part: string, rest: string)
    requires '.' !in part
    ensures PathParts(part + "." + rest) == [part] + PathParts(rest)
    ensures part != "" ==> PathParts(part) == [part]
  {
    var s := part + "." + rest;
    IndexOfUnique(s, c => c == '.', |part|);
    IndexOfUnique(part, c => c == '.', |part|);
    assert s[..|part|] == part && s[|part| + 1..] == rest;
  }

  lemma {:induction false} DottedParts(parts: seq<string>)
    requires parts != [] && parts[|parts| - 1] != "" && forall i | 0 <= i < |parts| :: '.' !in parts[i]
    ensures PathParts(Join(parts, ".")) == parts
  {
    if |parts| == 1 {
      PartsCons(parts[0], "");
      assert parts == [parts[0]];
    } else {
      DottedParts(parts[1..]);
      PartsCons(parts[0], Join(parts[1..], "."));
      assert parts == [parts[0]] + parts[1..];
    }
  }

  /** A dotted path leads to a node exactly when its parts lead there one after the other. */
  lemma {:induction false} DottedPathLeads(root: Json, parts: seq<string>, v: Json)
    requires parts != [] && parts[|parts| - 1] != "" && forall i | 0 <= i < |parts| :: '.' !in parts[i]
    ensures Lookup(root, ReadPath(Join(parts, "."))) == Some(v) <==> LeadsTo(root, parts, v)
  {
    DottedParts(parts);
    LeadsIsLookup(root, parts, v);
  }
}
