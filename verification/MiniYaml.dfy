/** The indentation-driven fallback YAML parser of tools/refactor-baseline/parse_endpoints.py.

    The class `MiniYaml` has the source's one mutable cursor and its loops. Each method is
    proved against a function over the lines still to be read; the laws of the parser are
    proved about those functions, here and in YamlRoundTrip.dfy and YamlLayout.dfy. */
module Yaml {
  import opened Text

  /** What the parser returns: `None`, `bool`, `int`, `str`, `list` or `dict`.
      A dictionary keeps the order in which its keys were first set. */
  datatype Value =
    | Null
    | Bool(b: bool)
    | Int(n: int)
    | Str(s: string)
    | List(items: seq<Value>)
    | Dict(entries: seq<Entry>)

  datatype Entry = Entry(key: string, val: Value)

  /** `d[key] = val` */
  function Put(d: seq<Entry>, key: string, val: Value): (r: seq<Entry>)
    ensures d != [] ==> r != []
  {
    if d == [] then [Entry(key, val)]
    else if d[0].key == key then [Entry(key, val)] + d[1..]
    else [d[0]] + Put(d[1..], key, val)
  }

  /** `d.get(key)` */
  function Get(d: seq<Entry>, key: string): Option<Value> {
    if d == [] then None
    else if d[0].key == key then Some(d[0].val)
    else Get(d[1..], key)
  }

  function Keys(d: seq<Entry>): (r: seq<string>)
    ensures |r| == |d|
    ensures forall i | 0 <= i < |d| :: r[i] == d[i].key
  {
    seq(|d|, i requires 0 <= i < |d| => d[i].key)
  }

  /** Setting a key changes what is found under it and nothing else. */
  lemma {:induction false} PutLooksUp(d: seq<Entry>, key: string, val: Value, q: string)
    ensures Get(Put(d, key, val), q) == if q == key then Some(val) else Get(d, q)
  {
    if d != [] && d[0].key != key { PutLooksUp(d[1..], key, val, q); }
  }

  lemma KeysCons(e: Entry, d: seq<Entry>)
    ensures Keys([e] + d) == [e.key] + Keys(d)
  {}

  lemma AppendToTail(k: string, ks: seq<string>, key: string)
    ensures [k] + (ks + [key]) == ([k] + ks) + [key]
    ensures key in [k] + ks <==> key == k || key in ks
  {}

  /** A key keeps its place; a new one is the last. */
  lemma {:induction false} PutKeepsOrder(d: seq<Entry>, key: string, val: Value)
    ensures Keys(Put(d, key, val)) == if key in Keys(d) then Keys(d) else Keys(d) + [key]
  {
    if d == [] {
      KeysCons(Entry(key, val), []);
    } else {
      assert d == [d[0]] + d[1..];
      KeysCons(d[0], d[1..]);
      AppendToTail(d[0].key, Keys(d[1..]), key);
      if d[0].key == key {
        KeysCons(Entry(key, val), d[1..]);
      } else {
        PutKeepsOrder(d[1..], key, val);
        KeysCons(d[0], Put(d[1..], key, val));
      }
    }
  }

  /** Looking up finds the first entry with the key. */
  lemma {:induction false} GetFindsFirst(d: seq<Entry>, key: string, i: nat)
    requires i < |d| && d[i].key == key && forall j | 0 <= j < i :: d[j].key != key
    ensures Get(d, key) == Some(d[i].val)
  {
    if i > 0 { GetFindsFirst(d[1..], key, i - 1); }
  }

  lemma {:induction false} GetFindsNone(d: seq<Entry>, key: string)
    ensures Get(d, key) == None <==> key !in Keys(d)
  {
    if d != [] {
      GetFindsNone(d[1..], key);
      assert Keys(d) == [d[0].key] + Keys(d[1..]);
    }
  }

  /** `not v` */
  predicate Falsy(v: Value) {
    match v
    case Null => true
    case Bool(b) => !b
    case Int(n) => n == 0
    case Str(s) => s == ""
    case List(items) => items == []
    case Dict(entries) => entries == []
  }

  // ---------- scalars ----------

  function LowerChar(c: char): char {
    if 'A' <= c <= 'Z' then (c as int + 32) as char else c
  }

  function Lower(s: string): (r: string)
    ensures |r| == |s|
  {
    seq(|s|, i requires 0 <= i < |s| => LowerChar(s[i]))
  }

  predicate IsQuoted(s: string) {
    s != "" && ((s[0] == '"' && s[|s| - 1] == '"') || (s[0] == '\'' && s[|s| - 1] == '\''))
  }

  /** `s[1:-1]` */
  function Inner(s: string): string {
    if |s| < 2 then "" else s[1..|s| - 1]
  }

  predicate IsInteger(s: string) {
    if s != "" && s[0] == '-' then |s| > 1 && AllDigits(s[1..]) else s != "" && AllDigits(s)
  }

  function ToInteger(s: string): (n: int)
    requires IsInteger(s)
  {
    if s[0] == '-' then 0 - StringToNat(s[1..]) else StringToNat(s)
  }

  function Coerce(scalar: string): Value {
    CoerceStripped(Strip(scalar))
  }

  function CoerceStripped(s: string): Value {
    if s == "" then Null
    else if Lower(s) == "true" then Bool(true)
    else if Lower(s) == "false" then Bool(false)
    else if Lower(s) == "null" || s == "~" then Null
    else if IsQuoted(s) then Str(Inner(s))
    else if IsInteger(s) then Int(ToInteger(s))
    else Str(s)
  }

  function CoerceAll(parts: seq<string>): (r: seq<Value>)
    ensures |r| == |parts|
  {
    if parts == [] then [] else [Coerce(parts[0])] + CoerceAll(parts[1..])
  }

  predicate IsFlow(s: string) {
    |s| >= 2 && s[0] == '[' && s[|s| - 1] == ']'
  }

  /** `[a, b]` as a list, anything else as no list. The white space that the splitting
      pattern takes around a comma is white space that `Coerce` strips anyway. */
  function FlowSeq(raw: string): Option<Value> {
    var s := Strip(raw);
    if !IsFlow(s) then None
    else
      var body := Strip(Inner(s));
      if body == "" then Some(List([])) else Some(List(CoerceAll(SplitOn(body, ','))))
  }

  /** The value written after `key: ` on the same line. */
  function Inline(val: string): Value {
    match FlowSeq(val)
    case Some(list) => list
    case None => Coerce(val)
  }

  predicate EndsKey(c: char) {
    c == ':' || c == '#'
  }

  /** The `key: value` pattern: the key is everything before the first colon, is not empty
      and holds no `#`. Both groups are returned stripped, as the source uses them. */
  function ScalarMatch(body: string): Option<(string, string)> {
    var i := IndexOf(body, EndsKey);
    if 0 < i < |body| && body[i] == ':' then Some((Strip(body[..i]), Strip(body[i + 1..]))) else None
  }

  /** A key is what stands in front of the first colon, if it is not empty and holds no `#`. */
  lemma ScalarMatchExactly(front: string, back: string)
    requires front != "" && ':' !in front && '#' !in front
    ensures ScalarMatch(front + ":" + back) == Some((Strip(front), Strip(back)))
  {
    var s := front + ":" + back;
    IndexOfUnique(s, EndsKey, |front|);
    assert s[..|front|] == front && s[|front| + 1..] == back;
  }

  lemma ScalarMatchFails(body: string)
    requires forall i | 0 < i < |body| && body[i] == ':' :: ':' in body[..i] || '#' in body[..i]
    ensures ScalarMatch(body) == None
  {
    IndexOfFacts(body, EndsKey);
  }

  // ---------- lines ----------

  /** Whether the constructor drops the line: blank, or a comment. */
  predicate Ignored(line: string) {
    Strip(line) == "" || StartsWith(TrimLeft(line, IsSpace), "#")
  }

  /** Dropped are the lines of white space, and those whose first other character is `#`. */
  lemma IgnoredExactly(line: string)
    ensures Ignored(line) <==>
            || (forall i | 0 <= i < |line| :: IsSpace(line[i]))
            || exists i | 0 <= i < |line| :: line[i] == '#' && forall j | 0 <= j < i :: IsSpace(line[j])
  {
    var rest := TrimLeft(line, IsSpace);
    TrimLeftFacts(line, IsSpace);
    TrimRightFacts(rest, IsSpace);
    var n := |line| - |rest|;
    if rest != "" {
      assert line[n] == rest[0];
      assert Strip(line) != "";
      if StartsWith(rest, "#") { assert line[n] == '#'; }
    }
  }

  /** The lines kept, right-stripped. */
  function Keep(lines: seq<string>): seq<string> {
    if lines == [] then []
    else (if Ignored(lines[0]) then [] else [TrimRight(lines[0], IsSpace)]) + Keep(lines[1..])
  }

  function Load(text: string): seq<string> {
    Keep(SplitLines(text))
  }

  function Body(line: string): string {
    TrimLeft(line, IsBlank)
  }

  function Indent(line: string): nat {
    |line| - |Body(line)|
  }

  /** The indentation is the number of blanks in front; other white space is none. */
  lemma IndentCountsBlanks(n: nat, body: string)
    requires body == "" || body[0] != ' '
    ensures Indent(Pad(n) + body) == n && Body(Pad(n) + body) == body
  {
    TrimPad(n, body, IsBlank);
  }

  predicate IsDash(line: string) {
    StartsWith(Body(line), "- ")
  }

  /** The text after the dash of a line that starts with one. */
  function AfterDash(line: string): string
    requires IsDash(line)
  {
    Body(line)[2..]
  }

  /** All that the parser looks at in a line: its indentation and what it says. */
  datatype Line = Line(indent: nat, form: Form)
  {
    predicate Dash() {
      form.DashNode? || form.DashEntry? || form.DashScalar?
    }
  }

  datatype Form =
    | DashNode                           // "- " and white space
    | DashEntry(key: string, val: Value) // "- key: value"
    | DashScalar(val: Value)             // "- value"
    | Opens(key: string)                 // "key:"
    | KeyValue(key: string, val: Value)  // "key: value"
    | Other

  function ReadItem(inline: string): (f: Form)
    ensures f.DashNode? || f.DashEntry? || f.DashScalar?
  {
    if Strip(inline) == "" then DashNode
    else match ScalarMatch(inline)
      case None => DashScalar(Coerce(inline))
      case Some((key, val)) => if val != "" then DashEntry(key, Inline(val)) else DashScalar(Coerce(inline))
  }

  function ReadEntry(body: string): (f: Form)
    ensures f.Opens? || f.KeyValue? || f.Other?
  {
    match ScalarMatch(body)
    case None => Other
    case Some((key, val)) => if val == "" then Opens(key) else KeyValue(key, Inline(val))
  }

  function Read(line: string): Line {
    Line(Indent(line), if IsDash(line) then ReadItem(AfterDash(line)) else ReadEntry(Body(line)))
  }

  function ReadAll(lines: seq<string>): (r: seq<Line>)
    ensures |r| == |lines|
  {
    Map(Read, lines)
  }

  // ---------- what the parser computes ----------

  /** Each function takes the lines not read yet and returns the value and the lines left.
      The number of lines and the ranks 0 to 2 are the termination measure; entering a
      mapping or a sequence reads at least one line. */
  function Node(rest: seq<Line>, indent: nat): (r: (Value, seq<Line>))
    ensures |r.1| <= |rest|
    ensures r.0.Null? || (|r.1| < |rest| && (r.0.List? || r.0.Dict?))
    decreases |rest|, 2
  {
    if rest == [] || rest[0].indent < indent then (Null, rest)
    else if rest[0].Dash() then
      var (items, rest') := Sequence(rest, rest[0].indent, []);
      (List(items), rest')
    else
      var (entries, rest') := Mapping(rest, rest[0].indent, []);
      (Dict(entries), rest')
  }

  function Mapping(rest: seq<Line>, indent: nat, acc: seq<Entry>): (r: (seq<Entry>, seq<Line>))
    ensures |r.1| <= |rest|
    ensures rest != [] && rest[0].indent == indent && !rest[0].Dash() ==> |r.1| < |rest|
    decreases |rest|, 1
  {
    if rest == [] || rest[0].indent != indent then (acc, rest)
    else match rest[0].form
      case Other => Mapping(rest[1..], indent, acc)
      case KeyValue(key, val) => Mapping(rest[1..], indent, Put(acc, key, val))
      case Opens(key) =>
        var (child, rest') := Node(rest[1..], indent + 2);
        Mapping(rest', indent, Put(acc, key, if child.Null? then Dict([]) else child))
      case _ => (acc, rest)
  }

  function Sequence(rest: seq<Line>, indent: nat, acc: seq<Value>): (r: (seq<Value>, seq<Line>))
    ensures |r.1| <= |rest|
    ensures rest != [] && rest[0].indent >= indent && rest[0].Dash() ==> |r.1| < |rest|
    decreases |rest|, 1
  {
    if rest == [] || rest[0].indent < indent then (acc, rest)
    else match rest[0].form
      case DashNode =>
        var (child, rest') := Node(rest[1..], indent + 2);
        Sequence(rest', indent, acc + [child])
      case DashEntry(key, val) =>
        var (entries, rest') := Absorb(rest[1..], indent, [Entry(key, val)]);
        Sequence(rest', indent, acc + [Dict(entries)])
      case DashScalar(val) => Sequence(rest[1..], indent, acc + [val])
      case _ => (acc, rest)
  }

  /** The lines indented deeper than the dash that continue a mapping element. */
  function Absorb(rest: seq<Line>, indent: nat, acc: seq<Entry>): (r: (seq<Entry>, seq<Line>))
    ensures |r.1| <= |rest|
    decreases |rest|, 0
  {
    if rest == [] || rest[0].indent <= indent then (acc, rest)
    else match rest[0].form
      case KeyValue(key, val) => Absorb(rest[1..], indent, Put(acc, key, val))
      case Opens(key) =>
        var (child, rest') := Node(rest[1..], rest[0].indent + 2);
        Absorb(rest', indent, Put(acc, key, if Falsy(child) then Dict([]) else child))
      case _ => (acc, rest)
  }

  function Parse(text: string): Value {
    Node(ReadAll(Load(text)), 0).0
  }

  /** A dash followed by white space only cannot be met: the lines are right-stripped. */
  lemma DashNodeIsNeverRead(text: string, i: nat)
    requires i < |Load(text)|
    ensures Read(Load(text)[i]).form != DashNode
  {
    KeptLine(SplitLines(text), i);
    var line := Load(text)[i];
    if IsDash(line) {
      TrimLeftFacts(line, IsBlank);
      var inline := AfterDash(line);
      assert Body(line)[1] == ' ';
      assert inline != "" && inline[|inline| - 1] == line[|line| - 1];
      NotAllBlank(inline);
    }
  }

  lemma NotAllBlank(s: string)
    requires s != "" && !IsSpace(s[|s| - 1])
    ensures Strip(s) != "" && TrimLeft(s, IsSpace) != ""
  {
    TrimLeftFacts(s, IsSpace);
    TrimRightFacts(TrimLeft(s, IsSpace), IsSpace);
  }

  lemma {:induction false} KeptLine(lines: seq<string>, i: nat)
    requires i < |Keep(lines)|
    ensures var line := Keep(lines)[i]; line != "" && !IsSpace(line[|line| - 1])
  {
    if Ignored(lines[0]) {
      KeptLine(lines[1..], i);
    } else if i == 0 {
      TrimLeftFacts(lines[0], IsSpace);
      TrimRightFacts(lines[0], IsSpace);
    } else {
      KeptLine(lines[1..], i - 1);
    }
  }

  // ---------- the class ----------

  class MiniYaml {
    const lines: seq<string>
    var idx: nat

    ghost predicate Valid() reads this {
      idx <= |lines|
    }

    /** What is still to be read. */
    ghost function Rest(): seq<Line> reads this requires Valid() {
      ReadAll(lines)[idx..]
    }

    constructor (text: string)
      ensures Valid() && Rest() == ReadAll(Load(text))
    {
      lines := Load(text);
      idx := 0;
    }

    /** The next line, if there is one. */
    method Peek() returns (line: Option<Line>)
      requires Valid()
      ensures line == if Rest() == [] then None else Some(Rest()[0])
      ensures line.None? <==> idx == |lines|
    {
      if idx == |lines| { return None; }
      line := Some(Read(lines[idx]));
    }

    /** One line on. */
    method Advance()
      requires Valid() && Rest() != []
      modifies this`idx
      ensures Valid() && idx == old(idx) + 1 && Rest() == old(Rest())[1..]
    {
      idx := idx + 1;
    }

    method ParseText() returns (v: Value)
      requires Valid()
      modifies this`idx
      ensures Valid() && (v, Rest()) == Node(old(Rest()), 0)
    {
      v := ParseNode(0);
    }

    method ParseNode(indent: nat) returns (v: Value)
      requires Valid()
      modifies this`idx
      ensures Valid() && (v, Rest()) == Node(old(Rest()), indent)
      decreases |lines| - idx, 2
    {
      var peeked := Peek();
      if peeked.None? { return Null; }
      var line := peeked.value;
      if line.indent < indent { return Null; }
      if line.Dash() {
        var items := ParseSeq(line.indent);
        return List(items);
      }
      var entries := ParseMap(line.indent);
      return Dict(entries);
    }

    method ParseMap(indent: nat) returns (result: seq<Entry>)
      requires Valid()
      modifies this`idx
      ensures Valid() && (result, Rest()) == Mapping(old(Rest()), indent, [])
      decreases |lines| - idx, 1
    {
      result := [];
      while true
        invariant Valid() && old(idx) <= idx
        invariant Mapping(old(Rest()), indent, []) == Mapping(Rest(), indent, result)
        decreases |lines| - idx
      {
        var peeked := Peek();
        if peeked.None? { break; }
        var line := peeked.value;
        if line.indent < indent || line.indent > indent || line.Dash() { break; }
        Advance();
        match line.form {
          case Other =>
          case Opens(key) =>
            var child := ParseNode(indent + 2);
            result := Put(result, key, if child.Null? then Dict([]) else child);
          case KeyValue(key, val) =>
            result := Put(result, key, val);
        }
      }
    }

    method ParseSeq(indent: nat) returns (items: seq<Value>)
      requires Valid()
      modifies this`idx
      ensures Valid() && (items, Rest()) == Sequence(old(Rest()), indent, [])
      decreases |lines| - idx, 1
    {
      items := [];
      while true
        invariant Valid() && old(idx) <= idx
        invariant Sequence(old(Rest()), indent, []) == Sequence(Rest(), indent, items)
        decreases |lines| - idx
      {
        var peeked := Peek();
        if peeked.None? { break; }
        var line := peeked.value;
        if line.indent < indent || !line.Dash() { break; }
        Advance();
        match line.form {
          case DashNode =>
            var child := ParseNode(indent + 2);
            items := items + [child];
          case DashEntry(key, val) =>
            var entries := AbsorbLines(indent, [Entry(key, val)]);
            items := items + [Dict(entries)];
          case DashScalar(val) =>
            items := items + [val];
        }
      }
    }

    /** The inner loop of the sequence parser. */
    method AbsorbLines(indent: nat, first: seq<Entry>) returns (item: seq<Entry>)
      requires Valid()
      modifies this`idx
      ensures Valid() && (item, Rest()) == Absorb(old(Rest()), indent, first)
      decreases |lines| - idx, 0
    {
      item := first;
      while true
        invariant Valid() && old(idx) <= idx
        invariant Absorb(old(Rest()), indent, first) == Absorb(Rest(), indent, item)
        decreases |lines| - idx
      {
        var peeked := Peek();
        if peeked.None? { break; }
        var line := peeked.value;
        if line.indent <= indent || line.Dash() || line.form.Other? { break; }
        Advance();
        match line.form {
          case Opens(key) =>
            var child := ParseNode(line.indent + 2);
            item := Put(item, key, if Falsy(child) then Dict([]) else child);
          case KeyValue(key, val) =>
            item := Put(item, key, val);
        }
      }
    }
  }
}
