/** The endpoint extractor of tools/refactor-baseline/parse_endpoints.py: one row per
    operation, in a strict order of path and method. */
module EndpointRows {
  import opened Text
  import opened Order
  import opened Yaml

  /** METHOD, PATH, STATUSES, CONTENT_TYPES, TAGS, SECURITY */
  type Row = seq<string>

  const METHODS: seq<string> := ["get", "post", "put", "delete", "patch", "options", "head", "trace"]
  const UPPER_METHODS: seq<string> := ["GET", "POST", "PUT", "DELETE", "PATCH", "OPTIONS", "HEAD", "TRACE"]

  // ---------- summarising an operation ----------

  /** `sorted(set(s))` */
  function SortedSet(s: seq<string>): seq<string> {
    if s == [] then []
    else
      var rest := SortedSet(s[1..]);
      if s[0] in rest then rest else Insert(s[0], rest, StringLess)
  }

  /** By length, then by code points: numeric order for status codes. */
  predicate StatusLess(a: string, b: string) {
    |a| < |b| || (|a| == |b| && StringLess(a, b))
  }

  function OrDash(s: string): string {
    if s == "" then "-" else s
  }

  /** `d.get(key)` where an absent key and a value that is no dictionary are not told apart. */
  function GetDict(v: Value, key: string): Option<seq<Entry>> {
    if !v.Dict? then None
    else match Get(v.entries, key)
      case Some(Dict(entries)) => Some(entries)
      case _ => None
  }

  function ContentTypes(responses: seq<Entry>): seq<string> {
    if responses == [] then []
    else
      (match GetDict(responses[0].val, "content")
       case Some(content) => Keys(content)
       case None => [])
      + ContentTypes(responses[1..])
  }

  function SummariseResponses(responses: Option<Value>): (string, string) {
    match responses
    case Some(Dict(entries)) =>
      var cts := SortedSet(ContentTypes(entries));
      (Join(Sort(Keys(entries), StatusLess), ","), if cts == [] then "-" else Join(cts, ","))
    case _ => ("-", "-")
  }

  function StrAll(items: seq<Value>, str: Value -> string): seq<string> {
    if items == [] then [] else [str(items[0])] + StrAll(items[1..], str)
  }

  function Chars(s: string): seq<string> {
    if s == "" then [] else [[s[0]]] + Chars(s[1..])
  }

  /** The tags as iterating over the value yields them; a number or `true` cannot be
      iterated over, which the source leaves to a `TypeError`. */
  function TagText(tags: Option<Value>, str: Value -> string): Option<string> {
    match tags
    case None => Some("-")
    case Some(v) =>
      if Falsy(v) then Some("-")
      else match v
        case List(items) => Some(Join(SortedSet(StrAll(items, str)), ","))
        case Dict(entries) => Some(Join(SortedSet(Keys(entries)), ","))
        case Str(s) => Some(Join(SortedSet(Chars(s)), ","))
        case _ => None
  }

  function HasSecurity(sec: Option<Value>): bool {
    match sec
    case Some(List(items)) => exists i | 0 <= i < |items| :: !Falsy(items[i])
    case Some(Dict(entries)) => exists i | 0 <= i < |entries| :: !Falsy(entries[i].val)
    case _ => false
  }

  // ---------- rows ----------

  function OperationRow(m: nat, path: string, op: seq<Entry>, str: Value -> string): (r: Option<Row>)
    requires m < |METHODS|
    ensures r.Some? ==> |r.value| == 6 && r.value[0] == UPPER_METHODS[m] && r.value[1] == path
  {
    var (statuses, cts) := SummariseResponses(Get(op, "responses"));
    match TagText(Get(op, "tags"), str)
    case None => None
    case Some(tags) =>
      Some([UPPER_METHODS[m], path, OrDash(statuses), OrDash(cts), tags,
            if HasSecurity(Get(op, "security")) then "yes" else "no"])
  }

  function Both(a: Option<seq<Row>>, b: Option<seq<Row>>): Option<seq<Row>> {
    if a.Some? && b.Some? then Some(a.value + b.value) else None
  }

  function Append(found: seq<Row>, rest: Option<seq<Row>>): Option<seq<Row>> {
    if rest.Some? then Some(found + rest.value) else None
  }

  function Cons(row: Row, rest: Option<seq<Row>>): Option<seq<Row>> {
    if rest.Some? then Some([row] + rest.value) else None
  }

  /** The rows of one path, from method number `m` on; no result stands for the error. */
  function PathRows(m: nat, path: string, item: Value, str: Value -> string): Option<seq<Row>>
    requires m <= |METHODS|
    decreases |METHODS| - m
  {
    if m == |METHODS| then Some([])
    else match GetDict(item, METHODS[m])
      case None => PathRows(m + 1, path, item, str)
      case Some(op) =>
        match OperationRow(m, path, op, str)
        case None => None
        case Some(row) => Cons(row, PathRows(m + 1, path, item, str))
  }

  function AllRows(paths: seq<Entry>, str: Value -> string): Option<seq<Row>> {
    if paths == [] then Some([])
    else Both(PathRows(0, paths[0].key, paths[0].val, str), AllRows(paths[1..], str))
  }

  predicate KeyLess(a: Entry, b: Entry) {
    StringLess(a.key, b.key)
  }

  /** `(doc or {}).get("paths") or {}`, and no paths when that is no dictionary. */
  function Paths(doc: Value): seq<Entry> {
    match GetDict(doc, "paths")
    case Some(paths) => paths
    case None => []
  }

  /** `str` renders a tag that is no string, as Python's `str` does. A document that is neither
      empty nor a dictionary has no `get`. */
  function Extract(doc: Value, str: Value -> string): Option<seq<Row>> {
    if !Falsy(doc) && !doc.Dict? then None else AllRows(Sort(Paths(doc), KeyLess), str)
  }

  method ExtractEndpoints(doc: Value, str: Value -> string) returns (rows: Option<seq<Row>>)
    ensures rows == Extract(doc, str)
  {
    if !Falsy(doc) && !doc.Dict? { return None; }
    var paths := Sort(Paths(doc), KeyLess);
    var found: seq<Row> := [];
    AppendNil(AllRows(paths, str));
    assert paths[0..] == paths;
    for p := 0 to |paths|
      invariant AllRows(paths, str) == Append(found, AllRows(paths[p..], str))
    {
      ghost var rest := AllRows(paths[p + 1..], str);
      AllRowsStep(paths, p, str);
      var more := ExtractPath(found, paths[p], str, rest);
      if more.None? { return None; }
      found := more.value;
    }
    assert found + [] == found;
    rows := Some(found);
  }

  /** The loop over the methods of one path, which appends to the rows found so far; `rest` is
      what the paths behind it give. */
  method ExtractPath(found: seq<Row>, entry: Entry, str: Value -> string, ghost rest: Option<seq<Row>>)
    returns (rows: Option<seq<Row>>)
    ensures rows == Append(found, PathRows(0, entry.key, entry.val, str))
    ensures Append(found, Both(PathRows(0, entry.key, entry.val, str), rest))
            == if rows.Some? then Append(rows.value, rest) else None
  {
    var Entry(path, item) := entry;
    var out := found;
    for m := 0 to |METHODS|
      invariant Append(found, PathRows(0, path, item, str)) == Append(out, PathRows(m, path, item, str))
    {
      var op := GetDict(item, METHODS[m]);
      if op.Some? {
        var row := OperationRow(m, path, op.value, str);
        if row.None? { return None; }
        AppendCons(out, row.value, PathRows(m + 1, path, item, str));
        out := out + [row.value];
      }
    }
    assert out + [] == out;
    rows := Some(out);
    AppendBoth(found, PathRows(0, path, item, str), rest);
  }

  lemma AppendCons(found: seq<Row>, row: Row, more: Option<seq<Row>>)
    ensures Append(found, Cons(row, more)) == Append(found + [row], more)
  {
    if more.Some? { assert found + ([row] + more.value) == found + [row] + more.value; }
  }

  lemma AppendBoth(found: seq<Row>, rows: Option<seq<Row>>, rest: Option<seq<Row>>)
    ensures Append(found, Both(rows, rest)) == if rows.Some? then Append(found + rows.value, rest) else None
  {
    if rows.Some? && rest.Some? {
      assert found + (rows.value + rest.value) == found + rows.value + rest.value;
    }
  }

  lemma AllRowsStep(paths: seq<Entry>, p: nat, str: Value -> string)
    requires p < |paths|
    ensures AllRows(paths[p..], str)
            == Both(PathRows(0, paths[p].key, paths[p].val, str), AllRows(paths[p + 1..], str))
  {
    assert paths[p..][1..] == paths[p + 1..];
  }

  lemma AppendNil(rows: Option<seq<Row>>)
    ensures Append([], rows) == rows
  {
    assert rows.Some? ==> [] + rows.value == rows.value;
  }

  // ---------- the rows are in strict order ----------

  /** No key occurs twice, as in every Python dictionary. */
  ghost predicate UniqueKeys(d: seq<Entry>) {
    forall i, j | 0 <= i < j < |d| :: d[i].key != d[j].key
  }

  /** Where a row stands: by path, then by method. */
  predicate RowBefore(a: Row, b: Row) {
    && |a| >= 2 && |b| >= 2
    && (StringLess(a[1], b[1]) || (a[1] == b[1] && MethodRank(a[0], 0) < MethodRank(b[0], 0)))
  }

  function MethodRank(name: string, from: nat): (r: nat)
    requires from <= |UPPER_METHODS|
    ensures r <= |UPPER_METHODS|
    decreases |UPPER_METHODS| - from
  {
    if from == |UPPER_METHODS| || UPPER_METHODS[from] == name then from else MethodRank(name, from + 1)
  }

  lemma RankOfMethod(m: nat)
    requires m < |UPPER_METHODS|
    ensures MethodRank(UPPER_METHODS[m], 0) == m
  {
    assert UPPER_METHODS[0][0] == 'G' && UPPER_METHODS[1][1] == 'O' && UPPER_METHODS[2][1] == 'U';
    assert UPPER_METHODS[3][0] == 'D' && UPPER_METHODS[4][1] == 'A' && UPPER_METHODS[5][0] == 'O';
    assert UPPER_METHODS[6][0] == 'H' && UPPER_METHODS[7][0] == 'T' && UPPER_METHODS[1][0] == 'P';
    assert UPPER_METHODS[2][0] == 'P' && UPPER_METHODS[4][0] == 'P';
    RankFrom(m, 0);
  }

  lemma {:induction false} RankFrom(m: nat, from: nat)
    requires from <= m < |UPPER_METHODS|
    requires forall i, j | 0 <= i < j < |UPPER_METHODS| :: UPPER_METHODS[i] != UPPER_METHODS[j]
    ensures MethodRank(UPPER_METHODS[m], from) == m
    decreases m - from
  {
    if from < m { RankFrom(m, from + 1); }
  }

  ghost predicate RowOf(row: Row, path: string, m: nat) {
    |row| == 6 && row[1] == path && m <= MethodRank(row[0], 0) < |UPPER_METHODS|
  }

  lemma {:induction false} RankedIsMethod(name: string, from: nat)
    requires from <= |UPPER_METHODS| && MethodRank(name, from) < |UPPER_METHODS|
    ensures name in UPPER_METHODS
    decreases |UPPER_METHODS| - from
  {
    if from < |UPPER_METHODS| && UPPER_METHODS[from] != name { RankedIsMethod(name, from + 1); }
  }

  lemma RowInFront(row: Row, rest: seq<Row>, path: string, m: nat)
    requires RowOf(row, path, m) && MethodRank(row[0], 0) == m
    requires Ascending(rest, RowBefore) && forall i | 0 <= i < |rest| :: RowOf(rest[i], path, m + 1)
    ensures Ascending([row] + rest, RowBefore)
    ensures forall i | 0 <= i < |[row] + rest| :: RowOf(([row] + rest)[i], path, m)
  {
    forall j | 0 <= j < |rest| ensures RowBefore(row, rest[j]) && RowOf(rest[j], path, m) {
      assert RowOf(rest[j], path, m + 1);
    }
  }

  lemma {:induction false} PathRowsOrdered(m: nat, path: string, item: Value, str: Value -> string)
    requires m <= |METHODS| && PathRows(m, path, item, str).Some?
    ensures var rows := PathRows(m, path, item, str).value;
            Ascending(rows, RowBefore) && forall i | 0 <= i < |rows| :: RowOf(rows[i], path, m)
    decreases |METHODS| - m
  {
    if m < |METHODS| {
      PathRowsOrdered(m + 1, path, item, str);
      var op := GetDict(item, METHODS[m]);
      if op.Some? {
        RankOfMethod(m);
        var row := OperationRow(m, path, op.value, str).value;
        RowInFront(row, PathRows(m + 1, path, item, str).value, path, m);
      }
    }
  }

  lemma {:induction false} AllRowsOrdered(paths: seq<Entry>, str: Value -> string)
    requires Ascending(paths, KeyLess) && AllRows(paths, str).Some?
    ensures var rows := AllRows(paths, str).value;
            Ascending(rows, RowBefore)
            && forall i | 0 <= i < |rows| :: exists p | 0 <= p < |paths| :: RowOf(rows[i], paths[p].key, 0)
  {
    if paths != [] {
      var first, rest := PathRows(0, paths[0].key, paths[0].val, str).value, AllRows(paths[1..], str).value;
      PathRowsOrdered(0, paths[0].key, paths[0].val, str);
      AllRowsOrdered(paths[1..], str);
      forall j | 0 <= j < |rest|
        ensures exists p | 1 <= p < |paths| :: RowOf(rest[j], paths[p].key, 0)
      {
        var p :| 0 <= p < |paths[1..]| && RowOf(rest[j], paths[1..][p].key, 0);
        assert RowOf(rest[j], paths[p + 1].key, 0);
      }
      forall i, j | 0 <= i < |first| && 0 <= j < |rest| ensures RowBefore(first[i], rest[j]) {
        var p :| 1 <= p < |paths| && RowOf(rest[j], paths[p].key, 0);
        assert KeyLess(paths[0], paths[p]) && RowOf(first[i], paths[0].key, 0);
      }
      forall i | 0 <= i < |first| ensures exists p | 0 <= p < |paths| :: RowOf(first[i], paths[p].key, 0) {
        assert RowOf(first[i], paths[0].key, 0);
      }
    }
  }

  /** Every extracted row has six fields, its method is one of the eight, and the rows are
      in strict order: no (METHOD, PATH) occurs twice. */
  lemma {:induction false} ExtractOrdered(doc: Value, str: Value -> string)
    requires UniqueKeys(Paths(doc)) && Extract(doc, str).Some?
    ensures var rows := Extract(doc, str).value;
            Ascending(rows, RowBefore)
            && forall i | 0 <= i < |rows| :: |rows[i]| == 6 && rows[i][0] in UPPER_METHODS
  {
    var paths := Paths(doc);
    StringOrder();
    SortAscends(paths, KeyLess);
    AllRowsOrdered(Sort(paths, KeyLess), str);
    var rows := Extract(doc, str).value;
    forall i | 0 <= i < |rows| ensures |rows[i]| == 6 && rows[i][0] in UPPER_METHODS {
      RankedIsMethod(rows[i][0], 0);
    }
  }

  // ---------- the parser builds dictionaries ----------

  /** No dictionary inside the value has a key twice, and no key or string a line break. */
  ghost predicate Tidy(v: Value)
    decreases v, 1
  {
    match v
    case Str(s) => NoLineBreak(s)
    case List(items) => forall i | 0 <= i < |items| :: Tidy(items[i])
    case Dict(entries) => TidyEntries(entries)
    case _ => true
  }

  ghost predicate TidyEntries(d: seq<Entry>)
    decreases d, 0
  {
    UniqueKeys(d) && forall i | 0 <= i < |d| :: NoLineBreak(d[i].key) && Tidy(d[i].val)
  }

  lemma {:induction false} PutTidy(d: seq<Entry>, key: string, val: Value)
    requires TidyEntries(d) && NoLineBreak(key) && Tidy(val)
    ensures TidyEntries(Put(d, key, val))
    ensures forall e :: e in Put(d, key, val) ==> e in d || e == Entry(key, val)
    ensures forall e :: e in Put(d, key, val) && e.key == key ==> e == Entry(key, val)
  {
    if d != [] && d[0].key != key {
      PutTidy(d[1..], key, val);
      var rest := Put(d[1..], key, val);
      forall j | 0 <= j < |rest| ensures rest[j].key != d[0].key {
        assert rest[j] in rest;
      }
    }
  }

  /** Stripping keeps line breaks out. */
  lemma StripKeepsOut(s: string)
    requires NoLineBreak(s)
    ensures NoLineBreak(Strip(s))
  {
    var rest := TrimLeft(s, IsSpace);
    TrimLeftFacts(s, IsSpace);
    TrimRightFacts(rest, IsSpace);
    forall k | 0 <= k < |Strip(s)| ensures !IsLineBreak(Strip(s)[k]) {
      assert Strip(s)[k] == rest[k] == s[|s| - |rest| + k];
    }
  }

  lemma TidyCoerce(s: string)
    requires NoLineBreak(s)
    ensures Tidy(Coerce(s))
  {
    StripKeepsOut(s);
  }

  lemma {:induction false} TidyScalar(s: string)
    requires NoLineBreak(s)
    ensures Tidy(Coerce(s)) && Tidy(Inline(s))
  {
    var body := Strip(Inner(Strip(s)));
    TidyCoerce(s);
    StripKeepsOut(s);
    StripKeepsOut(Inner(Strip(s)));
    SplitOnPieces(body, ',');
    CoerceAllTidy(SplitOn(body, ','));
  }

  lemma {:induction false} CoerceAllTidy(parts: seq<string>)
    requires forall i | 0 <= i < |parts| :: NoLineBreak(parts[i])
    ensures Tidy(List(CoerceAll(parts)))
  {
    if parts != [] {
      CoerceAllTidy(parts[1..]);
      TidyCoerce(parts[0]);
      var rest := List(CoerceAll(parts[1..]));
      assert forall i | 0 <= i < |rest.items| :: Tidy(rest.items[i]);
    }
  }

  ghost predicate TidyLine(l: Line) {
    match l.form
    case DashEntry(key, val) => NoLineBreak(key) && Tidy(val)
    case DashScalar(val) => Tidy(val)
    case Opens(key) => NoLineBreak(key)
    case KeyValue(key, val) => NoLineBreak(key) && Tidy(val)
    case _ => true
  }

  ghost predicate TidyLines(lines: seq<Line>) {
    forall i | 0 <= i < |lines| :: TidyLine(lines[i])
  }

  lemma {:induction false} NodeTidy(rest: seq<Line>, indent: nat)
    requires TidyLines(rest)
    ensures Tidy(Node(rest, indent).0) && TidyLines(Node(rest, indent).1)
    decreases |rest|, 2
  {
    if rest != [] && rest[0].indent >= indent {
      if rest[0].Dash() {
        SequenceTidy(rest, rest[0].indent, []);
      } else {
        MappingTidy(rest, rest[0].indent, []);
      }
    }
  }

  lemma {:induction false} MappingTidy(rest: seq<Line>, indent: nat, acc: seq<Entry>)
    requires TidyLines(rest) && TidyEntries(acc)
    ensures var (d, rest') := Mapping(rest, indent, acc); TidyEntries(d) && TidyLines(rest')
    decreases |rest|, 1
  {
    if rest != [] && rest[0].indent == indent {
      match rest[0].form
      case Other => MappingTidy(rest[1..], indent, acc);
      case KeyValue(key, val) =>
        assert TidyLine(rest[0]);
        PutTidy(acc, key, val);
        MappingTidy(rest[1..], indent, Put(acc, key, val));
      case Opens(key) =>
        assert TidyLine(rest[0]);
        var (child, rest') := Node(rest[1..], indent + 2);
        NodeTidy(rest[1..], indent + 2);
        var val := if child.Null? then Dict([]) else child;
        PutTidy(acc, key, val);
        MappingTidy(rest', indent, Put(acc, key, val));
      case _ =>
    }
  }

  lemma {:induction false} SequenceTidy(rest: seq<Line>, indent: nat, acc: seq<Value>)
    requires TidyLines(rest) && Tidy(List(acc))
    ensures var (s, rest') := Sequence(rest, indent, acc); Tidy(List(s)) && TidyLines(rest')
    decreases |rest|, 1
  {
    if rest != [] && rest[0].indent >= indent {
      match rest[0].form
      case DashNode =>
        var (child, rest') := Node(rest[1..], indent + 2);
        NodeTidy(rest[1..], indent + 2);
        SnocTidy(acc, child);
        SequenceTidy(rest', indent, acc + [child]);
      case DashEntry(key, val) =>
        assert TidyLine(rest[0]);
        var (entries, rest') := Absorb(rest[1..], indent, [Entry(key, val)]);
        AbsorbTidy(rest[1..], indent, [Entry(key, val)]);
        SnocTidy(acc, Dict(entries));
        SequenceTidy(rest', indent, acc + [Dict(entries)]);
      case DashScalar(val) =>
        assert TidyLine(rest[0]);
        SnocTidy(acc, val);
        SequenceTidy(rest[1..], indent, acc + [val]);
      case _ =>
    }
  }

  lemma SnocTidy(items: seq<Value>, v: Value)
    requires Tidy(List(items)) && Tidy(v)
    ensures Tidy(List(items + [v]))
  {
    var l := List(items);
    assert forall i | 0 <= i < |l.items| :: Tidy(l.items[i]);
  }

  lemma {:induction false} AbsorbTidy(rest: seq<Line>, indent: nat, acc: seq<Entry>)
    requires TidyLines(rest) && TidyEntries(acc)
    ensures var (d, rest') := Absorb(rest, indent, acc); TidyEntries(d) && TidyLines(rest')
    decreases |rest|, 0
  {
    if rest != [] && rest[0].indent > indent {
      match rest[0].form
      case KeyValue(key, val) =>
        assert TidyLine(rest[0]);
        PutTidy(acc, key, val);
        AbsorbTidy(rest[1..], indent, Put(acc, key, val));
      case Opens(key) =>
        assert TidyLine(rest[0]);
        var (child, rest') := Node(rest[1..], rest[0].indent + 2);
        NodeTidy(rest[1..], rest[0].indent + 2);
        var val := if Falsy(child) then Dict([]) else child;
        PutTidy(acc, key, val);
        AbsorbTidy(rest', indent, Put(acc, key, val));
      case _ =>
    }
  }

  lemma {:induction false} MatchTidy(body: string)
    requires NoLineBreak(body)
    ensures var m := ScalarMatch(body);
            m.Some? ==> NoLineBreak(m.value.0) && NoLineBreak(m.value.1) && Tidy(Inline(m.value.1))
  {
    var m, i := ScalarMatch(body), IndexOf(body, EndsKey);
    if m.Some? {
      StripKeepsOut(body[..i]);
      StripKeepsOut(body[i + 1..]);
      TidyScalar(m.value.1);
    }
  }

  lemma {:induction false} ReadTidy(line: string)
    requires NoLineBreak(line)
    ensures TidyLine(Read(line))
  {
    TrimLeftFacts(line, IsBlank);
    MatchTidy(Body(line));
    if IsDash(line) {
      MatchTidy(AfterDash(line));
      TidyCoerce(AfterDash(line));
    }
  }

  lemma {:induction false} KeepTidy(lines: seq<string>)
    requires forall i | 0 <= i < |lines| :: NoLineBreak(lines[i])
    ensures forall i | 0 <= i < |Keep(lines)| :: NoLineBreak(Keep(lines)[i])
  {
    if lines != [] {
      KeepTidy(lines[1..]);
      TrimRightFacts(lines[0], IsSpace);
    }
  }

  lemma {:induction false} GetTidy(d: seq<Entry>, key: string)
    requires forall i | 0 <= i < |d| :: Tidy(d[i].val)
    ensures Get(d, key).Some? ==> Tidy(Get(d, key).value)
  {
    if d != [] && d[0].key != key { GetTidy(d[1..], key); }
  }

  /** The document the parser returns has no key twice and no line break anywhere. */
  lemma {:induction false} ParsedIsTidy(text: string)
    ensures Tidy(Parse(text)) && UniqueKeys(Paths(Parse(text))) && TidyEntries(Paths(Parse(text)))
  {
    var lines := ReadAll(Load(text));
    SplitLinesPieces(text);
    KeepTidy(SplitLines(text));
    forall i | 0 <= i < |lines| ensures TidyLine(lines[i]) {
      ReadTidy(Load(text)[i]);
    }
    NodeTidy(lines, 0);
    var doc := Parse(text);
    if doc.Dict? { GetTidy(doc.entries, "paths"); }
  }

  /** So the extractor's order holds for every text. */
  lemma {:induction false} ParsedRowsOrdered(text: string, str: Value -> string)
    requires Extract(Parse(text), str).Some?
    ensures var rows := Extract(Parse(text), str).value;
            Ascending(rows, RowBefore)
            && forall i | 0 <= i < |rows| :: |rows[i]| == 6 && rows[i][0] in UPPER_METHODS
  {
    ParsedIsTidy(text);
    ExtractOrdered(Parse(text), str);
  }
}
