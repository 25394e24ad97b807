/** What the fields of extracted rows can hold. No string that the parser returns holds a line
    break, so the only thing that keeps a document from passing against its own baseline is a
    tab, and there are documents with one. */
module BaselineFields {
  import opened Text
  import opened Order
  import opened Yaml
  import opened EndpointRows
  import opened EndpointGate
  import Trip = YamlRoundTrip
  import Scalars = YamlScalars

  ghost predicate Unbroken(parts: seq<string>) {
    forall i | 0 <= i < |parts| :: NoLineBreak(parts[i])
  }

  /** `str` adds no line break of its own. */
  ghost predicate StrOk(str: Value -> string) {
    forall v :: Tidy(v) ==> NoLineBreak(str(v))
  }

  lemma {:induction false} JoinUnbroken(parts: seq<string>, sep: string)
    requires Unbroken(parts) && NoLineBreak(sep)
    ensures NoLineBreak(Join(parts, sep))
  {
    if |parts| > 1 { JoinUnbroken(parts[1..], sep); }
  }

  lemma {:induction false} InsertUnbroken(x: string, s: seq<string>, less: (string, string) -> bool)
    requires NoLineBreak(x) && Unbroken(s)
    ensures Unbroken(Insert(x, s, less))
  {
    if s != [] && !less(x, s[0]) { InsertUnbroken(x, s[1..], less); }
  }

  lemma {:induction false} SortUnbroken(s: seq<string>, less: (string, string) -> bool)
    requires Unbroken(s)
    ensures Unbroken(Sort(s, less))
  {
    if s != [] {
      SortUnbroken(s[..|s| - 1], less);
      InsertUnbroken(s[|s| - 1], Sort(s[..|s| - 1], less), less);
    }
  }

  lemma {:induction false} SortedSetUnbroken(s: seq<string>)
    requires Unbroken(s)
    ensures Unbroken(SortedSet(s))
  {
    if s != [] {
      SortedSetUnbroken(s[1..]);
      InsertUnbroken(s[0], SortedSet(s[1..]), StringLess);
    }
  }

  lemma GetDictTidy(v: Value, key: string)
    requires Tidy(v)
    ensures GetDict(v, key).Some? ==> TidyEntries(GetDict(v, key).value)
  {
    if v.Dict? { GetTidy(v.entries, key); }
  }

  lemma {:induction false} ContentTypesUnbroken(responses: seq<Entry>)
    requires forall i | 0 <= i < |responses| :: Tidy(responses[i].val)
    ensures Unbroken(ContentTypes(responses))
  {
    if responses != [] {
      ContentTypesUnbroken(responses[1..]);
      GetDictTidy(responses[0].val, "content");
    }
  }

  lemma ResponsesUnbroken(responses: Option<Value>)
    requires responses.Some? ==> Tidy(responses.value)
    ensures var (statuses, cts) := SummariseResponses(responses); NoLineBreak(statuses) && NoLineBreak(cts)
  {
    match responses
    case Some(Dict(entries)) =>
      SortUnbroken(Keys(entries), StatusLess);
      JoinUnbroken(Sort(Keys(entries), StatusLess), ",");
      ContentTypesUnbroken(entries);
      SortedSetUnbroken(ContentTypes(entries));
      JoinUnbroken(SortedSet(ContentTypes(entries)), ",");
    case _ =>
  }

  lemma {:induction false} StrAllUnbroken(items: seq<Value>, str: Value -> string)
    requires StrOk(str) && forall i | 0 <= i < |items| :: Tidy(items[i])
    ensures Unbroken(StrAll(items, str))
  {
    if items != [] { StrAllUnbroken(items[1..], str); }
  }

  lemma {:induction false} CharsUnbroken(s: string)
    requires NoLineBreak(s)
    ensures Unbroken(Chars(s))
  {
    if s != "" { CharsUnbroken(s[1..]); }
  }

  lemma JoinedSetUnbroken(parts: seq<string>)
    requires Unbroken(parts)
    ensures NoLineBreak(Join(SortedSet(parts), ","))
  {
    SortedSetUnbroken(parts);
    JoinUnbroken(SortedSet(parts), ",");
  }

  lemma TagsUnbroken(tags: Option<Value>, str: Value -> string)
    requires StrOk(str) && (tags.Some? ==> Tidy(tags.value))
    ensures var text := TagText(tags, str); text.Some? ==> NoLineBreak(text.value)
  {
    match tags
    case Some(List(items)) =>
      StrAllUnbroken(items, str);
      JoinedSetUnbroken(StrAll(items, str));
    case Some(Dict(entries)) => JoinedSetUnbroken(Keys(entries));
    case Some(Str(s)) =>
      CharsUnbroken(s);
      JoinedSetUnbroken(Chars(s));
    case _ =>
  }

  lemma OperationUnbroken(m: nat, path: string, op: seq<Entry>, str: Value -> string)
    requires m < |METHODS| && NoLineBreak(path) && TidyEntries(op) && StrOk(str)
    ensures var row := OperationRow(m, path, op, str); row.Some? ==> Unbroken(row.value)
  {
    GetTidy(op, "responses");
    GetTidy(op, "tags");
    ResponsesUnbroken(Get(op, "responses"));
    TagsUnbroken(Get(op, "tags"), str);
    MethodUnbroken(m);
  }

  lemma MethodUnbroken(m: nat)
    requires m < |UPPER_METHODS|
    ensures NoLineBreak(UPPER_METHODS[m])
  {}

  ghost predicate RowsUnbroken(rows: Option<seq<Row>>) {
    rows.Some? ==> forall i | 0 <= i < |rows.value| :: Unbroken(rows.value[i])
  }

  lemma ConsUnbroken(row: Row, rest: Option<seq<Row>>)
    requires Unbroken(row) && RowsUnbroken(rest)
    ensures RowsUnbroken(Cons(row, rest))
  {}

  lemma {:induction false} PathUnbroken(m: nat, path: string, item: Value, str: Value -> string)
    requires m <= |METHODS| && NoLineBreak(path) && Tidy(item) && StrOk(str)
    ensures RowsUnbroken(PathRows(m, path, item, str))
    decreases |METHODS| - m
  {
    if m < |METHODS| {
      PathUnbroken(m + 1, path, item, str);
      GetDictTidy(item, METHODS[m]);
      var op := GetDict(item, METHODS[m]);
      if op.Some? {
        OperationUnbroken(m, path, op.value, str);
        var row := OperationRow(m, path, op.value, str);
        if row.Some? { ConsUnbroken(row.value, PathRows(m + 1, path, item, str)); }
      }
    }
  }

  lemma {:induction false} AllUnbroken(paths: seq<Entry>, str: Value -> string)
    requires StrOk(str) && forall i | 0 <= i < |paths| :: NoLineBreak(paths[i].key) && Tidy(paths[i].val)
    ensures RowsUnbroken(AllRows(paths, str))
  {
    if paths != [] {
      PathUnbroken(0, paths[0].key, paths[0].val, str);
      AllUnbroken(paths[1..], str);
    }
  }

  /** Whatever the text, no field of its rows holds a line break. */
  lemma {:induction false} FieldsHoldNoLineBreak(text: string, str: Value -> string)
    requires StrOk(str)
    ensures RowsUnbroken(Extract(Parse(text), str))
  {
    ParsedIsTidy(text);
    var paths := Paths(Parse(text));
    var sorted := Sort(paths, KeyLess);
    SortPermutes(paths, KeyLess);
    forall i | 0 <= i < |sorted| ensures NoLineBreak(sorted[i].key) && Tidy(sorted[i].val) {
      PermutationMember(sorted, paths, sorted[i]);
      var j :| 0 <= j < |paths| && paths[j] == sorted[i];
    }
    AllUnbroken(sorted, str);
  }

  ghost predicate NoTabs(rows: seq<Row>) {
    forall i, j | 0 <= i < |rows| && 0 <= j < |rows[i]| :: '\t' !in rows[i][j]
  }

  lemma CleanIsTabless(rows: seq<Row>)
    requires RowsUnbroken(Some(rows))
    ensures CleanRows(rows) <==> NoTabs(rows)
  {
    if NoTabs(rows) {
      forall i, j | 0 <= i < |rows| && 0 <= j < |rows[i]| ensures CleanField(rows[i][j]) {
        assert Unbroken(rows[i]);
      }
    }
    if CleanRows(rows) {
      forall i, j | 0 <= i < |rows| && 0 <= j < |rows[i]| ensures '\t' !in rows[i][j] {
        assert CleanRow(rows[i]) && CleanField(rows[i][j]);
      }
    }
  }

  /** The rows of any text match the baseline rendered from them exactly when no field holds
      a tab. */
  lemma {:induction false} OnlyTabsMatter(text: string, str: Value -> string)
    requires StrOk(str)
    ensures match Extract(Parse(text), str)
            case Some(rows) => Wide(rows) && (rows != [] ==> (Matches(Render(rows).value, rows) <==> NoTabs(rows)))
            case None => true
  {
    OwnBaselinePasses(text, str);
    FieldsHoldNoLineBreak(text, str);
    match Extract(Parse(text), str)
    case Some(rows) => CleanIsTabless(rows);
    case None =>
  }

  // ---------- a document with a tab ----------

  /** `paths`, one path, `get`, and something in it. */
  function OnePath(path: string): Trip.Doc {
    Nest("paths", Nest(path, Nest("get", Nest("x", Digit()))))
  }

  function Digit(): Trip.Doc {
    Trip.Scalar(Scalars.Spelled(Int(1), "1"))
  }

  function Nest(key: string, doc: Trip.Doc): Trip.Doc {
    Trip.Map([Trip.Field(key, doc, 0)])
  }

  function One(key: string, v: Value): Value {
    Dict([Entry(key, v)])
  }

  lemma NestDenotes(key: string, doc: Trip.Doc)
    ensures Trip.Denote(Nest(key, doc)) == One(key, Trip.Denote(doc))
  {
    var fields := Nest(key, doc).fields;
    assert Trip.PutAll([Entry(key, Trip.Denote(doc))], fields[1..]) == [Entry(key, Trip.Denote(doc))];
    assert Put([], key, Trip.Denote(doc)) == [Entry(key, Trip.Denote(doc))];
  }

  lemma NestPrints(key: string, doc: Trip.Doc, n: nat)
    requires Trip.KeyOk(key) && Trip.Shaped(doc)
    requires if Trip.IsInline(doc) then Trip.InlineOk(doc) else Trip.RowsOk(Trip.Layout(doc, n + 2))
    ensures var d := Nest(key, doc);
            Trip.Shaped(d) && !Trip.IsInline(d) && d != Trip.Map([]) && Trip.RowsOk(Trip.Layout(d, n))
  {
    var d := Nest(key, doc);
    assert d.fields[1..] == [] && Trip.LayoutFields([], n) == [];
    assert Trip.LayoutFields(d.fields, n) == Trip.LayoutField(d.fields[0], n) + Trip.LayoutFields(d.fields[1..], n);
    assert Trip.FieldsShaped(d.fields);
  }

  lemma FixedKeysOk()
    ensures Trip.KeyOk("paths") && Trip.KeyOk("get") && Trip.KeyOk("x")
  {
    assert "paths"[0] == 'p' && "get"[0] == 'g' && "x"[0] == 'x' && "- "[0] == '-';
  }

  lemma OnePathPrintable(path: string)
    requires Trip.KeyOk(path)
    ensures Trip.Printable(OnePath(path))
  {
    var one := Digit();
    FixedKeysOk();
    NestPrints("x", one, 6);
    NestPrints("get", Nest("x", one), 4);
    NestPrints(path, Nest("get", Nest("x", one)), 2);
    NestPrints("paths", Nest(path, Nest("get", Nest("x", one))), 0);
  }

  lemma OnePathValue(path: string)
    ensures Trip.Denote(OnePath(path)) == One("paths", One(path, One("get", One("x", Int(1)))))
  {
    var one := Digit();
    NestDenotes("x", one);
    NestDenotes("get", Nest("x", one));
    NestDenotes(path, Nest("get", Nest("x", one)));
    NestDenotes("paths", Nest(path, Nest("get", Nest("x", one))));
  }

  function OneRow(path: string): Row {
    ["GET", path, "-", "-", "-", "no"]
  }

  lemma OneGet(path: string, str: Value -> string)
    ensures OperationRow(0, path, [Entry("x", Int(1))], str) == Some(OneRow(path))
  {
    var op := [Entry("x", Int(1))];
    assert op[1..] == [];
    assert "responses"[0] == 'r' && "tags"[0] == 't' && "security"[0] == 's' && "x"[0] == 'x';
    assert Get(op, "responses") == None && Get(op, "tags") == None && Get(op, "security") == None;
  }

  lemma {:induction false} NoOtherMethods(m: nat, path: string, op: Value, str: Value -> string)
    requires 1 <= m <= |METHODS|
    ensures PathRows(m, path, One("get", op), str) == Some([])
    decreases |METHODS| - m
  {
    if m < |METHODS| {
      NotGet(m);
      var entries := [Entry("get", op)];
      assert entries[1..] == [];
      assert Get(entries, METHODS[m]) == None;
      NoOtherMethods(m + 1, path, op, str);
    }
  }

  lemma NotGet(m: nat)
    requires 1 <= m < |METHODS|
    ensures METHODS[m] != "get"
  {
    assert METHODS[1][0] == 'p' && METHODS[2][0] == 'p' && METHODS[3][0] == 'd' && METHODS[4][0] == 'p';
    assert METHODS[5][0] == 'o' && METHODS[6][0] == 'h' && METHODS[7][0] == 't';
    assert "get"[0] == 'g';
  }

  lemma OneGetRows(path: string, str: Value -> string)
    ensures PathRows(0, path, One("get", One("x", Int(1))), str) == Some([OneRow(path)])
  {
    var op := One("x", Int(1));
    OneGet(path, str);
    NoOtherMethods(1, path, op, str);
    assert METHODS[0] == "get";
    assert GetDict(One("get", op), METHODS[0]) == Some(op.entries);
    assert [OneRow(path)] + [] == [OneRow(path)];
  }

  lemma OnePathRows(path: string, str: Value -> string)
    ensures Extract(One("paths", One(path, One("get", One("x", Int(1))))), str) == Some([OneRow(path)])
  {
    var op := One("x", Int(1));
    var paths := [Entry(path, One("get", op))];
    assert paths[..0] == [] && paths[1..] == [];
    assert Sort(paths, KeyLess) == paths;
    OneGetRows(path, str);
    assert AllRows(paths[1..], str) == Some([]);
    assert [OneRow(path)] + [] == [OneRow(path)];
  }

  /** For any path that can be a key: the document with this one path passes against its own
      baseline exactly when the path holds no tab. */
  lemma {:induction false} OnePathPassesExactly(path: string, str: Value -> string)
    requires Trip.KeyOk(path)
    ensures var text, rows := Trip.Print(OnePath(path)), [OneRow(path)];
            && Extract(Parse(text), str) == Some(rows)
            && Wide(rows) && (Matches(Render(rows).value, rows) <==> '\t' !in path)
  {
    var text, rows := Trip.Print(OnePath(path)), [OneRow(path)];
    OnePathPrintable(path);
    Trip.RoundTrip(OnePath(path));
    OnePathValue(path);
    OnePathRows(path, str);
    OwnBaselinePasses(text, str);
    OneRowClean(path);
  }

  lemma OneRowClean(path: string)
    requires NoLineBreak(path)
    ensures CleanRows([OneRow(path)]) <==> '\t' !in path
  {
    var row := OneRow(path);
    assert forall i | 0 <= i < |row| && i != 1 :: CleanField(row[i]);
    if CleanRows([row]) { assert CleanRow([row][0]) && CleanField(row[1]); }
  }

  /** A document that fails against its own baseline. */
  lemma {:induction false} TabbedPathFails(str: Value -> string)
    ensures var text, rows := Trip.Print(OnePath("/a\tb")), [OneRow("/a\tb")];
            Extract(Parse(text), str) == Some(rows) && Wide(rows) && !Matches(Render(rows).value, rows)
  {
    var path := "/a\tb";
    assert path[2] == '\t' && !StartsWith(path, "- ") by { assert path[0] == '/' && "- "[0] == '-'; }
    OnePathPassesExactly(path, str);
  }
}
