/** What the rows of a document say, in terms of the document: which operations have a row, and
    what stands in each of its six fields. */
module EndpointFields {
  import opened Text
  import opened Order
  import opened Yaml
  import opened EndpointRows

  // ---------- the document ----------

  /** The operation of a path, from the document. */
  function Operation(doc: Value, path: string, m: nat): Option<seq<Entry>>
    requires m < |METHODS|
  {
    if !doc.Dict? then None
    else match Get(doc.entries, "paths")
      case Some(Dict(paths)) =>
        (match Get(paths, path)
         case Some(Dict(methods)) =>
           (match Get(methods, METHODS[m])
            case Some(Dict(op)) => Some(op)
            case _ => None)
         case _ => None)
      case _ => None
  }

  // ---------- the fields ----------

  ghost predicate InStringOrder(list: seq<string>) {
    forall i, j | 0 <= i < j < |list| :: Smaller(list[i], list[j])
  }

  /** By length, and within a length by code points. */
  ghost predicate InStatusOrder(list: seq<string>) {
    forall i, j | 0 <= i < j < |list| ::
      |list[i]| < |list[j]| || (|list[i]| == |list[j]| && Smaller(list[i], list[j]))
  }

  /** The text lists the strings with commas between, or is a dash when that gives nothing. */
  predicate Lists(text: string, list: seq<string>) {
    text == if Join(list, ",") == "" then "-" else Join(list, ",")
  }

  ghost predicate StatusField(text: string, responses: Option<Value>) {
    match responses
    case Some(Dict(entries)) =>
      exists list :: InStatusOrder(list) && multiset(list) == multiset(Keys(entries)) && Lists(text, list)
    case _ => text == "-"
  }

  /** The response has a dictionary `content` with the key. */
  predicate HasContentType(v: Value, c: string) {
    && v.Dict? && Get(v.entries, "content").Some? && Get(v.entries, "content").value.Dict?
    && c in Keys(Get(v.entries, "content").value.entries)
  }

  ghost predicate IsContentType(entries: seq<Entry>, c: string) {
    exists i | 0 <= i < |entries| :: HasContentType(entries[i].val, c)
  }

  ghost predicate ContentField(text: string, responses: Option<Value>) {
    match responses
    case Some(Dict(entries)) =>
      exists list ::
        InStringOrder(list) && (forall c :: c in list <==> IsContentType(entries, c)) && Lists(text, list)
    case _ => text == "-"
  }

  ghost predicate IsTag(v: Value, tag: string, str: Value -> string) {
    match v
    case List(items) => exists i | 0 <= i < |items| :: str(items[i]) == tag
    case Dict(entries) => tag in Keys(entries)
    case Str(s) => exists i | 0 <= i < |s| :: [s[i]] == tag
    case _ => false
  }

  ghost predicate TagField(text: string, tags: Option<Value>, str: Value -> string) {
    if tags.None? || Falsy(tags.value) then text == "-"
    else exists list :: InStringOrder(list) && (forall t :: t in list <==> IsTag(tags.value, t, str))
                        && text == Join(list, ",")
  }

  ghost predicate Secured(security: Option<Value>) {
    match security
    case Some(List(items)) => exists i | 0 <= i < |items| :: !Falsy(items[i])
    case Some(Dict(entries)) => exists i | 0 <= i < |entries| :: !Falsy(entries[i].val)
    case _ => false
  }

  /** The row of an operation. */
  ghost predicate Describes(row: Row, m: nat, path: string, op: seq<Entry>, str: Value -> string)
    requires m < |UPPER_METHODS|
  {
    && |row| == 6
    && row[0] == UPPER_METHODS[m] && row[1] == path
    && StatusField(row[2], Get(op, "responses"))
    && ContentField(row[3], Get(op, "responses"))
    && TagField(row[4], Get(op, "tags"), str)
    && row[5] == (if Secured(Get(op, "security")) then "yes" else "no")
  }

  /** Empty values are false, as in Python. */
  lemma FalsyExactly(v: Value)
    ensures Falsy(v) <==> v in {Null, Bool(false), Int(0), Str(""), List([]), Dict([])}
  {}

  lemma MethodsAreUpper(m: nat, i: nat)
    requires m < |METHODS| && i < |METHODS[m]|
    ensures |UPPER_METHODS| == |METHODS| && |UPPER_METHODS[m]| == |METHODS[m]|
    ensures 'a' <= METHODS[m][i] <= 'z' && UPPER_METHODS[m][i] as int == METHODS[m][i] as int - 32
  {}

  // ---------- sorted lists ----------

  lemma {:induction false} SortedSetIs(s: seq<string>)
    ensures Ascending(SortedSet(s), StringLess)
    ensures forall x :: x in SortedSet(s) <==> x in s
  {
    if s != [] {
      var rest := SortedSet(s[1..]);
      SortedSetIs(s[1..]);
      assert s == [s[0]] + s[1..];
      if s[0] !in rest {
        StringOrder();
        InsertAscends(s[0], rest, StringLess);
        InsertPermutes(s[0], rest, StringLess);
        InsertMembers(s[0], rest);
      }
    }
  }

  lemma InsertMembers(x: string, s: seq<string>)
    ensures forall y :: y in Insert(x, s, StringLess) <==> y == x || y in s
  {
    InsertPermutes(x, s, StringLess);
    forall y ensures y in Insert(x, s, StringLess) <==> y == x || y in s {
      PermutationMember(Insert(x, s, StringLess), s + [x], y);
    }
  }

  lemma AscendingIsOrder(list: seq<string>)
    requires Ascending(list, StringLess)
    ensures InStringOrder(list)
  {
    forall i, j | 0 <= i < j < |list| ensures Smaller(list[i], list[j]) {
      StringLessExactly(list[i], list[j]);
    }
  }

  lemma StatusesInOrder(entries: seq<Entry>)
    requires UniqueKeys(entries)
    ensures var list := Sort(Keys(entries), StatusLess);
            InStatusOrder(list) && multiset(list) == multiset(Keys(entries))
  {
    var keys := Keys(entries);
    StatusOrder();
    SortPermutes(keys, StatusLess);
    forall i, j | 0 <= i < j < |keys| ensures StatusLess(keys[i], keys[j]) || StatusLess(keys[j], keys[i]) {
      StringLessTrichotomy(keys[i], keys[j]);
      assert entries[i].key != entries[j].key;
    }
    SortAscends(keys, StatusLess);
    var list := Sort(keys, StatusLess);
    forall i, j | 0 <= i < j < |list|
      ensures |list[i]| < |list[j]| || (|list[i]| == |list[j]| && Smaller(list[i], list[j]))
    {
      assert StatusLess(list[i], list[j]);
      StringLessExactly(list[i], list[j]);
    }
  }

  lemma StatusOrder()
    ensures forall a, b, c :: StatusLess(a, b) && StatusLess(b, c) ==> StatusLess(a, c)
  {
    forall a: string, b: string, c: string | StatusLess(a, b) && StatusLess(b, c) ensures StatusLess(a, c) {
      StringLessTransitive(a, b, c);
    }
  }

  // ---------- each field ----------

  lemma StatusesRight(responses: Option<Value>)
    requires responses.Some? ==> Tidy(responses.value)
    ensures StatusField(OrDash(SummariseResponses(responses).0), responses)
  {
    match responses
    case Some(Dict(entries)) =>
      var list := Sort(Keys(entries), StatusLess);
      StatusesInOrder(entries);
      assert Lists(OrDash(Join(list, ",")), list);
    case _ =>
  }

  lemma {:induction false} ContentTypesAre(entries: seq<Entry>)
    ensures forall c :: c in ContentTypes(entries) <==> IsContentType(entries, c)
  {
    if entries != [] {
      ContentTypesAre(entries[1..]);
      forall c ensures c in ContentTypes(entries) <==> IsContentType(entries, c) {
        OneMoreResponse(entries, c);
      }
    }
  }

  lemma OneMoreResponse(entries: seq<Entry>, c: string)
    requires entries != []
    ensures IsContentType(entries, c) <==> HasContentType(entries[0].val, c) || IsContentType(entries[1..], c)
    ensures c in ContentTypes(entries) <==> HasContentType(entries[0].val, c) || c in ContentTypes(entries[1..])
  {
    if IsContentType(entries, c) {
      var i :| 0 <= i < |entries| && HasContentType(entries[i].val, c);
      if i > 0 { assert entries[1..][i - 1] == entries[i]; }
    }
    if IsContentType(entries[1..], c) {
      var i :| 0 <= i < |entries[1..]| && HasContentType(entries[1..][i].val, c);
      assert entries[i + 1] == entries[1..][i];
    }
    FirstResponse(entries, c);
  }

  lemma FirstResponse(entries: seq<Entry>, c: string)
    requires entries != []
    ensures c in ContentTypes(entries) <==> HasContentType(entries[0].val, c) || c in ContentTypes(entries[1..])
  {
    var first := match GetDict(entries[0].val, "content") case Some(content) => Keys(content) case None => [];
    assert ContentTypes(entries) == first + ContentTypes(entries[1..]);
    assert c in first <==> HasContentType(entries[0].val, c);
  }

  lemma ContentRight(responses: Option<Value>)
    ensures ContentField(OrDash(SummariseResponses(responses).1), responses)
  {
    match responses
    case Some(Dict(entries)) =>
      var list := SortedSet(ContentTypes(entries));
      ContentTypesAre(entries);
      SortedSetIs(ContentTypes(entries));
      AscendingIsOrder(list);
      assert Lists(OrDash(if list == [] then "-" else Join(list, ",")), list);
      assert forall c :: c in list <==> IsContentType(entries, c);
    case _ =>
  }

  lemma {:induction false} StrAllMembers(items: seq<Value>, str: Value -> string)
    ensures forall t :: t in StrAll(items, str) <==> IsTag(List(items), t, str)
  {
    if items != [] {
      StrAllMembers(items[1..], str);
      forall t ensures t in StrAll(items, str) <==> IsTag(List(items), t, str) {
        assert t in StrAll(items, str) <==> t == str(items[0]) || t in StrAll(items[1..], str);
        if IsTag(List(items), t, str) {
          var i :| 0 <= i < |items| && str(items[i]) == t;
          if i > 0 { assert str(items[1..][i - 1]) == t; }
        }
        if IsTag(List(items[1..]), t, str) {
          var i :| 0 <= i < |items[1..]| && str(items[1..][i]) == t;
          assert str(items[i + 1]) == t;
        }
      }
    }
  }

  lemma {:induction false} CharsMembers(s: string, str: Value -> string)
    ensures forall t :: t in Chars(s) <==> IsTag(Str(s), t, str)
  {
    if s != "" {
      CharsMembers(s[1..], str);
      forall t ensures t in Chars(s) <==> IsTag(Str(s), t, str) {
        assert t in Chars(s) <==> t == [s[0]] || t in Chars(s[1..]);
        if IsTag(Str(s), t, str) {
          var i :| 0 <= i < |s| && [s[i]] == t;
          if i > 0 { assert [s[1..][i - 1]] == t; }
        }
        if IsTag(Str(s[1..]), t, str) {
          var i :| 0 <= i < |s[1..]| && [s[1..][i]] == t;
          assert [s[i + 1]] == t;
        }
      }
    }
  }

  lemma TagsListed(v: Value, names: seq<string>, str: Value -> string)
    requires !Falsy(v) && forall t :: t in names <==> IsTag(v, t, str)
    ensures TagField(Join(SortedSet(names), ","), Some(v), str)
  {
    SortedSetIs(names);
    AscendingIsOrder(SortedSet(names));
  }

  lemma TagsRight(tags: Option<Value>, str: Value -> string)
    ensures TagText(tags, str).Some? ==> TagField(TagText(tags, str).value, tags, str)
  {
    if tags.Some? && !Falsy(tags.value) {
      match tags.value
      case List(items) =>
        StrAllMembers(items, str);
        TagsListed(tags.value, StrAll(items, str), str);
      case Dict(entries) => TagsListed(tags.value, Keys(entries), str);
      case Str(s) =>
        CharsMembers(s, str);
        TagsListed(tags.value, Chars(s), str);
      case _ =>
    }
  }

  lemma RowDescribes(m: nat, path: string, op: seq<Entry>, str: Value -> string)
    requires m < |METHODS| && TidyEntries(op)
    ensures var row := OperationRow(m, path, op, str); row.Some? ==> Describes(row.value, m, path, op, str)
  {
    GetTidy(op, "responses");
    StatusesRight(Get(op, "responses"));
    ContentRight(Get(op, "responses"));
    TagsRight(Get(op, "tags"), str);
  }

  /** Only tags that are a number or `true` cannot be listed. */
  lemma RowFailsExactly(m: nat, path: string, op: seq<Entry>, str: Value -> string)
    requires m < |METHODS|
    ensures OperationRow(m, path, op, str) == None <==> BadTags(op)
  {}

  predicate BadTags(op: seq<Entry>) {
    match Get(op, "tags")
    case Some(Bool(b)) => b
    case Some(Int(n)) => n != 0
    case _ => false
  }

  // ---------- all rows ----------

  ghost predicate IsRow(row: Row, m: nat, path: string, item: Value, str: Value -> string)
    requires m < |METHODS|
  {
    GetDict(item, METHODS[m]).Some? && OperationRow(m, path, GetDict(item, METHODS[m]).value, str) == Some(row)
  }

  ghost predicate Fails(m: nat, item: Value)
    requires m < |METHODS|
  {
    GetDict(item, METHODS[m]).Some? && BadTags(GetDict(item, METHODS[m]).value)
  }

  /** The row is that of one of the methods from number `m` on. */
  ghost predicate RowFrom(m: nat, row: Row, path: string, item: Value, str: Value -> string) {
    exists k | m <= k < |METHODS| :: IsRow(row, k, path, item, str)
  }

  ghost predicate FailureFrom(m: nat, item: Value) {
    exists k | m <= k < |METHODS| :: Fails(k, item)
  }

  lemma FromNext(m: nat, row: Row, path: string, item: Value, str: Value -> string)
    requires m < |METHODS|
    ensures RowFrom(m, row, path, item, str) <==> IsRow(row, m, path, item, str) || RowFrom(m + 1, row, path, item, str)
    ensures FailureFrom(m, item) <==> Fails(m, item) || FailureFrom(m + 1, item)
  {}

  lemma {:induction false} PathRowsAre(m: nat, path: string, item: Value, str: Value -> string, row: Row)
    requires m <= |METHODS|
    ensures var rows := PathRows(m, path, item, str);
            && (rows.Some? ==> (row in rows.value <==> RowFrom(m, row, path, item, str)))
            && (rows.None? <==> FailureFrom(m, item))
    decreases |METHODS| - m
  {
    if m < |METHODS| {
      PathRowsAre(m + 1, path, item, str, row);
      FromNext(m, row, path, item, str);
      OneMethod(m, path, item, str, row);
    }
  }

  lemma OneMethod(m: nat, path: string, item: Value, str: Value -> string, row: Row)
    requires m < |METHODS|
    ensures var rows, rest := PathRows(m, path, item, str), PathRows(m + 1, path, item, str);
            && (rows.None? <==> Fails(m, item) || rest.None?)
            && (rows.Some? ==> (row in rows.value <==> IsRow(row, m, path, item, str) || row in rest.value))
  {
    var op := GetDict(item, METHODS[m]);
    if op.Some? { RowFailsExactly(m, path, op.value, str); }
  }

  ghost predicate RowIn(paths: seq<Entry>, row: Row, str: Value -> string) {
    exists p | 0 <= p < |paths| :: RowFrom(0, row, paths[p].key, paths[p].val, str)
  }

  ghost predicate FailureIn(paths: seq<Entry>) {
    exists p | 0 <= p < |paths| :: FailureFrom(0, paths[p].val)
  }

  lemma RowInNext(paths: seq<Entry>, row: Row, str: Value -> string)
    requires paths != []
    ensures RowIn(paths, row, str) <==>
            RowFrom(0, row, paths[0].key, paths[0].val, str) || RowIn(paths[1..], row, str)
  {
    if RowIn(paths, row, str) {
      var p :| 0 <= p < |paths| && RowFrom(0, row, paths[p].key, paths[p].val, str);
      if p > 0 { assert paths[1..][p - 1] == paths[p]; }
    }
    if RowIn(paths[1..], row, str) {
      var p :| 0 <= p < |paths[1..]| && RowFrom(0, row, paths[1..][p].key, paths[1..][p].val, str);
      assert paths[p + 1] == paths[1..][p];
    }
  }

  lemma FailureInNext(paths: seq<Entry>)
    requires paths != []
    ensures FailureIn(paths) <==> FailureFrom(0, paths[0].val) || FailureIn(paths[1..])
  {
    if FailureIn(paths) {
      var p :| 0 <= p < |paths| && FailureFrom(0, paths[p].val);
      if p > 0 { assert paths[1..][p - 1] == paths[p]; }
    }
    if FailureIn(paths[1..]) {
      var p :| 0 <= p < |paths[1..]| && FailureFrom(0, paths[1..][p].val);
      assert paths[p + 1] == paths[1..][p];
    }
  }

  lemma {:induction false} AllRowsAre(paths: seq<Entry>, str: Value -> string, row: Row)
    ensures var rows := AllRows(paths, str);
            && (rows.Some? ==> (row in rows.value <==> RowIn(paths, row, str)))
            && (rows.None? <==> FailureIn(paths))
  {
    if paths != [] {
      AllRowsAre(paths[1..], str, row);
      PathRowsAre(0, paths[0].key, paths[0].val, str, row);
      RowInNext(paths, row, str);
      FailureInNext(paths);
    }
  }

  // ---------- and the document ----------

  lemma OperationAt(doc: Value, p: nat, m: nat)
    requires doc.Dict? && UniqueKeys(Paths(doc)) && p < |Paths(doc)| && m < |METHODS|
    ensures Operation(doc, Paths(doc)[p].key, m) == GetDict(Paths(doc)[p].val, METHODS[m])
  {
    GetFindsFirst(Paths(doc), Paths(doc)[p].key, p);
  }

  /** An operation stands under one of the paths. */
  lemma OperationHasPath(doc: Value, path: string, m: nat) returns (p: nat)
    requires m < |METHODS| && Operation(doc, path, m).Some?
    ensures doc.Dict? && p < |Paths(doc)| && Paths(doc)[p].key == path
  {
    GetFindsNone(Paths(doc), path);
    p :| 0 <= p < |Keys(Paths(doc))| && Keys(Paths(doc))[p] == path;
  }

  /** The rows come from the paths of the document, sorted or not. */
  lemma SortedPathsSame(paths: seq<Entry>, row: Row, str: Value -> string)
    ensures RowIn(Sort(paths, KeyLess), row, str) <==> RowIn(paths, row, str)
    ensures FailureIn(Sort(paths, KeyLess)) <==> FailureIn(paths)
  {
    var sorted := Sort(paths, KeyLess);
    SortPermutes(paths, KeyLess);
    forall e ensures e in sorted <==> e in paths { PermutationMember(sorted, paths, e); }
    SamePaths(sorted, paths, row, str);
    SamePaths(paths, sorted, row, str);
  }

  lemma SamePaths(a: seq<Entry>, b: seq<Entry>, row: Row, str: Value -> string)
    requires forall e :: e in a <==> e in b
    ensures RowIn(a, row, str) ==> RowIn(b, row, str)
    ensures FailureIn(a) ==> FailureIn(b)
  {
    if RowIn(a, row, str) {
      var p :| 0 <= p < |a| && RowFrom(0, row, a[p].key, a[p].val, str);
      assert a[p] in b;
      var q :| 0 <= q < |b| && b[q] == a[p];
    }
    if FailureIn(a) {
      var p :| 0 <= p < |a| && FailureFrom(0, a[p].val);
      assert a[p] in b;
      var q :| 0 <= q < |b| && b[q] == a[p];
    }
  }

  /** A row of the document is the row of one of its operations, and says what that says. */
  lemma RowsAreOperations(doc: Value, str: Value -> string, row: Row)
    requires Tidy(doc) && UniqueKeys(Paths(doc)) && Extract(doc, str).Some? && row in Extract(doc, str).value
    ensures exists path, m | 0 <= m < |METHODS| ::
              Operation(doc, path, m).Some? && Describes(row, m, path, Operation(doc, path, m).value, str)
  {
    var paths := Paths(doc);
    AllRowsAre(Sort(paths, KeyLess), str, row);
    SortedPathsSame(paths, row, str);
    var p :| 0 <= p < |paths| && RowFrom(0, row, paths[p].key, paths[p].val, str);
    var m :| 0 <= m < |METHODS| && IsRow(row, m, paths[p].key, paths[p].val, str);
    OperationAt(doc, p, m);
    OperationTidy(doc, paths[p].key, m);
    RowDescribes(m, paths[p].key, Operation(doc, paths[p].key, m).value, str);
  }

  lemma OperationTidy(doc: Value, path: string, m: nat)
    requires Tidy(doc) && m < |METHODS| && Operation(doc, path, m).Some?
    ensures TidyEntries(Operation(doc, path, m).value)
  {
    GetTidy(doc.entries, "paths");
    GetTidy(Paths(doc), path);
    GetTidy(Get(Paths(doc), path).value.entries, METHODS[m]);
  }

  lemma FailureCounts(paths: seq<Entry>, p: nat, m: nat)
    requires p < |paths| && m < |METHODS|
    ensures Fails(m, paths[p].val) ==> FailureIn(paths)
  {
    if Fails(m, paths[p].val) { assert FailureFrom(0, paths[p].val); }
  }

  /** Every operation of the document has its row. */
  lemma OperationsHaveRows(doc: Value, str: Value -> string, path: string, m: nat)
    requires Tidy(doc) && UniqueKeys(Paths(doc)) && Extract(doc, str).Some?
    requires m < |METHODS| && Operation(doc, path, m).Some?
    ensures exists row <- Extract(doc, str).value :: Describes(row, m, path, Operation(doc, path, m).value, str)
  {
    var paths, op := Paths(doc), Operation(doc, path, m).value;
    var p := OperationHasPath(doc, path, m);
    OperationAt(doc, p, m);
    RowFailsExactly(m, path, op, str);
    AllRowsAre(Sort(paths, KeyLess), str, []);
    SortedPathsSame(paths, [], str);
    FailureCounts(paths, p, m);
    var row := OperationRow(m, path, op, str).value;
    assert IsRow(row, m, path, paths[p].val, str);
    assert RowFrom(0, row, path, paths[p].val, str);
    AllRowsAre(Sort(paths, KeyLess), str, row);
    SortedPathsSame(paths, row, str);
    OperationTidy(doc, path, m);
    RowDescribes(m, path, op, str);
  }

  /** The extraction fails exactly for a document that is no mapping, and for an operation with
      tags that are a number or `true`. */
  lemma ExtractFailsExactly(doc: Value, str: Value -> string)
    requires UniqueKeys(Paths(doc))
    ensures Extract(doc, str) == None <==>
            || (!Falsy(doc) && !doc.Dict?)
            || exists path, m | 0 <= m < |METHODS| ::
                 Operation(doc, path, m).Some? && BadTags(Operation(doc, path, m).value)
  {
    var paths := Paths(doc);
    AllRowsAre(Sort(paths, KeyLess), str, []);
    SortedPathsSame(paths, [], str);
    if FailureIn(paths) && doc.Dict? {
      var p :| 0 <= p < |paths| && FailureFrom(0, paths[p].val);
      var m :| 0 <= m < |METHODS| && Fails(m, paths[p].val);
      OperationAt(doc, p, m);
    }
    if exists path, m | 0 <= m < |METHODS| :: Operation(doc, path, m).Some? && BadTags(Operation(doc, path, m).value) {
      var path, m :| 0 <= m < |METHODS| && Operation(doc, path, m).Some? && BadTags(Operation(doc, path, m).value);
      var p := OperationHasPath(doc, path, m);
      OperationAt(doc, p, m);
      assert Fails(m, paths[p].val);
      assert FailureFrom(0, paths[p].val);
    }
  }

  /** For keys without commas, the pieces of a listing are the strings that were listed. */
  lemma {:induction false} ListingSplits(text: string, list: seq<string>)
    requires Lists(text, list) && text != "-" && forall i | 0 <= i < |list| :: ',' !in list[i]
    ensures SplitOn(text, ',') == list
  {
    SplitOnJoin(list, ',');
  }
}
