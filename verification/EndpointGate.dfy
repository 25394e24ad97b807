/** The baseline gate: rendering rows to text, reading them back, and the diff of
    tools/diff-endpoint-baseline.py whose exit code 0 stands for equality. */
module EndpointGate {
  import opened Text
  import opened Order
  import opened Yaml
  import opened EndpointRows

  type Key = (string, string)

  // ---------- render and split ----------

  function RenderLines(rows: seq<Row>): seq<string> {
    Map((row: Row) => Join(row, "\t"), rows)
  }

  /** Without rows the source exits with an error instead. */
  function Render(rows: seq<Row>): Option<string> {
    if rows == [] then None else Some(Unlines(RenderLines(rows)))
  }

  predicate IsRecord(line: string) {
    line != "" && !StartsWith(line, "#")
  }

  function Records(lines: seq<string>): seq<Row> {
    if lines == [] then []
    else (if IsRecord(lines[0]) then [SplitOn(lines[0], '\t')] else []) + Records(lines[1..])
  }

  function SplitBaseline(text: string): seq<Row> {
    Records(SplitLines(text))
  }

  predicate CleanField(s: string) {
    '\t' !in s && NoLineBreak(s)
  }

  predicate CleanRow(row: Row) {
    forall i | 0 <= i < |row| :: CleanField(row[i])
  }

  predicate CleanRows(rows: seq<Row>) {
    forall i | 0 <= i < |rows| :: CleanRow(rows[i])
  }

  /** A row that is a record: it has a first field, and that is neither empty nor a comment. */
  predicate RecordRow(row: Row) {
    row != [] && row[0] != "" && row[0][0] != '#'
  }

  lemma {:induction false} JoinClean(row: Row)
    requires row != [] && CleanRow(row)
    ensures NoLineBreak(Join(row, "\t"))
    ensures row[0] != "" ==> Join(row, "\t") != "" && Join(row, "\t")[0] == row[0][0]
  {
    if |row| > 1 {
      assert CleanField(row[0]);
      forall i | 0 <= i < |row[1..]| ensures CleanField(row[1..][i]) { assert row[1..][i] == row[i + 1]; }
      JoinClean(row[1..]);
    } else {
      assert CleanField(row[0]);
    }
  }

  lemma {:induction false} RecordsOfRendered(rows: seq<Row>)
    requires CleanRows(rows) && forall i | 0 <= i < |rows| :: RecordRow(rows[i])
    ensures Records(RenderLines(rows)) == rows
    ensures forall i | 0 <= i < |rows| :: NoLineBreak(RenderLines(rows)[i])
  {
    if rows != [] {
      assert RenderLines(rows)[1..] == RenderLines(rows[1..]);
      assert CleanRow(rows[0]) && RecordRow(rows[0]);
      forall i | 0 <= i < |rows[0]| ensures '\t' !in rows[0][i] { assert CleanField(rows[0][i]); }
      JoinClean(rows[0]);
      SplitOnJoin(rows[0], '\t');
      forall i | 0 <= i < |rows[1..]| ensures CleanRow(rows[1..][i]) && RecordRow(rows[1..][i]) {
        assert rows[1..][i] == rows[i + 1];
      }
      RecordsOfRendered(rows[1..]);
    }
  }

  lemma {:induction false} RecordsClean(lines: seq<string>)
    requires forall i | 0 <= i < |lines| :: NoLineBreak(lines[i])
    ensures CleanRows(Records(lines))
  {
    if lines != [] {
      SplitOnPieces(lines[0], '\t');
      RecordsClean(lines[1..]);
    }
  }

  /** Rendering and splitting is lossless exactly for rows without tabs and line breaks. */
  lemma RenderRoundTrip(rows: seq<Row>)
    requires rows != [] && forall i | 0 <= i < |rows| :: RecordRow(rows[i])
    ensures SplitBaseline(Render(rows).value) == rows <==> CleanRows(rows)
  {
    var text := Render(rows).value;
    if CleanRows(rows) {
      RecordsOfRendered(rows);
      SplitLinesUnlines(RenderLines(rows));
    }
    SplitLinesPieces(text);
    RecordsClean(SplitLines(text));
  }

  /** A line of the baseline file: of a row, or empty or a comment. */
  datatype BaselineLine = OfRow(row: Row) | Remark(text: string)

  function RowsOf(lines: seq<BaselineLine>): seq<Row> {
    if lines == [] then []
    else (if lines[0].OfRow? then [lines[0].row] else []) + RowsOf(lines[1..])
  }

  function LineText(l: BaselineLine): string {
    match l
    case OfRow(row) => Join(row, "\t")
    case Remark(text) => text
  }

  /** A row can be written and read, a remark is empty or starts with `#`. */
  ghost predicate BaselineLineOk(l: BaselineLine) {
    match l
    case OfRow(row) => RecordRow(row) && CleanRow(row)
    case Remark(text) => NoLineBreak(text) && (text == "" || text[0] == '#')
  }

  lemma OneRecord(l: BaselineLine)
    requires BaselineLineOk(l)
    ensures NoLineBreak(LineText(l))
    ensures Records([LineText(l)]) == if l.OfRow? then [l.row] else []
  {
    assert [LineText(l)][1..] == [];
    if l.OfRow? {
      forall i | 0 <= i < |l.row| ensures '\t' !in l.row[i] { assert CleanField(l.row[i]); }
      JoinClean(l.row);
      SplitOnJoin(l.row, '\t');
    }
  }

  lemma {:induction false} RecordsOfLines(lines: seq<BaselineLine>)
    requires forall i | 0 <= i < |lines| :: BaselineLineOk(lines[i])
    ensures Records(Map(LineText, lines)) == RowsOf(lines)
    ensures forall i | 0 <= i < |lines| :: NoLineBreak(Map(LineText, lines)[i])
  {
    if lines != [] {
      OneRecord(lines[0]);
      RecordsOfLines(lines[1..]);
      var texts := Map(LineText, lines);
      assert texts[1..] == Map(LineText, lines[1..]);
      assert [LineText(lines[0])][0] == texts[0];
    }
  }

  /** Empty lines and comments anywhere in the baseline file are skipped. */
  lemma RemarksAreSkipped(lines: seq<BaselineLine>)
    requires forall i | 0 <= i < |lines| :: BaselineLineOk(lines[i])
    ensures SplitBaseline(Unlines(Map(LineText, lines))) == RowsOf(lines)
  {
    RecordsOfLines(lines);
    SplitLinesUnlines(Map(LineText, lines));
  }

  // ---------- index ----------

  function RowKey(row: Row): Key
    requires |row| >= 2
  {
    (row[0], row[1])
  }

  predicate Wide(rows: seq<Row>) {
    forall i | 0 <= i < |rows| :: |rows[i]| >= 2
  }

  /** Later rows win. */
  function IndexRows(rows: seq<Row>): (out: map<Key, Row>)
    requires Wide(rows)
    ensures forall k <- out :: |out[k]| >= 2 && RowKey(out[k]) == k
  {
    if rows == [] then map[]
    else IndexRows(rows[..|rows| - 1])[RowKey(rows[|rows| - 1]) := rows[|rows| - 1]]
  }

  method Index(rows: seq<Row>) returns (out: map<Key, Row>)
    requires Wide(rows)
    ensures out == IndexRows(rows)
  {
    out := map[];
    for i := 0 to |rows|
      invariant out == IndexRows(rows[..i])
    {
      assert rows[..i + 1][..i] == rows[..i];
      out := out[RowKey(rows[i]) := rows[i]];
    }
    assert rows[..|rows|] == rows;
  }

  lemma {:induction false} IndexLooksUp(rows: seq<Row>)
    requires Wide(rows) && forall i, j | 0 <= i < j < |rows| :: RowKey(rows[i]) != RowKey(rows[j])
    ensures forall i | 0 <= i < |rows| ::
              RowKey(rows[i]) in IndexRows(rows) && IndexRows(rows)[RowKey(rows[i])] == rows[i]
    ensures forall k <- IndexRows(rows) :: IndexRows(rows)[k] in rows
  {
    if rows != [] {
      IndexLooksUp(rows[..|rows| - 1]);
    }
  }

  /** Under a method and a path the index has the last row with that method and that path. */
  lemma {:induction false} IndexIsLast(rows: seq<Row>, i: nat)
    requires Wide(rows) && i < |rows|
    requires forall j | i < j < |rows| :: rows[j][0] != rows[i][0] || rows[j][1] != rows[i][1]
    ensures var k := (rows[i][0], rows[i][1]); k in IndexRows(rows) && IndexRows(rows)[k] == rows[i]
  {
    var n := |rows| - 1;
    if i < n { IndexIsLast(rows[..n], i); }
  }

  // ---------- diff ----------

  predicate KeyBefore(a: Key, b: Key) {
    StringLess(a.0, b.0) || (a.0 == b.0 && StringLess(a.1, b.1))
  }

  /** By method, then by path, both by code points. */
  lemma KeyBeforeExactly(a: Key, b: Key)
    ensures KeyBefore(a, b) <==> Smaller(a.0, b.0) || (a.0 == b.0 && Smaller(a.1, b.1))
  {
    StringLessExactly(a.0, b.0);
    StringLessExactly(a.1, b.1);
  }

  lemma {:induction false} KeyOrder()
    ensures StrictTotal(KeyBefore)
  {
    StringOrder();
  }

  /** `sorted(s)` for a set of keys. */
  ghost predicate SortedListing(list: seq<Key>, s: set<Key>) {
    Ascending(list, KeyBefore) && forall k :: k in list <==> k in s
  }

  method SortKeys(s: set<Key>) returns (list: seq<Key>)
    ensures SortedListing(list, s)
  {
    list := [];
    var todo := s;
    while todo != {}
      invariant todo <= s && SortedListing(list, s - todo)
      decreases todo
    {
      var k :| k in todo;
      KeyOrder();
      InsertAscends(k, list, KeyBefore);
      InsertPermutes(k, list, KeyBefore);
      ghost var next := Insert(k, list, KeyBefore);
      forall x ensures x in next <==> x in list || x == k {
        assert x in next <==> x in multiset(next);
        assert x in list <==> x in multiset(list);
      }
      list := Insert(k, list, KeyBefore);
      todo := todo - {k};
    }
  }

  datatype Change = Change(key: Key, base: Row, cur: Row)

  datatype Delta = Delta(additions: seq<Key>, removals: seq<Key>, changes: seq<Change>)

  ghost predicate AreChanges(changes: seq<Change>, keys: seq<Key>, base: map<Key, Row>, cur: map<Key, Row>) {
    && (forall c <- changes :: c.key in keys && c.key in base && c.key in cur)
    && (forall c <- changes :: c.base == base[c.key] && c.cur == cur[c.key] && c.base != c.cur)
    && (forall k | k in keys && k in base && k in cur && base[k] != cur[k] :: Change(k, base[k], cur[k]) in changes)
    && (forall i, j | 0 <= i < j < |changes| :: KeyBefore(changes[i].key, changes[j].key))
  }

  /** What the diff of two indexes consists of. */
  ghost predicate IsDelta(d: Delta, base: map<Key, Row>, cur: map<Key, Row>) {
    && SortedListing(d.additions, cur.Keys - base.Keys)
    && SortedListing(d.removals, base.Keys - cur.Keys)
    && exists common :: SortedListing(common, base.Keys * cur.Keys) && AreChanges(d.changes, common, base, cur)
  }

  /** The loop over the common keys. */
  method Changes(common: seq<Key>, base: map<Key, Row>, cur: map<Key, Row>) returns (changes: seq<Change>)
    requires Ascending(common, KeyBefore) && forall k <- common :: k in base && k in cur
    ensures AreChanges(changes, common, base, cur)
  {
    changes := [];
    for i := 0 to |common|
      invariant AreChanges(changes, common[..i], base, cur)
    {
      var key := common[i];
      if base[key] != cur[key] {
        forall a | 0 <= a < |changes| ensures KeyBefore(changes[a].key, key) {
          assert changes[a] in changes;
        }
        changes := changes + [Change(key, base[key], cur[key])];
      }
      assert common[..i + 1] == common[..i] + [key];
    }
    assert common[..|common|] == common;
  }

  method Diff(baseline: seq<Row>, current: seq<Row>)
    returns (d: Delta, baseIdx: map<Key, Row>, curIdx: map<Key, Row>)
    requires Wide(baseline) && Wide(current)
    ensures baseIdx == IndexRows(baseline) && curIdx == IndexRows(current)
    ensures IsDelta(d, baseIdx, curIdx)
  {
    baseIdx := Index(baseline);
    curIdx := Index(current);
    var additions := SortKeys(curIdx.Keys - baseIdx.Keys);
    var removals := SortKeys(baseIdx.Keys - curIdx.Keys);
    var common := SortKeys(baseIdx.Keys * curIdx.Keys);
    var changes := Changes(common, baseIdx, curIdx);
    d := Delta(additions, removals, changes);
  }

  /** The exit code of `report`. */
  function Report(d: Delta): int {
    if d.additions == [] && d.removals == [] && d.changes == [] then 0 else 1
  }

  function SetChanges(m: map<Key, Row>, changes: seq<Change>): map<Key, Row> {
    if changes == [] then m
    else
      var last := changes[|changes| - 1];
      SetChanges(m, changes[..|changes| - 1])[last.key := last.cur]
  }

  /** Remove the removals, then set the additions and the changes. */
  function Patch(d: Delta, base: map<Key, Row>, cur: map<Key, Row>): map<Key, Row> {
    SetChanges((base - (set k | k in d.removals)) + (map k | k in d.additions && k in cur :: cur[k]), d.changes)
  }

  /** Some change is about the key. */
  ghost predicate Touches(changes: seq<Change>, k: Key) {
    exists c <- changes :: c.key == k
  }

  lemma TouchesSnoc(changes: seq<Change>, k: Key)
    requires changes != []
    ensures var n := |changes| - 1; Touches(changes, k) <==> Touches(changes[..n], k) || changes[n].key == k
  {
    var n := |changes| - 1;
    assert changes == changes[..n] + [changes[n]];
    assert changes[n] in changes;
  }

  lemma {:induction false} SetChangesLooksUp(m: map<Key, Row>, changes: seq<Change>, cur: map<Key, Row>, k: Key)
    requires forall c <- changes :: c.key in cur && c.cur == cur[c.key]
    ensures var r := SetChanges(m, changes);
            if Touches(changes, k) then k in r && k in cur && r[k] == cur[k]
            else (k in r <==> k in m) && (k in r ==> r[k] == m[k])
  {
    if changes != [] {
      var n := |changes| - 1;
      assert changes[n] in changes;
      SetChangesLooksUp(m, changes[..n], cur, k);
      TouchesSnoc(changes, k);
    }
  }

  /** The delta, key by key. */
  lemma DeltaByKey(d: Delta, base: map<Key, Row>, cur: map<Key, Row>)
    requires IsDelta(d, base, cur)
    ensures forall k :: k in d.additions <==> k in cur && k !in base
    ensures forall k :: k in d.removals <==> k in base && k !in cur
    ensures forall c <- d.changes :: c.key in base && c.key in cur && c.cur == cur[c.key] && c.base != c.cur
    ensures forall k | k in base && k in cur && base[k] != cur[k] :: Touches(d.changes, k)
    ensures d.changes != [] ==> d.changes[0].key in base && base[d.changes[0].key] != d.changes[0].cur
  {
    var common :| SortedListing(common, base.Keys * cur.Keys) && AreChanges(d.changes, common, base, cur);
    forall k | k in base && k in cur && base[k] != cur[k] ensures Touches(d.changes, k) {
      assert k in common;
      assert Change(k, base[k], cur[k]) in d.changes;
    }
    assert d.changes != [] ==> d.changes[0] in d.changes;
  }

  /** A diff is a patch: applied to the baseline index it gives the current one. */
  lemma DeltaPatches(d: Delta, base: map<Key, Row>, cur: map<Key, Row>)
    requires IsDelta(d, base, cur)
    ensures Patch(d, base, cur) == cur
  {
    DeltaByKey(d, base, cur);
    var m := (base - (set k | k in d.removals)) + (map k | k in d.additions && k in cur :: cur[k]);
    assert forall k :: k in m <==> k in cur;
    assert forall k | k in m && !Touches(d.changes, k) :: m[k] == cur[k];
    PatchedEqual(m, d.changes, cur);
  }

  lemma PatchedEqual(m: map<Key, Row>, changes: seq<Change>, cur: map<Key, Row>)
    requires forall k :: k in m <==> k in cur
    requires forall c <- changes :: c.key in cur && c.cur == cur[c.key]
    requires forall k | k in m && !Touches(changes, k) :: m[k] == cur[k]
    ensures SetChanges(m, changes) == cur
  {
    var r := SetChanges(m, changes);
    forall k ensures (k in r <==> k in cur) && (k in r ==> r[k] == cur[k]) {
      SetChangesLooksUp(m, changes, cur, k);
    }
  }

  /** The report is 0 exactly when the two indexes are equal. */
  lemma ReportIsEquality(d: Delta, base: map<Key, Row>, cur: map<Key, Row>)
    requires IsDelta(d, base, cur)
    ensures Report(d) == 0 <==> base == cur
  {
    DeltaByKey(d, base, cur);
    assert d.additions != [] ==> d.additions[0] in d.additions;
    assert d.removals != [] ==> d.removals[0] in d.removals;
    if Report(d) == 0 {
      forall k ensures k in base <==> k in cur {
        assert k !in d.additions && k !in d.removals;
      }
    }
  }

  /** Rows in the extractor's order are determined by their index. */
  lemma OrderedRowsFromIndex(a: seq<Row>, b: seq<Row>)
    requires Wide(a) && Wide(b) && Ascending(a, RowBefore) && Ascending(b, RowBefore)
    ensures IndexRows(a) == IndexRows(b) <==> a == b
  {
    StringOrder();
    if IndexRows(a) == IndexRows(b) {
      IndexLooksUp(a);
      IndexLooksUp(b);
      forall x ensures x in a <==> x in b {
        if x in a { var i :| 0 <= i < |a| && a[i] == x; assert RowKey(a[i]) in IndexRows(b); }
        if x in b { var i :| 0 <= i < |b| && b[i] == x; assert RowKey(b[i]) in IndexRows(a); }
      }
      AscendingUnique(a, b, RowBefore);
    }
  }

  /** The baseline text and the rows have the same index. */
  ghost predicate Matches(baselineText: string, current: seq<Row>)
    requires Wide(current)
  {
    Wide(SplitBaseline(baselineText)) && IndexRows(SplitBaseline(baselineText)) == IndexRows(current)
  }

  /** The gate: the rows of the current document against a baseline text. A baseline line
      without a tab has no path, which the source leaves to an `IndexError`. */
  method Gate(baselineText: string, current: seq<Row>) returns (code: Option<int>)
    requires Wide(current)
    ensures code == Some(0) <==> Matches(baselineText, current)
    ensures code == None <==> !Wide(SplitBaseline(baselineText))
    ensures code.Some? ==> code.value == 0 || code.value == 1
  {
    var baseline := SplitBaseline(baselineText);
    if !Wide(baseline) { return None; }
    var d, baseIdx, curIdx := Diff(baseline, current);
    ReportIsEquality(d, baseIdx, curIdx);
    code := Some(Report(d));
  }

  /** Rows as the extractor returns them. */
  ghost predicate ExtractedRows(rows: seq<Row>) {
    && Ascending(rows, RowBefore)
    && forall i | 0 <= i < |rows| :: |rows[i]| == 6 && rows[i][0] in UPPER_METHODS
  }

  lemma ExtractedAreRecords(rows: seq<Row>)
    requires ExtractedRows(rows)
    ensures forall i | 0 <= i < |rows| :: RecordRow(rows[i])
  {}

  lemma {:induction false} GateIsExactForRows(a: seq<Row>, b: seq<Row>)
    requires ExtractedRows(a) && ExtractedRows(b) && a != [] && CleanRows(a)
    ensures Wide(b) && (Matches(Render(a).value, b) <==> a == b)
  {
    ExtractedAreRecords(a);
    RenderRoundTrip(a);
    OrderedRowsFromIndex(a, b);
  }

  lemma {:induction false} IndexHolds(rows: seq<Row>, k: Key)
    requires Wide(rows) && k in IndexRows(rows)
    ensures IndexRows(rows)[k] in rows
  {
    var n := |rows| - 1;
    if k != RowKey(rows[n]) { IndexHolds(rows[..n], k); }
  }

  /** A row that cannot be written to the baseline file is in no index read from one. */
  lemma OnlyCleanRowsMatch(text: string, rows: seq<Row>)
    requires ExtractedRows(rows) && Matches(text, rows)
    ensures CleanRows(rows)
  {
    StringOrder();
    IndexLooksUp(rows);
    SplitLinesPieces(text);
    RecordsClean(SplitLines(text));
    forall i | 0 <= i < |rows| ensures CleanRow(rows[i]) {
      IndexHolds(SplitBaseline(text), RowKey(rows[i]));
    }
  }

  /** The gate is exact: for the rows of any two texts, with fields that can be written to
      the baseline file, the gate reports 0 exactly when the two lists of rows are equal. */
  lemma {:induction false} GateIsExact(textA: string, textB: string, str: Value -> string)
    ensures match (Extract(Parse(textA), str), Extract(Parse(textB), str))
            case (Some(a), Some(b)) =>
              Wide(b) && (a != [] && CleanRows(a) ==> (Matches(Render(a).value, b) <==> a == b))
            case _ => true
  {
    match (Extract(Parse(textA), str), Extract(Parse(textB), str))
    case (Some(a), Some(b)) =>
      ParsedRowsOrdered(textA, str);
      ParsedRowsOrdered(textB, str);
      if a != [] && CleanRows(a) { GateIsExactForRows(a, b); }
    case _ =>
  }

  /** A document passes against its own baseline exactly when its fields hold no tab and no
      line break: beyond such rows the gate is not exact. */
  lemma {:induction false} OwnBaselinePasses(text: string, str: Value -> string)
    ensures match Extract(Parse(text), str)
            case Some(rows) => Wide(rows) && (rows != [] ==> (Matches(Render(rows).value, rows) <==> CleanRows(rows)))
            case None => true
  {
    match Extract(Parse(text), str)
    case Some(rows) =>
      ParsedRowsOrdered(text, str);
      if rows != [] {
        if Matches(Render(rows).value, rows) { OnlyCleanRowsMatch(Render(rows).value, rows); }
        if CleanRows(rows) { GateIsExactForRows(rows, rows); }
      }
    case None =>
  }
}
