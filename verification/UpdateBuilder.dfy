/** The UPDATE statements of AdminController.cc: clauses and parameters collected from the
    fields a request supplies, numbered placeholders, and a dispatch on the number of
    parameters. The statement is a text; what it means is said by a parser and an evaluator
    of its own. */
module UpdateBuilder {
  import opened Text

  type Values = seq<Option<string>>

  // ---------- building ----------

  function Clause(column: string, idx: nat): string {
    column + " = $" + NatToString(idx)
  }

  function Clauses(columns: seq<string>, values: Values, idx: nat): seq<string>
    requires |columns| == |values|
  {
    if columns == [] then []
    else match values[0]
      case None => Clauses(columns[1..], values[1..], idx)
      case Some(_) => [Clause(columns[0], idx)] + Clauses(columns[1..], values[1..], idx + 1)
  }

  /** The supplied values. */
  function Supplied(values: Values): (r: seq<string>)
    ensures |r| <= |values|
  {
    if values == [] then []
    else (if values[0].Some? then [values[0].value] else []) + Supplied(values[1..])
  }

  function QueryText(table: string, clauses: seq<string>, idColumn: string, idx: nat): string {
    "UPDATE " + table + " SET " + Join(clauses, ", ") + " WHERE " + Clause(idColumn, idx)
  }

  datatype Request = BadRequest | Statement(query: string, params: seq<string>)

  function Build(table: string, columns: seq<string>, values: Values, idColumn: string, id: string): Request
    requires |columns| == |values|
  {
    var clauses := Clauses(columns, values, 1);
    if clauses == [] then BadRequest
    else Statement(QueryText(table, clauses, idColumn, 1 + |clauses|), Supplied(values) + [id])
  }

  /** What the collecting loop has gathered from the first `i` fields. */
  ghost predicate Collected(columns: seq<string>, values: Values, i: nat, setClauses: seq<string>, params: seq<string>)
    requires i <= |columns| == |values|
  {
    && |setClauses| == |params|
    && setClauses + Clauses(columns[i..], values[i..], 1 + |setClauses|) == Clauses(columns, values, 1)
    && params + Supplied(values[i..]) == Supplied(values)
  }

  lemma CollectNone(columns: seq<string>, values: Values)
    requires |columns| == |values|
    ensures Collected(columns, values, 0, [], [])
  {
    assert columns[0..] == columns && values[0..] == values;
  }

  lemma CollectStep(columns: seq<string>, values: Values, i: nat, setClauses: seq<string>, params: seq<string>)
    requires i < |columns| == |values| && Collected(columns, values, i, setClauses, params)
    ensures match values[i]
            case None => Collected(columns, values, i + 1, setClauses, params)
            case Some(v) =>
              Collected(columns, values, i + 1, setClauses + [Clause(columns[i], 1 + |setClauses|)], params + [v])
  {
    var cs, vs := columns[i..], values[i..];
    assert cs[1..] == columns[i + 1..] && vs[1..] == values[i + 1..];
    if values[i].Some? {
      AppendOne(setClauses, Clause(columns[i], 1 + |setClauses|), Clauses(cs[1..], vs[1..], 2 + |setClauses|));
      AppendOne(params, values[i].value, Supplied(vs[1..]));
    } else {
      assert Supplied(vs) == Supplied(vs[1..]);
    }
  }

  lemma AppendOne(a: seq<string>, x: string, b: seq<string>)
    ensures a + ([x] + b) == (a + [x]) + b
  {}

  method BuildUpdate(table: string, columns: seq<string>, values: Values, idColumn: string, id: string)
    returns (r: Request)
    requires |columns| == |values|
    ensures r == Build(table, columns, values, idColumn, id)
  {
    var setClauses: seq<string>, params: seq<string>, paramIdx: nat := [], [], 1;
    CollectNone(columns, values);
    for i := 0 to |columns|
      invariant Collected(columns, values, i, setClauses, params) && paramIdx == 1 + |setClauses|
    {
      CollectStep(columns, values, i, setClauses, params);
      if values[i].Some? {
        setClauses := setClauses + [columns[i] + " = $" + NatToString(paramIdx)];
        paramIdx := paramIdx + 1;
        params := params + [values[i].value];
      }
    }
    assert setClauses == Clauses(columns, values, 1) && params == Supplied(values);
    if setClauses == [] { return BadRequest; }
    var sets := JoinClauses(setClauses);
    var query := "UPDATE " + table + " SET " + sets;
    query := query + " WHERE " + idColumn + " = $" + NatToString(paramIdx);
    WherePart("UPDATE " + table + " SET " + sets + " WHERE ", idColumn, paramIdx);
    params := params + [id];
    r := Statement(query, params);
  }

  lemma WherePart(query: string, idColumn: string, idx: nat)
    ensures query + Clause(idColumn, idx) == query + idColumn + " = $" + NatToString(idx)
  {}

  method JoinClauses(setClauses: seq<string>) returns (sets: string)
    requires setClauses != []
    ensures sets == Join(setClauses, ", ")
  {
    sets := "";
    for i := 0 to |setClauses|
      invariant JoinedFrom(setClauses, i, sets) == Join(setClauses, ", ")
    {
      JoinOneMore(setClauses, i, sets);
      if i > 0 { sets := sets + ", "; }
      sets := sets + setClauses[i];
    }
  }

  /** What is written, and the clauses that are left behind it. */
  function JoinedFrom(clauses: seq<string>, i: nat, sets: string): string
    requires i <= |clauses|
  {
    if i == |clauses| then sets
    else if i == 0 then sets + Join(clauses, ", ")
    else sets + ", " + Join(clauses[i..], ", ")
  }

  lemma JoinOneMore(clauses: seq<string>, i: nat, sets: string)
    requires i < |clauses|
    ensures JoinedFrom(clauses, i, sets) ==
            JoinedFrom(clauses, i + 1, (if i > 0 then sets + ", " else sets) + clauses[i])
  {
    var lead, rest := if i > 0 then sets + ", " else sets, clauses[i..];
    assert clauses[0..] == clauses;
    assert rest[0] == clauses[i] && rest[1..] == clauses[i + 1..];
    if |rest| > 1 {
      Regroup(lead, clauses[i], ", ", Join(rest[1..], ", "));
    }
  }

  lemma Regroup(a: string, b: string, c: string, d: string)
    ensures a + (b + c + d) == a + b + c + d
  {}

  // ---------- meaning ----------

  datatype Assignment = Assignment(column: string, param: nat)

  datatype Update = Update(table: string, sets: seq<Assignment>, key: Assignment)

  type Record = map<string, string>

  /** What stands before and behind the first occurrence of a marker. */
  function SplitAt(s: string, marker: string): Option<(string, string)> {
    var i := Find(s, marker, 0);
    if i == -1 then None else Some((s[..i], s[i + |marker|..]))
  }

  /** `column = $n` */
  function ParseAssignment(s: string): Option<Assignment> {
    match SplitAt(s, " = $")
    case Some((column, digits)) =>
      if digits != "" && AllDigits(digits) then Some(Assignment(column, StringToNat(digits))) else None
    case None => None
  }

  function ParseAssignments(pieces: seq<string>): Option<seq<Assignment>> {
    if pieces == [] then Some([])
    else match (ParseAssignment(Strip(pieces[0])), ParseAssignments(pieces[1..]))
      case (Some(a), Some(rest)) => Some([a] + rest)
      case _ => None
  }

  /** `table SET column = $n, ... WHERE column = $n` */
  function ParseBody(body: string): Option<Update> {
    match SplitAt(body, " SET ")
    case None => None
    case Some((table, rest)) =>
      match SplitAt(rest, " WHERE ")
      case None => None
      case Some((sets, key)) =>
        match (ParseAssignments(SplitOn(sets, ',')), ParseAssignment(key))
        case (Some(s), Some(k)) => Some(Update(table, s, k))
        case _ => None
  }

  function ParseUpdate(query: string): Option<Update> {
    var verb := "UPDATE ";
    if StartsWith(query, verb) then ParseBody(query[|verb|..]) else None
  }

  predicate Bound(a: Assignment, params: seq<string>) {
    1 <= a.param <= |params|
  }

  predicate AllBound(sets: seq<Assignment>, params: seq<string>) {
    forall i | 0 <= i < |sets| :: Bound(sets[i], params)
  }

  function Assign(row: Record, sets: seq<Assignment>, params: seq<string>): Record
    requires AllBound(sets, params)
    decreases sets
  {
    if sets == [] then row
    else
      assert Bound(sets[0], params);
      Assign(row[sets[0].column := params[sets[0].param - 1]], sets[1..], params)
  }

  /** The table after the statement; nothing when a placeholder has no parameter. */
  function Eval(u: Update, params: seq<string>, rows: seq<Record>): Option<seq<Record>> {
    if !Bound(u.key, params) || !AllBound(u.sets, params) then None
    else
      var key := params[u.key.param - 1];
      Some(Map((row: Record) =>
        if u.key.column in row && row[u.key.column] == key then Assign(row, u.sets, params) else row, rows))
  }

  // ---------- the plain record update ----------

  /** The value supplied for a column. */
  function FieldFor(columns: seq<string>, values: Values, column: string): Option<string>
    requires |columns| == |values|
  {
    if columns == [] then None
    else if columns[0] == column && values[0].Some? then values[0]
    else FieldFor(columns[1..], values[1..], column)
  }

  /** `after` is `before` with exactly the supplied fields set. */
  ghost predicate FieldsSet(before: Record, after: Record, columns: seq<string>, values: Values)
    requires |columns| == |values|
  {
    forall c ::
      match FieldFor(columns, values, c)
      case Some(v) => c in after && after[c] == v
      case None => (c in after <==> c in before) && (c in before ==> after[c] == before[c])
  }

  ghost predicate RowsUpdated(before: seq<Record>, after: seq<Record>, columns: seq<string>, values: Values,
                              idColumn: string, id: string)
    requires |columns| == |values|
  {
    && |after| == |before|
    && forall i | 0 <= i < |before| ::
         if idColumn in before[i] && before[i][idColumn] == id then FieldsSet(before[i], after[i], columns, values)
         else after[i] == before[i]
  }

  predicate IsLower(s: string) {
    s != "" && forall i | 0 <= i < |s| :: 'a' <= s[i] <= 'z' || '0' <= s[i] <= '9' || s[i] == '_'
  }

  ghost predicate ColumnsOk(columns: seq<string>) {
    && (forall i | 0 <= i < |columns| :: IsLower(columns[i]))
    && forall i, j | 0 <= i < j < |columns| :: columns[i] != columns[j]
  }

  // ---------- the text parses to what was built ----------

  function Assignments(columns: seq<string>, values: Values, idx: nat): seq<Assignment>
    requires |columns| == |values|
  {
    if columns == [] then []
    else match values[0]
      case None => Assignments(columns[1..], values[1..], idx)
      case Some(_) => [Assignment(columns[0], idx)] + Assignments(columns[1..], values[1..], idx + 1)
  }

  /** A clause can be told from what stands around it. */
  ghost predicate ClauseText(s: string) {
    s != "" && Trimmed(s) && ',' !in s && 'W' !in s
  }

  ghost predicate ClauseOk(s: string, a: Assignment) {
    ClauseText(s) && ParseAssignment(s) == Some(a)
  }

  /** A marker is first found behind a text that lacks the marker's second character. */
  lemma SplitAtFirst(word: string, marker: string, tail: string)
    requires |marker| >= 2 && marker[0] != marker[1] && marker[1] !in word
    ensures SplitAt(word + (marker + tail), marker) == Some((word, tail))
  {
    var s, n := word + (marker + tail), |word|;
    assert s[n..n + |marker|] == marker;
    forall k: nat | k < n ensures !OccursAt(s, marker, k) {
      assert s[k + 1] == if k + 1 < n then word[k + 1] else marker[0];
      assert k + |marker| <= |s| ==> s[k..k + |marker|][1] == s[k + 1];
    }
    FindUnique(s, marker, 0, n);
    assert s[..n] == word && s[n + |marker|..] == tail;
  }

  lemma LowerHasNo(s: string, c: char)
    requires IsLower(s) && (c == ',' || c == 'W' || c == '=' || c == 'S')
    ensures c !in s
  {}

  lemma ClauseParses(column: string, idx: nat)
    requires IsLower(column)
    ensures ParseAssignment(Clause(column, idx)) == Some(Assignment(column, idx))
  {
    var digits := NatToString(idx);
    LowerHasNo(column, '=');
    SplitAtFirst(column, " = $", digits);
    assert Clause(column, idx) == column + (" = $" + digits);
    NatRoundTrip(idx);
  }

  lemma ClauseIsText(column: string, idx: nat)
    requires IsLower(column)
    ensures ClauseText(Clause(column, idx))
  {
    LowerHasNo(column, ',');
    LowerHasNo(column, 'W');
    var digits := NatToString(idx);
    assert forall i | 0 <= i < |digits| :: digits[i] != ',' && digits[i] != 'W';
  }

  lemma {:induction false} ClausesParse(columns: seq<string>, values: Values, idx: nat)
    requires |columns| == |values| && forall i | 0 <= i < |columns| :: IsLower(columns[i])
    ensures var clauses := Clauses(columns, values, idx);
            && |clauses| == |Assignments(columns, values, idx)| == |Supplied(values)|
            && (forall i | 0 <= i < |clauses| ::
                  ClauseOk(clauses[i], Assignments(columns, values, idx)[i]))
  {
    if columns != [] {
      ClauseParses(columns[0], idx);
      ClauseIsText(columns[0], idx);
      ClausesParse(columns[1..], values[1..], if values[0].Some? then idx + 1 else idx);
    }
  }

  lemma {:induction false} PiecesParse(pieces: seq<string>, sets: seq<Assignment>)
    requires |pieces| == |sets| && forall i | 0 <= i < |pieces| :: ParseAssignment(Strip(pieces[i])) == Some(sets[i])
    ensures ParseAssignments(pieces) == Some(sets)
  {
    if pieces != [] {
      PiecesParse(pieces[1..], sets[1..]);
      assert sets == [sets[0]] + sets[1..];
    }
  }

  lemma SetTextParses(clauses: seq<string>, sets: seq<Assignment>)
    requires clauses != [] && |clauses| == |sets| && forall i | 0 <= i < |clauses| :: ClauseOk(clauses[i], sets[i])
    ensures ParseAssignments(SplitOn(Join(clauses, ", "), ',')) == Some(sets)
  {
    var pieces := SplitOn(Join(clauses, ", "), ',');
    SplitOnCommas(clauses, "");
    assert "" + Join(clauses, ", ") == Join(clauses, ", ");
    forall i | 0 <= i < |pieces| ensures ParseAssignment(Strip(pieces[i])) == Some(sets[i]) {
      assert ClauseOk(clauses[i], sets[i]);
      LeadStripped(clauses[i], if i == 0 then "" else " ");
    }
    PiecesParse(pieces, sets);
  }

  lemma LeadStripped(clause: string, lead: string)
    requires ClauseText(clause) && (lead == "" || lead == " ")
    ensures Strip(lead + clause) == clause
  {
    StripTrimmed(clause);
    StripLeadingBlank(clause);
    assert "" + clause == clause;
  }

  lemma {:induction false} JoinHasNo(c: char, clauses: seq<string>)
    requires c != ',' && c != ' ' && forall i | 0 <= i < |clauses| :: c !in clauses[i]
    ensures c !in Join(clauses, ", ")
  {
    if |clauses| > 1 {
      JoinHasNo(c, clauses[1..]);
      assert Join(clauses, ", ") == clauses[0] + ", " + Join(clauses[1..], ", ");
    }
  }

  lemma {:induction false} SetsParse(clauses: seq<string>, sets: seq<Assignment>)
    requires clauses != [] && |clauses| == |sets| && forall i | 0 <= i < |clauses| :: ClauseOk(clauses[i], sets[i])
    ensures ParseAssignments(SplitOn(Join(clauses, ", "), ',')) == Some(sets) && 'W' !in Join(clauses, ", ")
  {
    SetTextParses(clauses, sets);
    forall i | 0 <= i < |clauses| ensures 'W' !in clauses[i] { assert ClauseOk(clauses[i], sets[i]); }
    JoinHasNo('W', clauses);
  }

  lemma QueryTextParses(table: string, clauses: seq<string>, sets: seq<Assignment>, idColumn: string, idx: nat)
    requires IsLower(table) && IsLower(idColumn)
    requires clauses != [] && |clauses| == |sets| && forall i | 0 <= i < |clauses| :: ClauseOk(clauses[i], sets[i])
    ensures ParseUpdate(QueryText(table, clauses, idColumn, idx))
            == Some(Update(table, sets, Assignment(idColumn, idx)))
  {
    SetsParse(clauses, sets);
    ClauseParses(idColumn, idx);
    TextParses(table, Join(clauses, ", "), Clause(idColumn, idx));
  }

  lemma {:induction false} QueryParses(table: string, columns: seq<string>, values: Values, idColumn: string)
    requires |columns| == |values| && IsLower(table) && IsLower(idColumn)
    requires (forall i | 0 <= i < |columns| :: IsLower(columns[i])) && Clauses(columns, values, 1) != []
    ensures var clauses := Clauses(columns, values, 1);
            ParseUpdate(QueryText(table, clauses, idColumn, 1 + |clauses|))
            == Some(Update(table, Assignments(columns, values, 1), Assignment(idColumn, 1 + |clauses|)))
  {
    var clauses := Clauses(columns, values, 1);
    ClausesParse(columns, values, 1);
    QueryTextParses(table, clauses, Assignments(columns, values, 1), idColumn, 1 + |clauses|);
  }

  lemma TextParses(table: string, sets: string, key: string)
    requires IsLower(table) && 'W' !in sets
    ensures ParseUpdate("UPDATE " + table + " SET " + sets + " WHERE " + key) ==
            match (ParseAssignments(SplitOn(sets, ',')), ParseAssignment(key))
            case (Some(s), Some(k)) => Some(Update(table, s, k))
            case _ => None
  {
    var body := table + (" SET " + (sets + (" WHERE " + key)));
    TextGroups("UPDATE ", table, " SET ", sets, " WHERE ", key);
    BehindVerb("UPDATE ", body);
    BodyParses(table, sets, key);
  }

  lemma TextGroups(a: string, b: string, c: string, d: string, e: string, f: string)
    ensures a + b + c + d + e + f == a + (b + (c + (d + (e + f))))
  {}

  lemma BodyParses(table: string, sets: string, key: string)
    requires IsLower(table) && 'W' !in sets
    ensures ParseBody(table + (" SET " + (sets + (" WHERE " + key)))) ==
            match (ParseAssignments(SplitOn(sets, ',')), ParseAssignment(key))
            case (Some(s), Some(k)) => Some(Update(table, s, k))
            case _ => None
  {
    LowerHasNo(table, 'S');
    SplitAtFirst(table, " SET ", sets + (" WHERE " + key));
    SplitAtFirst(sets, " WHERE ", key);
  }

  lemma BehindVerb(verb: string, body: string)
    ensures StartsWith(verb + body, verb) && (verb + body)[|verb|..] == body
  {}

  // ---------- and means the plain record update ----------

  lemma {:induction false} AssignmentsBound(columns: seq<string>, values: Values, idx: nat, params: seq<string>)
    requires |columns| == |values| && 1 <= idx && idx - 1 + |Supplied(values)| <= |params|
    ensures AllBound(Assignments(columns, values, idx), params)
  {
    if columns != [] { AssignmentsBound(columns[1..], values[1..], if values[0].Some? then idx + 1 else idx, params); }
  }

  /** The parameters from number `idx` on are the supplied values. */
  ghost predicate ParamsFrom(params: seq<string>, idx: nat, values: Values) {
    && 1 <= idx && idx - 1 + |Supplied(values)| <= |params|
    && params[idx - 1..idx - 1 + |Supplied(values)|] == Supplied(values)
  }

  lemma ParamsStep(params: seq<string>, idx: nat, values: Values)
    requires values != [] && ParamsFrom(params, idx, values)
    ensures if values[0].Some? then params[idx - 1] == values[0].value && ParamsFrom(params, idx + 1, values[1..])
            else ParamsFrom(params, idx, values[1..])
  {
    var all, rest := Supplied(values), Supplied(values[1..]);
    if values[0].Some? {
      assert all[0] == values[0].value && all[1..] == rest;
      assert params[idx - 1] == params[idx - 1..idx - 1 + |all|][0];
      assert params[idx..idx + |rest|] == params[idx - 1..idx - 1 + |all|][1..];
    } else {
      assert all == rest;
    }
  }

  lemma {:induction false} AssignSets(row: Record, columns: seq<string>, values: Values, idx: nat, params: seq<string>)
    requires |columns| == |values| && ColumnsOk(columns) && ParamsFrom(params, idx, values)
    requires AllBound(Assignments(columns, values, idx), params)
    ensures FieldsSet(row, Assign(row, Assignments(columns, values, idx), params), columns, values)
    decreases columns
  {
    if columns != [] {
      var cs, vs := columns[1..], values[1..];
      NotAgain(columns, values);
      ParamsStep(params, idx, values);
      if values[0].Some? {
        AssignmentsBound(cs, vs, idx + 1, params);
        assert Assignments(columns, values, idx)[1..] == Assignments(cs, vs, idx + 1);
        AssignSets(row[columns[0] := params[idx - 1]], cs, vs, idx + 1, params);
      } else {
        AssignSets(row, cs, vs, idx, params);
      }
    }
  }

  lemma NotAgain(columns: seq<string>, values: Values)
    requires columns != [] && |columns| == |values| && ColumnsOk(columns)
    ensures ColumnsOk(columns[1..]) && FieldFor(columns[1..], values[1..], columns[0]) == None
  {
    FieldForAbsent(columns[1..], values[1..], columns[0]);
  }

  lemma {:induction false} FieldForAbsent(columns: seq<string>, values: Values, column: string)
    requires |columns| == |values| && forall i | 0 <= i < |columns| :: columns[i] != column
    ensures FieldFor(columns, values, column) == None
  {
    if columns != [] { FieldForAbsent(columns[1..], values[1..], column); }
  }

  /** Running the generated statement with the collected parameters sets exactly the supplied
      fields, on the rows with the id and on no other; without fields it is refused. */
  lemma {:induction false} UpdateIsPlain(table: string, columns: seq<string>, values: Values,
                                         idColumn: string, id: string, rows: seq<Record>)
    requires |columns| == |values| && IsLower(table) && IsLower(idColumn) && ColumnsOk(columns)
    ensures match Build(table, columns, values, idColumn, id)
            case BadRequest => Supplied(values) == []
            case Statement(query, params) =>
              && ParseUpdate(query).Some? && ParseUpdate(query).value.table == table
              && var after := Eval(ParseUpdate(query).value, params, rows);
                 after.Some? && RowsUpdated(rows, after.value, columns, values, idColumn, id)
  {
    ClausesParse(columns, values, 1);
    if Clauses(columns, values, 1) != [] {
      StatementParses(table, columns, values, idColumn);
      EvalIsPlain(table, columns, values, idColumn, id, rows);
      BuildIs(table, columns, values, idColumn, id);
    }
  }

  lemma BuildIs(table: string, columns: seq<string>, values: Values, idColumn: string, id: string)
    requires |columns| == |values| && Clauses(columns, values, 1) != []
    requires |Clauses(columns, values, 1)| == |Supplied(values)|
    ensures var query := QueryText(table, Clauses(columns, values, 1), idColumn, 1 + |Supplied(values)|);
            Build(table, columns, values, idColumn, id) == Statement(query, Supplied(values) + [id])
  {}

  /** The update that the built statement parses to. */
  lemma {:induction false} StatementParses(table: string, columns: seq<string>, values: Values, idColumn: string)
    requires |columns| == |values| && IsLower(table) && IsLower(idColumn)
    requires (forall i | 0 <= i < |columns| :: IsLower(columns[i])) && Clauses(columns, values, 1) != []
    ensures var n := 1 + |Supplied(values)|;
            && n == 1 + |Clauses(columns, values, 1)|
            && ParseUpdate(QueryText(table, Clauses(columns, values, 1), idColumn, n))
               == Some(Update(table, Assignments(columns, values, 1), Assignment(idColumn, n)))
  {
    var clauses := Clauses(columns, values, 1);
    ClausesParse(columns, values, 1);
    QueryTextParses(table, clauses, Assignments(columns, values, 1), idColumn, 1 + |clauses|);
  }

  lemma EvalIsPlain(table: string, columns: seq<string>, values: Values,
                    idColumn: string, id: string, rows: seq<Record>)
    requires |columns| == |values| && ColumnsOk(columns)
    ensures var u := Update(table, Assignments(columns, values, 1), Assignment(idColumn, 1 + |Supplied(values)|));
            var after := Eval(u, Supplied(values) + [id], rows);
            after.Some? && RowsUpdated(rows, after.value, columns, values, idColumn, id)
  {
    var params, sets := Supplied(values) + [id], Assignments(columns, values, 1);
    var u := Update(table, sets, Assignment(idColumn, 1 + |Supplied(values)|));
    assert params[0..|Supplied(values)|] == Supplied(values);
    AssignmentsBound(columns, values, 1, params);
    var after := Eval(u, params, rows);
    forall i | 0 <= i < |rows| && idColumn in rows[i] && rows[i][idColumn] == id
      ensures after.Some? && FieldsSet(rows[i], after.value[i], columns, values)
    {
      AssignSets(rows[i], columns, values, 1, params);
    }
  }

  // ---------- the four updates ----------

  datatype Target = Client | User | Role | Scope

  function Table(t: Target): string {
    match t
    case Client => "oauth2_clients"
    case User => "users"
    case Role => "roles"
    case Scope => "oauth2_scopes"
  }

  function Columns(t: Target): seq<string> {
    match t
    case Client => ["name", "redirect_uris", "allowed_grant_types"]
    case User => ["email", "email_verified"]
    case Role => ["description"]
    case Scope => ["description", "mapped_role", "is_default", "requires_admin_role"]
  }

  function IdColumn(t: Target): string {
    if t == Client then "client_id" else "id"
  }

  /** The parameters that the dispatch on their number hands to the database; none when no arm
      matches, and then the request is never answered. */
  function Dispatch(t: Target, params: seq<string>): Option<seq<string>>
    requires |params| >= 2
  {
    if t == Role then Some([params[0], params[1]])
    else if |params| == 2 then Some([params[0], params[1]])
    else if |params| == 3 then Some([params[0], params[1], params[2]])
    else if |params| == 4 && t != User then Some([params[0], params[1], params[2], params[3]])
    else if |params| == 5 && t == Scope then Some([params[0], params[1], params[2], params[3], params[4]])
    else None
  }

  lemma {:induction false} NamesOk(t: Target)
    ensures IsLower(Table(t)) && IsLower(IdColumn(t)) && ColumnsOk(Columns(t))
  {
    match t
    case Client => ClientNamesOk();
    case User => UserNamesOk();
    case Role => RoleNamesOk();
    case Scope => ScopeNamesOk();
  }

  lemma UserNamesOk()
    ensures IsLower(Table(User)) && ColumnsOk(Columns(User))
  {
    assert |Columns(User)[0]| == 5 && |Columns(User)[1]| == 14;
  }

  lemma RoleNamesOk()
    ensures IsLower(Table(Role)) && ColumnsOk(Columns(Role))
  {}

  lemma ClientNamesOk()
    ensures IsLower(Table(Client)) && IsLower(IdColumn(Client)) && ColumnsOk(Columns(Client))
  {
    ClientWordsOk();
    var cs := Columns(Client);
    assert cs[0][0] == 'n' && cs[1][0] == 'r' && cs[2][0] == 'a';
  }

  lemma ClientWordsOk()
    ensures IsLower("oauth2_clients") && IsLower("client_id")
    ensures IsLower("name") && IsLower("redirect_uris") && IsLower("allowed_grant_types")
  {}

  lemma ScopeNamesOk()
    ensures IsLower(Table(Scope)) && ColumnsOk(Columns(Scope))
  {
    ScopeWordsOk();
    var cs := Columns(Scope);
    assert cs[0][0] == 'd' && cs[1][0] == 'm' && cs[2][0] == 'i' && cs[3][0] == 'r';
  }

  lemma ScopeWordsOk()
    ensures IsLower("oauth2_scopes") && IsLower("description") && IsLower("mapped_role") && IsLower("is_default")
    ensures IsLower("requires_admin_role")
  {}

  lemma DispatchPassesAll(t: Target, params: seq<string>)
    requires 2 <= |params| <= |Columns(t)| + 1
    ensures Dispatch(t, params) == Some(params)
  {
    assert |params| == 2 ==> params == [params[0], params[1]];
    assert |params| == 3 ==> params == [params[0], params[1], params[2]];
    assert |params| == 4 ==> params == [params[0], params[1], params[2], params[3]];
    assert |params| == 5 ==> params == [params[0], params[1], params[2], params[3], params[4]];
  }

  /** Every non-empty choice of fields of each of the four updates reaches an arm that passes
      all its parameters, and the statement is the plain record update. */
  lemma {:induction false} EveryChoiceIsServed(t: Target, values: Values, id: string, rows: seq<Record>)
    requires |values| == |Columns(t)|
    ensures match Build(Table(t), Columns(t), values, IdColumn(t), id)
            case BadRequest => Supplied(values) == []
            case Statement(query, params) =>
              && |params| >= 2 && Dispatch(t, params) == Some(params)
              && ParseUpdate(query).Some?
              && var after := Eval(ParseUpdate(query).value, params, rows);
                 after.Some? && RowsUpdated(rows, after.value, Columns(t), values, IdColumn(t), id)
  {
    NamesOk(t);
    UpdateIsPlain(Table(t), Columns(t), values, IdColumn(t), id, rows);
    ClausesParse(Columns(t), values, 1);
    match Build(Table(t), Columns(t), values, IdColumn(t), id)
    case BadRequest =>
    case Statement(query, params) => DispatchPassesAll(t, params);
  }

  /** The statement and the parameters that reach the database set the fields of the named
      columns, on the rows of the named table with the id; without fields there is none. */
  ghost predicate Serves(t: Target, values: Values, id: string, rows: seq<Record>,
                         table: string, columns: seq<string>, idColumn: string)
    requires |values| == |Columns(t)| == |columns|
  {
    match Build(Table(t), Columns(t), values, IdColumn(t), id)
    case BadRequest => forall i | 0 <= i < |values| :: values[i] == None
    case Statement(query, params) =>
      && |params| >= 2 && Dispatch(t, params) == Some(params)
      && ParseUpdate(query).Some? && ParseUpdate(query).value.table == table
      && var after := Eval(ParseUpdate(query).value, params, rows);
         after.Some? && RowsUpdated(rows, after.value, columns, values, idColumn, id)
  }

  lemma {:induction false} NothingSupplied(values: Values)
    ensures Supplied(values) == [] <==> forall i | 0 <= i < |values| :: values[i] == None
  {
    if values != [] { NothingSupplied(values[1..]); }
  }

  /** The four updates by the names of their tables and columns. */
  lemma {:induction false} FourUpdates(t: Target, values: Values, id: string, rows: seq<Record>)
    requires |values| == |Columns(t)|
    ensures match t
            case Client =>
              |values| == 3 &&
              Serves(t, values, id, rows, "oauth2_clients",
                     ["name", "redirect_uris", "allowed_grant_types"], "client_id")
            case User => |values| == 2 && Serves(t, values, id, rows, "users", ["email", "email_verified"], "id")
            case Role => |values| == 1 && Serves(t, values, id, rows, "roles", ["description"], "id")
            case Scope =>
              |values| == 4 &&
              Serves(t, values, id, rows, "oauth2_scopes",
                     ["description", "mapped_role", "is_default", "requires_admin_role"], "id")
  {
    NothingSupplied(values);
    NamesOk(t);
    UpdateIsPlain(Table(t), Columns(t), values, IdColumn(t), id, rows);
    EveryChoiceIsServed(t, values, id, rows);
  }
}
