/** Schema migration runs of OAuth2Server/SchemaManager.cc.

    Any number of runs work on one directory and one database. `Execute` takes any
    interleaving of their steps, each of which may fail; `Migrator.Migrate` is the source's
    method, proved to be one such run. */
module SchemaMigrations {
  import opened Order

  /** A migration file: the number in its name, and what it holds. */
  datatype Migration = Migration(version: int, sql: string)

  predicate VersionLess(a: Migration, b: Migration) {
    a.version < b.version
  }

  /** `scanMigrationFiles`: the listing, sorted by version. */
  function Scan(listing: seq<Migration>): seq<Migration> {
    Sort(listing, VersionLess)
  }

  datatype Run =
    | Starting
    | Reading
    | Applying(applied: seq<int>, next: nat)
    | Finished(ok: bool)

  /** The recorded versions in the order of their commits, the schema, and the runs. */
  datatype State<S> = State(table: seq<int>, schema: S, runs: seq<Run>)

  /** A step of one run, with what the environment answers. */
  datatype Action =
    | Start
    | EnsureTable(run: nat, ok: bool)
    | ReadApplied(run: nat, ok: bool)
    | ApplyNext(run: nat, opens: bool, executes: bool)

  function SetRun<S>(s: State<S>, r: nat, run: Run): State<S>
    requires r < |s.runs|
  {
    s.(runs := s.runs[r := run])
  }

  /** One step. A transaction commits or rolls back as a whole, and the primary key rejects a
      version that is recorded already. A step a run is not ready for changes nothing. */
  function Step<S>(dir: seq<Migration>, exec: (S, string) -> S, s: State<S>, a: Action): State<S> {
    match a
    case Start => s.(runs := s.runs + [Starting])
    case EnsureTable(r, ok) =>
      if r < |s.runs| && s.runs[r] == Starting then
        SetRun(s, r, if !ok then Finished(false) else if dir == [] then Finished(true) else Reading)
      else s
    case ReadApplied(r, ok) =>
      if r < |s.runs| && s.runs[r] == Reading then
        SetRun(s, r, Applying(if ok then s.table else [], 0))
      else s
    case ApplyNext(r, opens, executes) =>
      if r < |s.runs| && s.runs[r].Applying? then ApplyStep(dir, exec, s, r, opens, executes) else s
  }

  function ApplyStep<S>(dir: seq<Migration>, exec: (S, string) -> S, s: State<S>, r: nat,
                        opens: bool, executes: bool): State<S>
    requires r < |s.runs| && s.runs[r].Applying?
  {
    var Applying(applied, k) := s.runs[r];
    if k >= |dir| then SetRun(s, r, Finished(true))
    else
      var m := dir[k];
      if m.version in applied then SetRun(s, r, Applying(applied, k + 1))
      else if !opens then SetRun(s, r, Finished(false))
      else if m.sql == "" then SetRun(s, r, Applying(applied, k + 1))
      else if !executes || m.version in s.table then SetRun(s, r, Finished(false))
      else SetRun(State(s.table + [m.version], exec(s.schema, m.sql), s.runs), r, Applying(applied, k + 1))
  }

  function Execute<S>(dir: seq<Migration>, exec: (S, string) -> S, s: State<S>, actions: seq<Action>): State<S> {
    if actions == [] then s
    else Step(dir, exec, Execute(dir, exec, s, actions[..|actions| - 1]), actions[|actions| - 1])
  }

  /** The database before the first run. */
  function Fresh<S>(schema: S): State<S> {
    State([], schema, [])
  }

  // ---------- what the runs have to add up to ----------

  function NonEmpty(dir: seq<Migration>): seq<Migration> {
    if dir == [] then []
    else NonEmpty(dir[..|dir| - 1]) + (if dir[|dir| - 1].sql == "" then [] else [dir[|dir| - 1]])
  }

  function Versions(ms: seq<Migration>): (r: seq<int>)
    ensures |r| == |ms|
    ensures forall i | 0 <= i < |r| :: r[i] == ms[i].version
  {
    seq(|ms|, i requires 0 <= i < |ms| => ms[i].version)
  }

  function Fold<S>(exec: (S, string) -> S, schema: S, ms: seq<Migration>): S {
    if ms == [] then schema else exec(Fold(exec, schema, ms[..|ms| - 1]), ms[|ms| - 1].sql)
  }

  ghost predicate Distinct<T>(s: seq<T>) {
    forall i, j | 0 <= i < j < |s| :: s[i] != s[j]
  }

  ghost predicate DistinctVersions(ms: seq<Migration>) {
    Distinct(Versions(ms))
  }

  ghost function Recorded(table: seq<int>): set<int> {
    set v | v in table
  }

  /** All the non-empty migrations before position `k` are recorded. */
  ghost predicate Covered(dir: seq<Migration>, k: nat, recorded: set<int>) {
    forall j | 0 <= j < k && j < |dir| && dir[j].sql != "" :: dir[j].version in recorded
  }

  /** What a run has read, and what it has passed, is recorded. */
  ghost predicate RunOk(dir: seq<Migration>, recorded: set<int>, run: Run) {
    match run
    case Applying(applied, k) => Recorded(applied) <= recorded && Covered(dir, k, recorded)
    case Finished(true) => Covered(dir, |dir|, recorded)
    case _ => true
  }

  /** The committed versions are a prefix of the non-empty migrations, in order, and the
      schema is what executing that prefix gives. */
  ghost predicate IsPrefix<S>(dir: seq<Migration>, exec: (S, string) -> S, schema: S, s: State<S>) {
    var ms := NonEmpty(dir);
    && |s.table| <= |ms|
    && s.table == Versions(ms[..|s.table|])
    && s.schema == Fold(exec, schema, ms[..|s.table|])
  }

  ghost predicate Inv<S>(dir: seq<Migration>, exec: (S, string) -> S, schema: S, s: State<S>) {
    IsPrefix(dir, exec, schema, s) && RunsOk(dir, Recorded(s.table), s.runs)
  }

  ghost predicate RunsOk(dir: seq<Migration>, recorded: set<int>, runs: seq<Run>) {
    forall r | 0 <= r < |runs| :: RunOk(dir, recorded, runs[r])
  }

  // ---------- every interleaving ----------

  lemma {:induction false} NonEmptySplit(dir: seq<Migration>, k: nat)
    requires k < |dir| && dir[k].sql != ""
    ensures var before := NonEmpty(dir[..k]);
            |before| < |NonEmpty(dir)| && NonEmpty(dir)[..|before|] == before && NonEmpty(dir)[|before|] == dir[k]
  {
    var n := |dir| - 1;
    if k < n {
      NonEmptySplit(dir[..n], k);
      assert dir[..n][..k] == dir[..k];
    }
  }

  lemma {:induction false} NonEmptyMembers(dir: seq<Migration>, m: Migration)
    ensures m in NonEmpty(dir) <==> m in dir && m.sql != ""
  {
    if dir != [] {
      NonEmptyMembers(dir[..|dir| - 1], m);
      assert dir == dir[..|dir| - 1] + [dir[|dir| - 1]];
    }
  }

  /** A run that commits position `k` commits the next one of the prefix: what comes before is
      recorded, and `k` itself is not. */
  lemma NextOfPrefix(dir: seq<Migration>, k: nat, table: seq<int>)
    requires k < |dir| && dir[k].sql != "" && dir[k].version !in table
    requires DistinctVersions(NonEmpty(dir)) && Covered(dir, k, Recorded(table))
    requires |table| <= |NonEmpty(dir)| && table == Versions(NonEmpty(dir)[..|table|])
    ensures |table| < |NonEmpty(dir)| && NonEmpty(dir)[|table|] == dir[k]
  {
    var ms := NonEmpty(dir);
    NonEmptySplit(dir, k);
    CoveredPrefix(dir, k, table);
    if |table| < |ms| { NotInPrefix(ms, |table|, table); }
    forall p | 0 <= p < |table| ensures ms[p].version in table {
      assert table[p] == ms[p].version;
    }
  }

  lemma CoveredPrefix(dir: seq<Migration>, k: nat, table: seq<int>)
    requires k < |dir| && dir[k].sql != "" && Covered(dir, k, Recorded(table))
    ensures |NonEmpty(dir[..k])| <= |NonEmpty(dir)|
    ensures forall p | 0 <= p < |NonEmpty(dir[..k])| :: NonEmpty(dir)[p].version in table
  {
    var ms, before := NonEmpty(dir), NonEmpty(dir[..k]);
    NonEmptySplit(dir, k);
    forall p | 0 <= p < |before| ensures ms[p].version in table {
      assert ms[p] == before[p];
      NonEmptyMembers(dir[..k], before[p]);
      var j :| 0 <= j < k && dir[j] == before[p];
    }
  }

  lemma NotInPrefix(ms: seq<Migration>, n: nat, table: seq<int>)
    requires n < |ms| && DistinctVersions(ms) && table == Versions(ms[..n])
    ensures ms[n].version !in table
  {
    forall p | 0 <= p < n ensures table[p] != ms[n].version {
      assert Versions(ms)[p] != Versions(ms)[n];
    }
  }

  lemma {:induction false} StepKeepsInv<S>(dir: seq<Migration>, exec: (S, string) -> S, schema: S,
                                           s: State<S>, a: Action)
    requires DistinctVersions(NonEmpty(dir)) && Inv(dir, exec, schema, s)
    ensures Inv(dir, exec, schema, Step(dir, exec, s, a))
  {
    var t := Step(dir, exec, s, a);
    if Commits(dir, s, a) {
      var k := s.runs[a.run].next;
      assert Covered(dir, k, Recorded(s.table)) by { assert RunOk(dir, Recorded(s.table), s.runs[a.run]); }
      CommitKeepsRuns(dir, exec, s, a);
      NextOfPrefix(dir, k, s.table);
      PrefixGrows(dir, exec, schema, s, t);
    } else {
      QuietStepKeepsRuns(dir, exec, s, a);
    }
  }

  ghost predicate Commits<S>(dir: seq<Migration>, s: State<S>, a: Action) {
    && a.ApplyNext? && a.run < |s.runs| && s.runs[a.run].Applying? && s.runs[a.run].next < |dir|
    && var m := dir[s.runs[a.run].next];
       m.version !in s.runs[a.run].applied && a.opens && m.sql != "" && a.executes && m.version !in s.table
  }

  lemma QuietStepKeepsRuns<S>(dir: seq<Migration>, exec: (S, string) -> S, s: State<S>, a: Action)
    requires RunsOk(dir, Recorded(s.table), s.runs) && !Commits(dir, s, a)
    ensures var t := Step(dir, exec, s, a);
            t.table == s.table && t.schema == s.schema && RunsOk(dir, Recorded(t.table), t.runs)
  {
    if a.ApplyNext? && a.run < |s.runs| {
      assert RunOk(dir, Recorded(s.table), s.runs[a.run]);
    }
  }

  lemma CommitKeepsRuns<S>(dir: seq<Migration>, exec: (S, string) -> S, s: State<S>, a: Action)
    requires RunsOk(dir, Recorded(s.table), s.runs) && Commits(dir, s, a)
    ensures var t, m := Step(dir, exec, s, a), dir[s.runs[a.run].next];
            && t.table == s.table + [m.version] && t.schema == exec(s.schema, m.sql)
            && RunsOk(dir, Recorded(t.table), t.runs)
  {
    var r, k := a.run, s.runs[a.run].next;
    assert Recorded(s.table + [dir[k].version]) == Recorded(s.table) + {dir[k].version};
    RunsStayOk(dir, Recorded(s.table), s.runs, r);
  }

  lemma RunsStayOk(dir: seq<Migration>, recorded: set<int>, runs: seq<Run>, r: nat)
    requires RunsOk(dir, recorded, runs)
    requires r < |runs| && runs[r].Applying? && runs[r].next < |dir|
    ensures RunsOk(dir, recorded + {dir[runs[r].next].version}, runs[r := Applying(runs[r].applied, runs[r].next + 1)])
  {
    assert RunOk(dir, recorded, runs[r]);
  }

  lemma PrefixGrows<S>(dir: seq<Migration>, exec: (S, string) -> S, schema: S, s: State<S>, t: State<S>)
    requires IsPrefix(dir, exec, schema, s) && |s.table| < |NonEmpty(dir)|
    requires var m := NonEmpty(dir)[|s.table|];
             t.table == s.table + [m.version] && t.schema == exec(s.schema, m.sql)
    ensures IsPrefix(dir, exec, schema, t)
  {
    var ms, n := NonEmpty(dir), |s.table|;
    assert ms[..n + 1][..n] == ms[..n];
    assert t.table == Versions(ms[..n + 1]);
  }

  /** Over any interleaving of any number of runs, each failing anywhere or reading an empty
      list of applied versions: the committed versions are a prefix of the non-empty
      migrations in ascending order, the schema is the fold of that prefix, and what a run
      has passed is recorded. */
  lemma {:induction false} PrefixAlways<S>(dir: seq<Migration>, exec: (S, string) -> S, schema: S, actions: seq<Action>)
    requires DistinctVersions(NonEmpty(dir))
    ensures Inv(dir, exec, schema, Execute(dir, exec, Fresh(schema), actions))
  {
    if actions == [] {
      assert Versions(NonEmpty(dir)[..0]) == [];
    } else {
      var before := actions[..|actions| - 1];
      PrefixAlways(dir, exec, schema, before);
      StepKeepsInv(dir, exec, schema, Execute(dir, exec, Fresh(schema), before), actions[|actions| - 1]);
    }
  }

  /** The sorted listing is strictly ascending, so the prefix is in ascending order. */
  lemma ScanAscends(listing: seq<Migration>)
    requires DistinctVersions(listing)
    ensures Ascending(Scan(listing), VersionLess)
    ensures forall i, j | 0 <= i < j < |Scan(listing)| :: Scan(listing)[i].version < Scan(listing)[j].version
    ensures multiset(Scan(listing)) == multiset(listing)
    ensures DistinctVersions(NonEmpty(Scan(listing)))
  {
    forall i, j | 0 <= i < j < |listing| ensures listing[i].version != listing[j].version {
      assert Versions(listing)[i] != Versions(listing)[j];
    }
    SortAscends(listing, VersionLess);
    SortPermutes(listing, VersionLess);
    NonEmptyAscends(Scan(listing));
    AscendingIsDistinct(NonEmpty(Scan(listing)));
  }

  lemma {:induction false} NonEmptyAscends(dir: seq<Migration>)
    requires Ascending(dir, VersionLess)
    ensures Ascending(NonEmpty(dir), VersionLess)
  {
    if dir != [] {
      var n := |dir| - 1;
      var before := NonEmpty(dir[..n]);
      NonEmptyAscends(dir[..n]);
      forall i | 0 <= i < |before| ensures VersionLess(before[i], dir[n]) {
        NonEmptyMembers(dir[..n], before[i]);
        var j :| 0 <= j < n && dir[..n][j] == before[i];
        assert VersionLess(dir[j], dir[n]);
      }
    }
  }

  lemma AscendingIsDistinct(ms: seq<Migration>)
    requires Ascending(ms, VersionLess)
    ensures DistinctVersions(ms)
  {
    forall i, j | 0 <= i < j < |ms| ensures Versions(ms)[i] != Versions(ms)[j] {
      assert VersionLess(ms[i], ms[j]);
    }
  }

  /** In every interleaving over a directory of distinct versions, the versions are committed
      in ascending order, whatever the order of the listing. */
  lemma {:induction false} CommitsAscend<S>(listing: seq<Migration>, exec: (S, string) -> S, schema: S,
                                            actions: seq<Action>)
    requires DistinctVersions(listing)
    ensures var table := Execute(Scan(listing), exec, Fresh(schema), actions).table;
            forall i, j | 0 <= i < j < |table| :: table[i] < table[j]
  {
    var dir := Scan(listing);
    ScanAscends(listing);
    NonEmptyAscends(dir);
    PrefixAlways(dir, exec, schema, actions);
    var table, ms := Execute(dir, exec, Fresh(schema), actions).table, NonEmpty(dir);
    forall i, j | 0 <= i < j < |table| ensures table[i] < table[j] {
      assert VersionLess(ms[i], ms[j]);
      assert table[i] == ms[..|table|][i].version && table[j] == ms[..|table|][j].version;
    }
  }

  ghost predicate Complete<S>(dir: seq<Migration>, s: State<S>) {
    s.table == Versions(NonEmpty(dir))
  }

  lemma {:induction false} CoveredIsComplete<S>(dir: seq<Migration>, exec: (S, string) -> S, schema: S, s: State<S>)
    requires DistinctVersions(NonEmpty(dir)) && IsPrefix(dir, exec, schema, s) && Covered(dir, |dir|, Recorded(s.table))
    ensures Complete(dir, s) && s.schema == Fold(exec, schema, NonEmpty(dir))
  {
    NothingMissing(dir, s.table);
    TakeAll(NonEmpty(dir), |s.table|);
  }

  lemma TakeAll<T>(s: seq<T>, n: nat)
    requires n == |s|
    ensures s[..n] == s
  {}

  lemma NothingMissing(dir: seq<Migration>, table: seq<int>)
    requires DistinctVersions(NonEmpty(dir)) && Covered(dir, |dir|, Recorded(table))
    requires |table| <= |NonEmpty(dir)| && table == Versions(NonEmpty(dir)[..|table|])
    ensures |table| == |NonEmpty(dir)|
  {
    if |table| < |NonEmpty(dir)| {
      CoveredAt(dir, table, |table|);
      NotInPrefix(NonEmpty(dir), |table|, table);
    }
  }

  lemma CoveredAt(dir: seq<Migration>, table: seq<int>, p: nat)
    requires Covered(dir, |dir|, Recorded(table)) && p < |NonEmpty(dir)|
    ensures NonEmpty(dir)[p].version in table
  {
    var m := NonEmpty(dir)[p];
    NonEmptyMembers(dir, m);
    var j :| 0 <= j < |dir| && dir[j] == m;
  }

  lemma CompleteStays<S>(dir: seq<Migration>, exec: (S, string) -> S, s: State<S>, a: Action)
    requires Complete(dir, s)
    ensures var t := Step(dir, exec, s, a); t.table == s.table && t.schema == s.schema
  {
    if a.ApplyNext? && a.run < |s.runs| && s.runs[a.run].Applying? && s.runs[a.run].next < |dir| {
      var m := dir[s.runs[a.run].next];
      NonEmptyMembers(dir, m);
      if m.sql != "" {
        var i :| 0 <= i < |NonEmpty(dir)| && NonEmpty(dir)[i] == m;
        assert s.table[i] == m.version;
      }
    }
  }

  /** Once every migration is applied, nothing that any run does changes the database. */
  lemma {:induction false} CompleteForever<S>(dir: seq<Migration>, exec: (S, string) -> S, s: State<S>,
                                              later: seq<Action>)
    requires Complete(dir, s)
    ensures var t := Execute(dir, exec, s, later); t.table == s.table && t.schema == s.schema
  {
    if later != [] {
      CompleteForever(dir, exec, s, later[..|later| - 1]);
      CompleteStays(dir, exec, Execute(dir, exec, s, later[..|later| - 1]), later[|later| - 1]);
    }
  }

  /** A run that returns true leaves every migration applied, and then nothing any run does
      changes the database. */
  lemma {:induction false} TrueMeansComplete<S>(dir: seq<Migration>, exec: (S, string) -> S, schema: S,
                                                s: State<S>, r: nat, later: seq<Action>)
    requires DistinctVersions(NonEmpty(dir)) && Inv(dir, exec, schema, s)
    requires r < |s.runs| && s.runs[r] == Finished(true)
    ensures Complete(dir, s) && s.schema == Fold(exec, schema, NonEmpty(dir))
    ensures var t := Execute(dir, exec, s, later); t.table == s.table && t.schema == s.schema
  {
    assert RunOk(dir, Recorded(s.table), s.runs[r]);
    CoveredIsComplete(dir, exec, schema, s);
    CompleteForever(dir, exec, s, later);
  }

  // ---------- duplicate versions, and runs that meet no fault ----------

  /** With or without distinct versions, no version is committed twice, every recorded version
      is that of a non-empty migration, and what a run has read is recorded. */
  ghost predicate TableOk<S>(dir: seq<Migration>, s: State<S>) {
    && Distinct(s.table)
    && (forall v <- s.table :: v in Versions(NonEmpty(dir)))
    && forall r | 0 <= r < |s.runs| && s.runs[r].Applying? :: forall v <- s.runs[r].applied :: v in s.table
  }

  lemma StepKeepsTable<S>(dir: seq<Migration>, exec: (S, string) -> S, s: State<S>, a: Action)
    requires TableOk(dir, s)
    ensures TableOk(dir, Step(dir, exec, s, a))
    ensures s.table <= Step(dir, exec, s, a).table
  {
    if a.ApplyNext? && a.run < |s.runs| && s.runs[a.run].Applying? && s.runs[a.run].next < |dir| {
      var m := dir[s.runs[a.run].next];
      NonEmptyMembers(dir, m);
      if m.sql != "" {
        var i :| 0 <= i < |NonEmpty(dir)| && NonEmpty(dir)[i] == m;
        assert Versions(NonEmpty(dir))[i] == m.version;
      }
    }
  }

  lemma {:induction false} TableAlways<S>(dir: seq<Migration>, exec: (S, string) -> S, schema: S, actions: seq<Action>)
    ensures TableOk(dir, Execute(dir, exec, Fresh(schema), actions))
  {
    if actions != [] {
      TableAlways(dir, exec, schema, actions[..|actions| - 1]);
      StepKeepsTable(dir, exec, Execute(dir, exec, Fresh(schema), actions[..|actions| - 1]), actions[|actions| - 1]);
    }
  }

  lemma {:induction false} ExecuteConcat<S>(dir: seq<Migration>, exec: (S, string) -> S, s: State<S>,
                                            a: seq<Action>, b: seq<Action>)
    ensures Execute(dir, exec, s, a + b) == Execute(dir, exec, Execute(dir, exec, s, a), b)
  {
    if b == [] {
      assert a + b == a;
    } else {
      var n := |b| - 1;
      ExecuteConcat(dir, exec, s, a, b[..n]);
      assert (a + b)[..|a + b| - 1] == a + b[..n];
    }
  }

  predicate NoFault(a: Action) {
    match a
    case Start => true
    case EnsureTable(_, ok) => ok
    case ReadApplied(_, ok) => ok
    case ApplyNext(_, opens, executes) => opens && executes
  }

  predicate NoFaults(actions: seq<Action>) {
    forall a <- actions :: NoFault(a)
  }

  /** A run that is at work and meets no fault finishes; it fails only on a version that was
      recorded after it read the table. */
  lemma {:induction false} CleanFinish<S>(dir: seq<Migration>, exec: (S, string) -> S, s: State<S>, r: nat)
    returns (actions: seq<Action>)
    requires TableOk(dir, s) && r < |s.runs| && s.runs[r].Applying?
    ensures var t := Execute(dir, exec, s, actions);
            && NoFaults(actions) && TableOk(dir, t) && |t.runs| == |s.runs| && t.runs[r].Finished?
            && (t.runs[r].ok || exists v <- t.table :: v !in s.runs[r].applied)
            && s.table <= t.table
    decreases |dir| - s.runs[r].next
  {
    var a := ApplyNext(r, true, true);
    var next := Step(dir, exec, s, a);
    StepKeepsTable(dir, exec, s, a);
    assert Execute(dir, exec, s, [a]) == next;
    if next.runs[r].Finished? {
      actions := [a];
      if !next.runs[r].ok { assert dir[s.runs[r].next].version in s.table; }
    } else {
      var more := CleanFinish(dir, exec, next, r);
      actions := [a] + more;
      ExecuteConcat(dir, exec, s, [a], more);
    }
  }

  /** One more run that meets no fault returns true or records a further version. */
  lemma CleanRun<S>(dir: seq<Migration>, exec: (S, string) -> S, s: State<S>) returns (actions: seq<Action>)
    requires TableOk(dir, s)
    ensures var t := Execute(dir, exec, s, actions);
            && NoFaults(actions) && TableOk(dir, t) && |t.runs| == |s.runs| + 1
            && (t.runs[|s.runs|] == Finished(true) || |t.table| > |s.table|)
  {
    var r := |s.runs|;
    var begin := [Start, EnsureTable(r, true), ReadApplied(r, true)];
    var s1 := Step(dir, exec, s, begin[0]);
    var s2 := Step(dir, exec, s1, begin[1]);
    var s3 := Step(dir, exec, s2, begin[2]);
    StepKeepsTable(dir, exec, s, begin[0]);
    StepKeepsTable(dir, exec, s1, begin[1]);
    StepKeepsTable(dir, exec, s2, begin[2]);
    ExecuteThree(dir, exec, s, begin);
    if dir == [] {
      actions := begin;
      assert s3.runs[r] == Finished(true);
    } else {
      var more := CleanFinish(dir, exec, s3, r);
      actions := begin + more;
      ExecuteConcat(dir, exec, s, begin, more);
      var t := Execute(dir, exec, s, actions);
      if t.runs[r].ok { assert t.runs[r] == Finished(true); }
    }
  }

  lemma {:induction false} ExecuteThree<S>(dir: seq<Migration>, exec: (S, string) -> S, s: State<S>, a: seq<Action>)
    requires |a| == 3
    ensures Execute(dir, exec, s, a) == Step(dir, exec, Step(dir, exec, Step(dir, exec, s, a[0]), a[1]), a[2])
  {
    assert a[..2][..1] == [a[0]] && a[..2][1] == a[1] && a[..1][..0] == [];
    assert Execute(dir, exec, s, a[..1]) == Step(dir, exec, s, a[0]);
    assert Execute(dir, exec, s, a[..2]) == Step(dir, exec, Step(dir, exec, s, a[0]), a[1]);
  }

  lemma {:induction false} DistinctBound(s: seq<int>, all: seq<int>)
    requires Distinct(s) && forall v <- s :: v in all
    ensures |s| <= |all|
  {
    if s != [] {
      assert s[0] in s;
      var i :| 0 <= i < |all| && all[i] == s[0];
      var rest := all[..i] + all[i + 1..];
      forall v | v in s[1..] ensures v in rest {
        assert v in s;
        var j :| 0 <= j < |all| && all[j] == v;
        assert j != i;
        assert if j < i then rest[j] == v else rest[j - 1] == v;
      }
      DistinctBound(s[1..], rest);
    }
  }

  /** Retrying ends: from any reachable state, some new runs that meet no fault lead to one
      that returns true. */
  lemma {:induction false} RetriesSucceed<S>(dir: seq<Migration>, exec: (S, string) -> S, s: State<S>)
    returns (actions: seq<Action>)
    requires TableOk(dir, s)
    ensures var t := Execute(dir, exec, s, actions);
            && NoFaults(actions) && |t.runs| > |s.runs|
            && exists r | |s.runs| <= r < |t.runs| :: t.runs[r] == Finished(true)
    decreases |NonEmpty(dir)| - |s.table|
  {
    DistinctBound(s.table, Versions(NonEmpty(dir)));
    actions := CleanRun(dir, exec, s);
    var t := Execute(dir, exec, s, actions);
    if t.runs[|s.runs|] != Finished(true) {
      DistinctBound(t.table, Versions(NonEmpty(dir)));
      var more := RetriesSucceed(dir, exec, t);
      ExecuteConcat(dir, exec, s, actions, more);
      actions := actions + more;
    }
  }

  /** That `true` means complete in every interleaving is exactly that no two non-empty
      migrations share a version: otherwise retrying leads to a run that returns true over a
      migration that was never applied. */
  lemma TrueMeansCompleteExactly<S>(dir: seq<Migration>, exec: (S, string) -> S, schema: S)
    ensures DistinctVersions(NonEmpty(dir)) <==>
            forall actions: seq<Action>, r: nat ::
              var t := Execute(dir, exec, Fresh(schema), actions);
              r < |t.runs| && t.runs[r] == Finished(true) ==> Complete(dir, t)
  {
    if DistinctVersions(NonEmpty(dir)) {
      forall actions: seq<Action>, r: nat
        ensures var t := Execute(dir, exec, Fresh(schema), actions);
                r < |t.runs| && t.runs[r] == Finished(true) ==> Complete(dir, t)
      {
        var t := Execute(dir, exec, Fresh(schema), actions);
        if r < |t.runs| && t.runs[r] == Finished(true) {
          PrefixAlways(dir, exec, schema, actions);
          TrueMeansComplete(dir, exec, schema, t, r, []);
        }
      }
    } else {
      var actions := RetriesSucceed(dir, exec, Fresh(schema));
      var t := Execute(dir, exec, Fresh(schema), actions);
      TableAlways(dir, exec, schema, actions);
      var r :| 0 <= r < |t.runs| && t.runs[r] == Finished(true);
      assert !Complete(dir, t);
    }
  }

  // ---------- the source's method is one such run ----------

  /** What one run meets: whether the table can be created and read, and for each file
      whether it opens and its transaction goes through. */
  datatype Env = Env(tableOk: bool, readOk: bool, opens: nat -> bool, executes: nat -> bool)

  function RunActions(n: nat, env: Env): (r: seq<Action>)
    ensures |r| == 3 + n
  {
    [Start, EnsureTable(0, env.tableOk), ReadApplied(0, env.readOk)]
    + seq(n, k requires 0 <= k < n => ApplyNext(0, env.opens(k), env.executes(k)))
  }

  lemma RunActionsSnoc(n: nat, env: Env)
    ensures RunActions(n + 1, env) == RunActions(n, env) + [ApplyNext(0, env.opens(n), env.executes(n))]
  {}

  lemma {:induction false} FinishedStays<S>(dir: seq<Migration>, exec: (S, string) -> S, s: State<S>, env: Env,
                                            n: nat, m: nat)
    requires n <= m
    requires var t := Execute(dir, exec, s, RunActions(n, env)); |t.runs| == 1 && t.runs[0].Finished?
    ensures Execute(dir, exec, s, RunActions(m, env)) == Execute(dir, exec, s, RunActions(n, env))
    decreases m - n
  {
    if n < m {
      FinishedStays(dir, exec, s, env, n, m - 1);
      RunActionsSnoc(m - 1, env);
    }
  }

  /** The state after the run's first steps and `k` of its files. */
  ghost predicate Reaches<S>(dir: seq<Migration>, exec: (S, string) -> S, s: State<S>, env: Env, k: nat, t: State<S>) {
    Execute(dir, exec, s, RunActions(k, env)) == t
  }

  class Migrator<S> {
    var table: seq<int>
    var schema: S
    const exec: (S, string) -> S

    constructor (schema: S, exec: (S, string) -> S)
      ensures table == [] && this.schema == schema && this.exec == exec
    {
      this.table, this.schema, this.exec := [], schema, exec;
    }

    /** `applyMigration` */
    method ApplyMigration(m: Migration, opens: bool, executes: bool) returns (ok: bool)
      modifies this`table, this`schema
      ensures ok == (opens && (m.sql == "" || (executes && m.version !in old(table))))
      ensures if ok && m.sql != "" then table == old(table) + [m.version] && schema == exec(old(schema), m.sql)
              else table == old(table) && schema == old(schema)
    {
      if !opens { return false; }
      if m.sql == "" { return true; }
      if !executes || m.version in table { return false; }
      schema := exec(schema, m.sql);
      table := table + [m.version];
      ok := true;
    }

    /** The loop of `migrate` over the files that are not applied yet. */
    method ApplyAll(dir: seq<Migration>, applied: seq<int>, env: Env, ghost s: State<S>) returns (ok: bool)
      requires Reaches(dir, exec, s, env, 0, State(table, schema, [Applying(applied, 0)]))
      modifies this`table, this`schema
      ensures Reaches(dir, exec, s, env, |dir| + 1, State(table, schema, [Finished(ok)]))
    {
      for k := 0 to |dir|
        invariant Reaches(dir, exec, s, env, k, State(table, schema, [Applying(applied, k)]))
      {
        OneIteration(dir, exec, s, env, k, table, schema, applied);
        if dir[k].version in applied { continue; }
        var done := ApplyMigration(dir[k], env.opens(k), env.executes(k));
        if !done {
          StopsHere(dir, exec, s, env, k + 1, |dir| + 1, table, schema);
          return false;
        }
      }
      AllPassed(dir, exec, s, env, table, schema, applied);
      ok := true;
    }

    /** `migrate`: one run is the machine's run of its steps with nothing in between. */
    method Migrate(listing: seq<Migration>, env: Env) returns (ok: bool)
      modifies this`table, this`schema
      ensures var dir := Scan(listing);
              Reaches(dir, exec, State(old(table), old(schema), []), env, |dir| + 1,
                      State(table, schema, [Finished(ok)]))
    {
      var dir := Scan(listing);
      ghost var s := State(table, schema, []);
      BeginRun(dir, exec, s, env);
      if !env.tableOk || dir == [] {
        FinishedStays(dir, exec, s, env, 0, |dir| + 1);
        return env.tableOk;
      }
      ok := ApplyAll(dir, if env.readOk then table else [], env, s);
    }
  }

  lemma OneIteration<S>(dir: seq<Migration>, exec: (S, string) -> S, s: State<S>, env: Env, k: nat,
                        table: seq<int>, schema: S, applied: seq<int>)
    requires k < |dir| && Reaches(dir, exec, s, env, k, State(table, schema, [Applying(applied, k)]))
    ensures var m, next := dir[k], Applying(applied, k + 1);
            Reaches(dir, exec, s, env, k + 1,
                    if m.version in applied || (env.opens(k) && m.sql == "") then State(table, schema, [next])
                    else if env.opens(k) && env.executes(k) && m.version !in table then
                      State(table + [m.version], exec(schema, m.sql), [next])
                    else State(table, schema, [Finished(false)]))
  {
    NextInRun(dir, exec, s, env, k);
  }

  lemma StopsHere<S>(dir: seq<Migration>, exec: (S, string) -> S, s: State<S>, env: Env, k: nat, end: nat,
                     table: seq<int>, schema: S)
    requires k <= end && Reaches(dir, exec, s, env, k, State(table, schema, [Finished(false)]))
    ensures Reaches(dir, exec, s, env, end, State(table, schema, [Finished(false)]))
  {
    FinishedStays(dir, exec, s, env, k, end);
  }

  lemma AllPassed<S>(dir: seq<Migration>, exec: (S, string) -> S, s: State<S>, env: Env,
                     table: seq<int>, schema: S, applied: seq<int>)
    requires Reaches(dir, exec, s, env, |dir|, State(table, schema, [Applying(applied, |dir|)]))
    ensures Reaches(dir, exec, s, env, |dir| + 1, State(table, schema, [Finished(true)]))
  {
    NextInRun(dir, exec, s, env, |dir|);
  }

  lemma BeginRun<S>(dir: seq<Migration>, exec: (S, string) -> S, s: State<S>, env: Env)
    requires s.runs == []
    ensures Execute(dir, exec, s, RunActions(0, env)) ==
            s.(runs := [if !env.tableOk then Finished(false)
                        else if dir == [] then Finished(true)
                        else Applying(if env.readOk then s.table else [], 0)])
  {
    var begin := RunActions(0, env);
    assert begin == [Start, EnsureTable(0, env.tableOk), ReadApplied(0, env.readOk)];
    ExecuteThree(dir, exec, s, begin);
  }

  lemma NextInRun<S>(dir: seq<Migration>, exec: (S, string) -> S, s: State<S>, env: Env, k: nat)
    ensures Execute(dir, exec, s, RunActions(k + 1, env))
            == Step(dir, exec, Execute(dir, exec, s, RunActions(k, env)), ApplyNext(0, env.opens(k), env.executes(k)))
  {
    RunActionsSnoc(k, env);
    assert RunActions(k + 1, env)[..|RunActions(k + 1, env)| - 1] == RunActions(k, env);
  }
}
