/** What one migration run does from beginning to end, said without the steps it is made of. */
module MigrationRuns {
  import opened SchemaMigrations

  /** The files to be applied: not recorded when the run read the table, and not empty. */
  function Todo(ms: seq<Migration>, applied: seq<int>): seq<Migration> {
    if ms == [] then []
    else
      var m := ms[|ms| - 1];
      Todo(ms[..|ms| - 1], applied) + (if m.version in applied || m.sql == "" then [] else [m])
  }

  /** The table as the run reads it; when it cannot be read, nothing counts as applied. */
  function ReadTable<S>(s: State<S>, env: Env): seq<int> {
    if env.readOk then s.table else []
  }

  /** The database behind the first `n` files. */
  function TableBehind<S>(dir: seq<Migration>, s: State<S>, env: Env, n: nat): seq<int>
    requires n <= |dir|
  {
    s.table + Versions(Todo(dir[..n], ReadTable(s, env)))
  }

  function SchemaBehind<S>(dir: seq<Migration>, exec: (S, string) -> S, s: State<S>, env: Env, n: nat): S
    requires n <= |dir|
  {
    Fold(exec, s.schema, Todo(dir[..n], ReadTable(s, env)))
  }

  /** The file is skipped, or can be opened and is empty or goes through under a version that
      is not recorded by then. */
  predicate Works<S>(dir: seq<Migration>, s: State<S>, env: Env, k: nat)
    requires k < |dir|
  {
    || dir[k].version in ReadTable(s, env)
    || (env.opens(k) && (dir[k].sql == "" || (env.executes(k) && dir[k].version !in TableBehind(dir, s, env, k))))
  }

  predicate AllWork<S>(dir: seq<Migration>, s: State<S>, env: Env, n: nat)
    requires n <= |dir|
  {
    forall k | 0 <= k < n :: Works(dir, s, env, k)
  }

  lemma VersionsSnoc(ms: seq<Migration>, m: Migration)
    ensures Versions(ms + [m]) == Versions(ms) + [m.version]
  {}

  lemma FoldSnoc<S>(exec: (S, string) -> S, schema: S, ms: seq<Migration>, m: Migration)
    ensures Fold(exec, schema, ms + [m]) == exec(Fold(exec, schema, ms), m.sql)
  {
    assert (ms + [m])[..|ms|] == ms;
  }

  /** One file further. */
  lemma Behind<S>(dir: seq<Migration>, exec: (S, string) -> S, s: State<S>, env: Env, k: nat)
    requires k < |dir|
    ensures var m := dir[k];
            if m.version in ReadTable(s, env) || m.sql == "" then
              && TableBehind(dir, s, env, k + 1) == TableBehind(dir, s, env, k)
              && SchemaBehind(dir, exec, s, env, k + 1) == SchemaBehind(dir, exec, s, env, k)
            else
              && TableBehind(dir, s, env, k + 1) == TableBehind(dir, s, env, k) + [m.version]
              && SchemaBehind(dir, exec, s, env, k + 1) == exec(SchemaBehind(dir, exec, s, env, k), m.sql)
  {
    var m, ms := dir[k], Todo(dir[..k], ReadTable(s, env));
    assert dir[..k + 1][..k] == dir[..k] && dir[..k + 1][k] == m;
    assert ms + [] == ms;
    VersionsSnoc(ms, m);
    FoldSnoc(exec, s.schema, ms, m);
  }

  lemma {:induction false} PassesTo<S>(dir: seq<Migration>, exec: (S, string) -> S, s: State<S>, env: Env, n: nat)
    requires s.runs == [] && env.tableOk && dir != [] && n <= |dir| && AllWork(dir, s, env, n)
    ensures Reaches(dir, exec, s, env, n,
                    State(TableBehind(dir, s, env, n), SchemaBehind(dir, exec, s, env, n),
                          [Applying(ReadTable(s, env), n)]))
  {
    if n == 0 {
      BeginRun(dir, exec, s, env);
      assert Todo(dir[..0], ReadTable(s, env)) == [];
      assert s.table + [] == s.table;
    } else {
      var k := n - 1;
      PassesTo(dir, exec, s, env, k);
      assert Works(dir, s, env, k);
      OneIteration(dir, exec, s, env, k,
                   TableBehind(dir, s, env, k), SchemaBehind(dir, exec, s, env, k), ReadTable(s, env));
      Behind(dir, exec, s, env, k);
    }
  }

  /** One run applies the files to be applied in order, up to the first one that does not work,
      and leaves the others; it returns true exactly when there is no such file. */
  lemma OneRun<S>(dir: seq<Migration>, exec: (S, string) -> S, s: State<S>, env: Env, n: nat)
    requires s.runs == [] && env.tableOk && dir != [] && n <= |dir|
    requires AllWork(dir, s, env, n) && (n < |dir| ==> !Works(dir, s, env, n))
    ensures Reaches(dir, exec, s, env, |dir| + 1,
                    State(TableBehind(dir, s, env, n), SchemaBehind(dir, exec, s, env, n), [Finished(n == |dir|)]))
  {
    var table, schema, applied := TableBehind(dir, s, env, n), SchemaBehind(dir, exec, s, env, n), ReadTable(s, env);
    PassesTo(dir, exec, s, env, n);
    if n < |dir| {
      OneIteration(dir, exec, s, env, n, table, schema, applied);
      StopsHere(dir, exec, s, env, n + 1, |dir| + 1, table, schema);
    } else {
      AllPassed(dir, exec, s, env, table, schema, applied);
    }
  }

  /** Without its table a run fails, without files it succeeds, and neither does anything. */
  lemma RunWithoutWork<S>(dir: seq<Migration>, exec: (S, string) -> S, s: State<S>, env: Env)
    requires s.runs == [] && (!env.tableOk || dir == [])
    ensures Reaches(dir, exec, s, env, |dir| + 1, State(s.table, s.schema, [Finished(env.tableOk)]))
  {
    BeginRun(dir, exec, s, env);
    FinishedStays(dir, exec, s, env, 0, |dir| + 1);
  }
}
