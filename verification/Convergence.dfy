/** Stopped any number of times and run again to success, the migrator ends where one uninterrupted run ends. */
module Convergence {
  import opened Options
  import opened Migrate
  import Splitter

  /** Any prefix, then the whole, is the whole: what "-- migrate:re-runnable" declares. */
  ghost predicate ReRunnable<S(!new)>(exec: Exec<S>, statements: seq<string>) {
    forall s: S, k: nat | k <= |statements| && RunAll(exec, statements[..k], s).Some? ::
      RunAll(exec, statements, RunAll(exec, statements[..k], s).value) == RunAll(exec, statements, s)
  }

  ghost predicate AllReRunnable<S(!new)>(exec: Exec<S>, files: seq<Migration>) {
    forall f | f in files && f.noTransaction :: ReRunnable(exec, Splitter.Split(f.sql))
  }

  /** What a run leaves behind is what a prefix of the statements leaves. */
  lemma {:induction false} RunSomeIsAPrefix<S>(exec: Exec<S>, statements: seq<string>, s: S,
                                               budget: nat) returns (k: nat)
    ensures var r := RunSome(exec, statements, s, budget);
            && k <= |statements| && RunAll(exec, statements[..k], s) == Some(r.schema)
            && (r.status == Done ==> RunAll(exec, statements, s) == Some(r.schema) && r.left == budget - |statements|)
            && (r.status == StatementFailed ==> RunAll(exec, statements, s) == None)
            && (r.status == Stopped ==> budget < |statements|)
    decreases |statements|
  {
    k := 0;
    if statements != [] && budget > 0 {
      var next := exec(statements[0], s);
      if next.Some? {
        var n := RunSomeIsAPrefix(exec, statements[1..], next.value, budget - 1);
        k := n + 1;
        assert statements[..k][1..] == statements[1..][..n];
      }
    }
  }

  /** Recorded versions stay recorded, with their checksums. */
  ghost predicate Keeps(before: map<string, string>, after: map<string, string>) {
    forall v | v in before :: v in after && after[v] == before[v]
  }

  lemma ApplyKeepsRecords<S>(exec: Exec<S>, f: Migration, db: Db<S>, budget: nat)
    ensures Keeps(db.applied, ApplyFile(exec, f, db, budget).db.applied)
  {
  }

  lemma {:induction false} RecordsStay<S>(exec: Exec<S>, files: seq<Migration>, known: map<string, string>,
                                          db: Db<S>, budget: nat)
    ensures Keeps(db.applied, RunFiles(exec, files, known, db, budget).db.applied)
    decreases |files|
  {
    if files != [] {
      if files[0].version in known {
        if known[files[0].version] == files[0].checksum { RecordsStay(exec, files[1..], known, db, budget); }
      } else {
        var first := ApplyFile(exec, files[0], db, budget);
        ApplyKeepsRecords(exec, files[0], db, budget);
        if first.status == Done { RecordsStay(exec, files[1..], known, first.db, first.left); }
      }
    }
  }

  /** known still says of these files what schema_migrations says. */
  ghost predicate Agrees(files: seq<Migration>, known: map<string, string>, applied: map<string, string>) {
    forall f | f in files ::
      (f.version in known <==> f.version in applied) && (f.version in known ==> known[f.version] == applied[f.version])
  }

  /** One file: left unfinished, it will run to the same end; finished, it is recorded. */
  lemma ApplyKeepsTheEnd<S(!new)>(exec: Exec<S>, f: Migration, db: Db<S>, budget: nat)
    requires f.version !in db.applied && (f.noTransaction ==> ReRunnable(exec, Splitter.Split(f.sql)))
    ensures var a := ApplyFile(exec, f, db, budget);
            var whole := RunAll(exec, Splitter.Split(f.sql), db.schema);
            if a.status == Done then whole.Some? && Splitter.Split(f.sql) != [] && a.db == Recorded(db, f, whole.value)
            else a.db == db.(schema := a.db.schema) && RunAll(exec, Splitter.Split(f.sql), a.db.schema) == whole
  {
    var statements := Splitter.Split(f.sql);
    if statements != [] {
      var k := RunSomeIsAPrefix(exec, statements, db.schema, budget);
    }
  }

  lemma {:induction false} AttemptKeepsTheEnd<S(!new)>(exec: Exec<S>, files: seq<Migration>,
                                                       known: map<string, string>, db: Db<S>, budget: nat)
    requires Distinct(files) && AllReRunnable(exec, files) && Agrees(files, known, db.applied)
    ensures var a := RunFiles(exec, files, known, db, budget);
            && Uninterrupted(exec, files, a.db) == Uninterrupted(exec, files, db)
            && (a.status == Done ==> Uninterrupted(exec, files, db) == Some(a.db))
    decreases |files|
  {
    if files != [] {
      var f, rest := files[0], files[1..];
      if f.version in known {
        RecordsStay(exec, rest, known, db, budget);
        AttemptKeepsTheEnd(exec, rest, known, db, budget);
      } else {
        ApplyKeepsTheEnd(exec, f, db, budget);
        var first := ApplyFile(exec, f, db, budget);
        if first.status == Done {
          RecordsStay(exec, rest, known, first.db, first.left);
          AttemptKeepsTheEnd(exec, rest, known, first.db, first.left);
        }
      }
    }
  }

  /** The database after attempts that stopped, or failed, wherever they did. */
  function AfterAttempts<S>(exec: Exec<S>, files: seq<Migration>, db: Db<S>, budgets: seq<nat>): Db<S>
    decreases |budgets|
  {
    if budgets == [] then db
    else AfterAttempts(exec, files, RunFiles(exec, files, db.applied, db, budgets[0]).db, budgets[1..])
  }

  lemma {:induction false} AttemptsKeepTheEnd<S(!new)>(exec: Exec<S>, files: seq<Migration>, db: Db<S>,
                                                       budgets: seq<nat>)
    requires Distinct(files) && AllReRunnable(exec, files)
    ensures Uninterrupted(exec, files, AfterAttempts(exec, files, db, budgets)) == Uninterrupted(exec, files, db)
    decreases |budgets|
  {
    if budgets != [] {
      AttemptKeepsTheEnd(exec, files, db.applied, db, budgets[0]);
      AttemptsKeepTheEnd(exec, files, RunFiles(exec, files, db.applied, db, budgets[0]).db, budgets[1..]);
    }
  }

  /** Whenever an attempt at last succeeds, it ends where one uninterrupted run would have: same schema, same
      checksums, same transactions committed in the same order. */
  lemma MigrationConverges<S(!new)>(exec: Exec<S>, files: seq<Migration>, db: Db<S>, budgets: seq<nat>, last: nat)
    requires Distinct(files) && AllReRunnable(exec, files)
    ensures var before := AfterAttempts(exec, files, db, budgets);
            var a := RunFiles(exec, files, before.applied, before, last);
            a.status == Done ==> Uninterrupted(exec, files, db) == Some(a.db)
  {
    var before := AfterAttempts(exec, files, db, budgets);
    AttemptsKeepTheEnd(exec, files, db, budgets);
    AttemptKeepsTheEnd(exec, files, before.applied, before, last);
  }

  // ---- and it does succeed

  /** The commands of a whole run. */
  function Commands(files: seq<Migration>): nat {
    if files == [] then 0 else |Splitter.Split(files[0].sql)| + 2 + Commands(files[1..])
  }

  lemma {:induction false} EnoughCommandsSucceed<S>(exec: Exec<S>, files: seq<Migration>, known: map<string, string>,
                                                    db: Db<S>, budget: nat)
    requires Distinct(files) && Agrees(files, known, db.applied) && Uninterrupted(exec, files, db).Some?
    ensures var status := RunFiles(exec, files, known, db, budget).status;
            (status == Done || status == Stopped) && (budget >= Commands(files) ==> status == Done)
    decreases |files|
  {
    if files != [] {
      var f, rest := files[0], files[1..];
      if f.version in known {
        EnoughCommandsSucceed(exec, rest, known, db, budget);
      } else {
        var k := RunSomeIsAPrefix(exec, Splitter.Split(f.sql), db.schema, budget);
        var first := ApplyFile(exec, f, db, budget);
        if first.status == Done {
          assert first.db == Recorded(db, f, RunAll(exec, Splitter.Split(f.sql), db.schema).value);
          EnoughCommandsSucceed(exec, rest, known, first.db, first.left);
        }
      }
    }
  }

  /** If one uninterrupted run would succeed, no attempt fails, however the earlier ones were cut short, and one
      that is left alone finishes. */
  lemma InterruptionsNeverBreakAMigration<S(!new)>(exec: Exec<S>, files: seq<Migration>, db: Db<S>,
                                                   budgets: seq<nat>, last: nat)
    requires Distinct(files) && AllReRunnable(exec, files) && Uninterrupted(exec, files, db).Some?
    ensures var before := AfterAttempts(exec, files, db, budgets);
            var status := RunFiles(exec, files, before.applied, before, last).status;
            (status == Done || status == Stopped) && (last >= Commands(files) ==> status == Done)
  {
    AttemptsKeepTheEnd(exec, files, db, budgets);
    var before := AfterAttempts(exec, files, db, budgets);
    EnoughCommandsSucceed(exec, files, before.applied, before, last);
  }

  // ---- what the uninterrupted run leaves

  /** The versions of the transactional files that were still to run. */
  function ToCommit(files: seq<Migration>, applied: map<string, string>): seq<string> {
    if files == [] then []
    else
      (if files[0].version !in applied && !files[0].noTransaction then [files[0].version] else []) +
      ToCommit(files[1..], applied)
  }

  lemma {:induction false} ToCommitIgnoresOthers(files: seq<Migration>, applied: map<string, string>, v: string,
                                                 c: string)
    requires forall f | f in files :: f.version != v
    ensures ToCommit(files, applied[v := c]) == ToCommit(files, applied)
  {
    if files != [] { ToCommitIgnoresOthers(files[1..], applied, v, c); }
  }

  lemma {:induction false} EveryFileIsRecorded<S>(exec: Exec<S>, files: seq<Migration>, db: Db<S>)
    requires Uninterrupted(exec, files, db).Some?
    ensures var end := Uninterrupted(exec, files, db).value;
            && (forall v | v in db.applied :: v in end.applied && end.applied[v] == db.applied[v])
            && (forall f | f in files :: f.version in end.applied && end.applied[f.version] == f.checksum)
    decreases |files|
  {
    if files != [] {
      var f, rest := files[0], files[1..];
      var next := if f.version in db.applied then db
                  else Recorded(db, f, RunAll(exec, Splitter.Split(f.sql), db.schema).value);
      EveryFileIsRecorded(exec, rest, next);
      assert forall g | g in files :: g == f || g in rest;
      assert f.version in next.applied && next.applied[f.version] == f.checksum;
    }
  }

  /** Each transactional file not recorded before has committed exactly once, in the files' order. */
  lemma {:induction false} EachTransactionCommitsOnce<S>(exec: Exec<S>, files: seq<Migration>, db: Db<S>)
    requires Distinct(files) && Uninterrupted(exec, files, db).Some?
    ensures Uninterrupted(exec, files, db).value.commits == db.commits + ToCommit(files, db.applied)
    decreases |files|
  {
    if files != [] {
      var f, rest := files[0], files[1..];
      if f.version in db.applied {
        EachTransactionCommitsOnce(exec, rest, db);
      } else {
        var next := OneFileOn(exec, files, db);
        EachTransactionCommitsOnce(exec, rest, next);
        ToCommitIgnoresOthers(rest, db.applied, f.version, f.checksum);
        CommitsAppend(files, db, f, next);
      }
    }
  }

  lemma OneFileOn<S>(exec: Exec<S>, files: seq<Migration>, db: Db<S>) returns (next: Db<S>)
    requires files != [] && files[0].version !in db.applied && Uninterrupted(exec, files, db).Some?
    ensures next == Recorded(db, files[0], next.schema)
    ensures Uninterrupted(exec, files, db) == Uninterrupted(exec, files[1..], next)
  {
    next := Recorded(db, files[0], RunAll(exec, Splitter.Split(files[0].sql), db.schema).value);
  }

  lemma CommitsAppend<S>(files: seq<Migration>, db: Db<S>, f: Migration, next: Db<S>)
    requires files != [] && f == files[0] && f.version !in db.applied && next == Recorded(db, f, next.schema)
    ensures next.commits + ToCommit(files[1..], db.applied) == db.commits + ToCommit(files, db.applied)
  {
  }

  // ---- the declaration is needed

  /** A no-transaction file that is not re-runnable on some schema, cut there, does not converge. */
  lemma WithoutReRunnableItParts<S(!new)>(exec: Exec<S>, f: Migration, db: Db<S>, k: nat)
    requires f.noTransaction && f.version !in db.applied && k < |Splitter.Split(f.sql)|
    requires RunAll(exec, Splitter.Split(f.sql)[..k], db.schema).Some?
    requires RunAll(exec, Splitter.Split(f.sql), RunAll(exec, Splitter.Split(f.sql)[..k], db.schema).value) !=
             RunAll(exec, Splitter.Split(f.sql), db.schema)
    ensures var cut := RunFiles(exec, [f], db.applied, db, k);
            cut.status == Stopped && Uninterrupted(exec, [f], cut.db) != Uninterrupted(exec, [f], db)
  {
    var statements := Splitter.Split(f.sql);
    CutAfter(exec, statements, db.schema, k);
    var cut := RunFiles(exec, [f], db.applied, db, k);
    assert cut.db == db.(schema := RunAll(exec, statements[..k], db.schema).value);
    OneFile(exec, f, db);
    OneFile(exec, f, cut.db);
  }

  lemma OneFile<S>(exec: Exec<S>, f: Migration, db: Db<S>)
    requires f.version !in db.applied && Splitter.Split(f.sql) != []
    ensures var whole := RunAll(exec, Splitter.Split(f.sql), db.schema);
            Uninterrupted(exec, [f], db) == if whole.None? then None else Some(Recorded(db, f, whole.value))
  {
  }

  lemma {:induction false} CutAfter<S>(exec: Exec<S>, statements: seq<string>, s: S, k: nat)
    requires k < |statements| && RunAll(exec, statements[..k], s).Some?
    ensures RunSome(exec, statements, s, k) == Statements(RunAll(exec, statements[..k], s).value, 0, Stopped)
    decreases k
  {
    if k > 0 {
      assert statements[..k][1..] == statements[1..][..k - 1];
      CutAfter(exec, statements[1..], exec(statements[0], s).value, k - 1);
    }
  }
}
