/** The migration runner, stopped anywhere and started again. */
module Migrate {
  import opened Options
  import Splitter

  /** One .up.sql file. */
  datatype Migration = Migration(version: string, name: string, sql: string, checksum: string, noTransaction: bool)

  /** What the database keeps: the schema, schema_migrations, and in which order transactions committed. */
  datatype Db<S> = Db(schema: S, applied: map<string, string>, commits: seq<string>)

  datatype Status = Done | Stopped | ChecksumMismatch | NoStatements | StatementFailed | AlreadyRecorded

  /** How one statement changes a schema; a statement that fails changes nothing. */
  type Exec<!S> = (string, S) -> Option<S>

  ghost predicate Distinct(files: seq<Migration>) {
    forall i, j | 0 <= i < j < |files| :: files[i].version != files[j].version
  }

  // ---- one uninterrupted run, said simply

  function RunAll<S>(exec: Exec<S>, statements: seq<string>, s: S): Option<S>
    decreases |statements|
  {
    if statements == [] then Some(s)
    else
      var next := exec(statements[0], s);
      if next.None? then None else RunAll(exec, statements[1..], next.value)
  }

  function Recorded<S>(db: Db<S>, f: Migration, schema: S): Db<S> {
    Db(schema, db.applied[f.version := f.checksum], if f.noTransaction then db.commits else db.commits + [f.version])
  }

  /** Every file not yet recorded runs whole, in order; none if the run cannot finish. */
  function Uninterrupted<S>(exec: Exec<S>, files: seq<Migration>, db: Db<S>): Option<Db<S>>
    decreases |files|
  {
    if files == [] then Some(db)
    else
      var f := files[0];
      if f.version in db.applied then
        if db.applied[f.version] != f.checksum then None else Uninterrupted(exec, files[1..], db)
      else if Splitter.Split(f.sql) == [] then None
      else
        var end := RunAll(exec, Splitter.Split(f.sql), db.schema);
        if end.None? then None else Uninterrupted(exec, files[1..], Recorded(db, f, end.value))
  }

  // ---- an attempt that the process may leave after any number of commands

  datatype Partial<S> = Statements(schema: S, left: nat, status: Status)

  function RunSome<S>(exec: Exec<S>, statements: seq<string>, s: S, budget: nat): (r: Partial<S>)
    ensures r.status in {Done, Stopped, StatementFailed}
    decreases |statements|
  {
    if statements == [] then Statements(s, budget, Done)
    else if budget == 0 then Statements(s, 0, Stopped)
    else
      var next := exec(statements[0], s);
      if next.None? then Statements(s, budget - 1, StatementFailed)
      else RunSome(exec, statements[1..], next.value, budget - 1)
  }

  datatype Attempt<S> = Attempt(db: Db<S>, left: nat, ran: seq<string>, status: Status)

  /** apply: a transactional file keeps nothing unless it commits; the other keeps every statement it ran. */
  function ApplyFile<S>(exec: Exec<S>, f: Migration, db: Db<S>, budget: nat): Attempt<S> {
    var statements := Splitter.Split(f.sql);
    if statements == [] then Attempt(db, budget, [], NoStatements)
    else
      var r := RunSome(exec, statements, db.schema, budget);
      var partial := if f.noTransaction then db.(schema := r.schema) else db;
      var commands := if f.noTransaction then 1 else 2;
      if r.status != Done then Attempt(partial, r.left, [], r.status)
      else if r.left > 0 && f.version in db.applied then Attempt(partial, r.left - 1, [], AlreadyRecorded)
      else if r.left < commands then Attempt(partial, 0, [], Stopped)
      else Attempt(Recorded(db, f, r.schema), r.left - commands, [f.version], Done)
  }

  function After<S>(first: Attempt<S>, rest: Attempt<S>): Attempt<S> {
    rest.(ran := first.ran + rest.ran)
  }

  /** known is schema_migrations as the attempt found it. */
  function RunFiles<S>(exec: Exec<S>, files: seq<Migration>, known: map<string, string>, db: Db<S>,
                       budget: nat): Attempt<S>
    decreases |files|
  {
    if files == [] then Attempt(db, budget, [], Done)
    else
      var f := files[0];
      if f.version in known then
        if known[f.version] != f.checksum then Attempt(db, budget, [], ChecksumMismatch)
        else RunFiles(exec, files[1..], known, db, budget)
      else
        var first := ApplyFile(exec, f, db, budget);
        if first.status != Done then first
        else After(first, RunFiles(exec, files[1..], known, first.db, first.left))
  }

  // ---- the runner

  class Migrator<S(!new)> {
    var schema: S
    var applied: map<string, string>
    var commits: seq<string>

    function Current(): Db<S>
      reads this
    {
      Db(schema, applied, commits)
    }

    constructor (schema: S)
      ensures Current() == Db(schema, map[], [])
    {
      this.schema, applied, commits := schema, map[], [];
    }

    /** Statements of a file that opted out of its transaction: each is kept as soon as it has run. */
    method RunOutside(exec: Exec<S>, statements: seq<string>, budget: nat) returns (left: nat, status: Status)
      modifies this`schema
      ensures RunSome(exec, statements, old(schema), budget) == Statements(schema, left, status)
    {
      left := budget;
      for i := 0 to |statements|
        invariant RunSome(exec, statements, old(schema), budget) == RunSome(exec, statements[i..], schema, left)
      {
        if left == 0 { return left, Stopped; }
        left := left - 1;
        var next := exec(statements[i], schema);
        if next.None? { return left, StatementFailed; }
        schema := next.value;
        assert statements[i..][1..] == statements[i + 1..];
      }
      status := Done;
    }

    /** Statements inside a transaction: they change its own copy. */
    method RunInside(exec: Exec<S>, statements: seq<string>, budget: nat) returns (staged: S, left: nat, status: Status)
      ensures RunSome(exec, statements, schema, budget) == Statements(staged, left, status)
    {
      left, staged := budget, schema;
      for i := 0 to |statements|
        invariant RunSome(exec, statements, schema, budget) == RunSome(exec, statements[i..], staged, left)
      {
        if left == 0 { return staged, left, Stopped; }
        left := left - 1;
        var next := exec(statements[i], staged);
        if next.None? { return staged, left, StatementFailed; }
        staged := next.value;
        assert statements[i..][1..] == statements[i + 1..];
      }
      status := Done;
    }

    method Apply(exec: Exec<S>, f: Migration, budget: nat) returns (left: nat, status: Status)
      modifies this
      ensures ApplyFile(exec, f, old(Current()), budget) ==
              Attempt(Current(), left, if status == Done then [f.version] else [], status)
    {
      var statements := Splitter.SplitStatements(f.sql);
      if |statements| == 0 { return budget, NoStatements; }
      if f.noTransaction {
        left, status := RunOutside(exec, statements, budget);
        if status != Done { return; }
        if left == 0 { return 0, Stopped; }
        left := left - 1;
        if f.version in applied { return left, AlreadyRecorded; }
        applied := applied[f.version := f.checksum];
      } else {
        var staged;
        staged, left, status := RunInside(exec, statements, budget);
        if status != Done { return; }
        if left == 0 { return 0, Stopped; }
        if f.version in applied { return left - 1, AlreadyRecorded; }
        if left == 1 { return 0, Stopped; }
        left := left - 2;
        schema, applied, commits := staged, applied[f.version := f.checksum], commits + [f.version];
      }
    }

    /** budget is how many commands the database answers before the process goes away. */
    method Migrate(exec: Exec<S>, files: seq<Migration>, budget: nat) returns (ran: seq<string>, status: Status)
      modifies this
      ensures var a := RunFiles(exec, files, old(applied), old(Current()), budget);
              Current() == a.db && ran == a.ran && status == a.status
    {
      var known := applied;
      var left := budget;
      ran := [];
      ghost var whole := RunFiles(exec, files, known, Current(), budget);
      assert files[0..] == files;
      for i := 0 to |files|
        invariant Pending(exec, files, i, known, Current(), left, ran, whole)
      {
        var f := files[i];
        StepOfFiles(exec, files, i, known, Current(), left, ran, whole);
        if f.version in known {
          if known[f.version] != f.checksum { return ran, ChecksumMismatch; }
        } else {
          left, status := Apply(exec, f, left);
          if status != Done { return ran, status; }
          ran := ran + [f.version];
        }
      }
      status := Done;
    }
  }

  /** What is left of the whole attempt once i files are behind it and ran holds what they applied. */
  ghost predicate Pending<S>(exec: Exec<S>, files: seq<Migration>, i: nat, known: map<string, string>,
                             db: Db<S>, left: nat, ran: seq<string>, whole: Attempt<S>)
  {
    i <= |files| && whole == After(Attempt(db, left, ran, Done), RunFiles(exec, files[i..], known, db, left))
  }

  lemma StepOfFiles<S>(exec: Exec<S>, files: seq<Migration>, i: nat, known: map<string, string>,
                       db: Db<S>, left: nat, ran: seq<string>, whole: Attempt<S>)
    requires i < |files| && Pending(exec, files, i, known, db, left, ran, whole)
    ensures var f := files[i];
            if f.version in known then
              if known[f.version] != f.checksum then whole == Attempt(db, left, ran, ChecksumMismatch)
              else Pending(exec, files, i + 1, known, db, left, ran, whole)
            else
              var first := ApplyFile(exec, f, db, left);
              if first.status == Done then
                Pending(exec, files, i + 1, known, first.db, first.left, ran + [f.version], whole)
              else whole == Attempt(first.db, first.left, ran, first.status)
  {
    assert files[i..][0] == files[i] && files[i..][1..] == files[i + 1..];
  }
}
