/** loadMigrations: which directories of .sql files the runner accepts, and the order it takes them in. */
module Loading {
  import opened Options
  import opened Ordering
  import opened Migrate
  import Text

  datatype Entry = Entry(name: string, isDir: bool, body: string)

  const NO_TRANSACTION := "-- migrate:no-transaction"
  const RE_RUNNABLE := "-- migrate:re-runnable"
  const UP := ".up.sql"
  const DOWN := ".down.sql"
  const SQL := ".sql"

  predicate EndsWith(s: string, suffix: string) {
    |s| >= |suffix| && s[|s| - |suffix|..] == suffix
  }

  predicate IsWord(c: char) {
    'a' <= c <= 'z' || Text.IsDigit(c) || c == '_'
  }

  /** Four digits, an underscore, and a word of at least one letter, before the suffix. */
  predicate Named(name: string, suffix: string) {
    && EndsWith(name, suffix)
    && var stem := name[..|name| - |suffix|];
       && |stem| > 5 && stem[4] == '_'
       && (forall i | 0 <= i < 4 :: Text.IsDigit(stem[i]))
       && (forall i | 5 <= i < |stem| :: IsWord(stem[i]))
  }

  datatype Kind = Skipped | Up | Down | Misnamed

  function KindOf(e: Entry): Kind {
    if e.isDir || !EndsWith(e.name, SQL) then Skipped
    else if Named(e.name, UP) then Up
    else if Named(e.name, DOWN) then Down
    else Misnamed
  }

  lemma KindsHaveVersions(e: Entry)
    requires KindOf(e).Up? || KindOf(e).Down?
    ensures |e.name| >= 4
  {
  }

  function VersionOf(e: Entry): string
    requires KindOf(e).Up? || KindOf(e).Down?
  {
    KindsHaveVersions(e);
    e.name[..4]
  }

  function Lines(s: string): (lines: seq<string>)
    ensures lines != []
  {
    if s == [] then [""]
    else
      var rest := Lines(s[1..]);
      if s[0] == '\n' then [""] + rest else [[s[0]] + rest[0]] + rest[1..]
  }

  predicate StartsWith(s: string, prefix: string) {
    prefix <= s
  }

  /** Some line of the header of comments and blanks says so. */
  predicate Declares(lines: seq<string>) {
    if lines == [] then false
    else
      var line := Text.TrimSpace(lines[0]);
      StartsWith(line, RE_RUNNABLE) || ((line == "" || StartsWith(line, "--")) && Declares(lines[1..]))
  }

  lemma OneLine(lines: seq<string>, i: nat, line: string)
    requires i < |lines| && line == Text.TrimSpace(lines[i])
    ensures Declares(lines[i..]) ==
            (StartsWith(line, RE_RUNNABLE) || ((line == "" || StartsWith(line, "--")) && Declares(lines[i + 1..])))
  {
    assert lines[i..][1..] == lines[i + 1..];
  }

  method DeclaresReRunnable(src: string) returns (yes: bool)
    ensures yes == Declares(Lines(src))
  {
    var lines := Lines(src);
    assert lines[0..] == lines;
    for i := 0 to |lines|
      invariant Declares(lines) == Declares(lines[i..])
    {
      var line := Text.TrimSpace(lines[i]);
      OneLine(lines, i, line);
      if line == "" { continue; }
      if StartsWith(line, RE_RUNNABLE) { return true; }
      if StartsWith(line, "--") { continue; }
      return false;
    }
    return false;
  }

  function FileOf(e: Entry, sum: string -> string): Migration
    requires KindOf(e).Up?
  {
    Migration(VersionOf(e), e.name, e.body, sum(e.body), StartsWith(e.body, NO_TRANSACTION))
  }

  /** The up files, in directory order. */
  function Ups(entries: seq<Entry>, sum: string -> string): seq<Migration> {
    if entries == [] then []
    else
      var last := entries[|entries| - 1];
      Ups(entries[..|entries| - 1], sum) + if KindOf(last).Up? then [FileOf(last, sum)] else []
  }

  function Downs(entries: seq<Entry>): set<string> {
    set e | e in entries && KindOf(e).Down? :: VersionOf(e)
  }

  predicate Fit(e: Entry) {
    !KindOf(e).Misnamed? && (KindOf(e).Up? && StartsWith(e.body, NO_TRANSACTION) ==> Declares(Lines(e.body)))
  }

  /** Every .sql name is a migration's, no two up files share a version, a no-transaction file declares itself
      re-runnable, and there is an up file and a down file for each. */
  ghost predicate Acceptable(entries: seq<Entry>, sum: string -> string) {
    && (forall i | 0 <= i < |entries| :: Fit(entries[i]))
    && Distinct(Ups(entries, sum))
    && Ups(entries, sum) != []
    && (forall f | f in Ups(entries, sum) :: f.version in Downs(entries))
  }

  lemma {:induction false} UpsGrow(entries: seq<Entry>, n: nat, k: nat, sum: string -> string)
    requires n <= k <= |entries|
    ensures Ups(entries[..n], sum) <= Ups(entries[..k], sum)
    decreases k
  {
    if n < k {
      UpsGrow(entries, n, k - 1, sum);
      OneEntryMore(entries, k - 1, sum);
    }
  }

  function NameOf(f: Migration): Id {
    f.name
  }

  /** A directory holds a name once, so its up files are told apart by name. */
  ghost predicate Directory(entries: seq<Entry>) {
    forall i, j | 0 <= i < j < |entries| :: entries[i].name != entries[j].name
  }

  ghost predicate NamesApart(fs: seq<Migration>) {
    forall i, j | 0 <= i < j < |fs| :: fs[i].name != fs[j].name
  }

  lemma {:induction false} UpsCome(entries: seq<Entry>, sum: string -> string, f: Migration)
    requires f in Ups(entries, sum)
    ensures exists i :: 0 <= i < |entries| && KindOf(entries[i]).Up? && f == FileOf(entries[i], sum)
  {
    var m := |entries| - 1;
    if f in Ups(entries[..m], sum) {
      UpsCome(entries[..m], sum, f);
      var i :| 0 <= i < m && KindOf(entries[..m][i]).Up? && f == FileOf(entries[..m][i], sum);
      assert entries[i] == entries[..m][i];
    } else {
      assert f == FileOf(entries[m], sum);
    }
  }

  lemma {:induction false} UpsNamedApart(entries: seq<Entry>, sum: string -> string)
    requires Directory(entries)
    ensures NamesApart(Ups(entries, sum))
  {
    if entries != [] {
      var m := |entries| - 1;
      var earlier := Ups(entries[..m], sum);
      UpsNamedApart(entries[..m], sum);
      forall i | 0 <= i < |earlier|
        ensures earlier[i].name != entries[m].name
      {
        UpsCome(entries[..m], sum, earlier[i]);
      }
    }
  }

  /** sort.Slice by name. */
  function Sorted(files: seq<Migration>): seq<Migration>
    requires NamesApart(files)
  {
    InIdOrder(ByName(files))
  }

  function ByName(files: seq<Migration>): map<Id, Migration>
    requires NamesApart(files)
  {
    map f | f in files :: f.name := f
  }

  lemma SortedIsAPermutation(files: seq<Migration>)
    requires NamesApart(files)
    ensures Ascending(NameOf, Sorted(files)) && forall f :: f in Sorted(files) <==> f in files
    ensures Distinct(files) ==> Distinct(Sorted(files))
  {
    var table, sorted := ByName(files), Sorted(files);
    InIdOrderIsTheTable(NameOf, table);
    if Distinct(files) {
      forall i, j | 0 <= i < j < |sorted|
        ensures sorted[i].version != sorted[j].version
      {
        BelowIrreflexive(sorted[i].name);
        assert sorted[i] in sorted && sorted[j] in sorted;
        var k :| 0 <= k < |files| && files[k] == sorted[i];
        var l :| 0 <= l < |files| && files[l] == sorted[j];
        assert k != l;
      }
    }
  }

  /** The versions the files so far are known under. */
  ghost predicate Knows(seen: set<string>, files: seq<Migration>) {
    forall v :: v in seen <==> exists i :: 0 <= i < |files| && files[i].version == v
  }

  lemma OneMore(seen: set<string>, files: seq<Migration>, f: Migration)
    requires Knows(seen, files) && Distinct(files)
    ensures f.version in seen <==> !Distinct(files + [f])
    ensures Knows(seen + {f.version}, files + [f])
  {
    var all := files + [f];
    if f.version in seen {
      var i :| 0 <= i < |files| && files[i].version == f.version;
      assert all[i].version == all[|files|].version;
    }
    assert forall i | 0 <= i < |files| :: all[i] == files[i];
    assert all[|files|] == f;
  }

  lemma StillNotDistinct(few: seq<Migration>, all: seq<Migration>)
    requires few <= all && !Distinct(few)
    ensures !Distinct(all)
  {
    var i, j :| 0 <= i < j < |few| && few[i].version == few[j].version;
    assert all[i] == few[i] && all[j] == few[j];
  }

  lemma TooEarlyToSay(entries: seq<Entry>, n: nat, sum: string -> string)
    requires n <= |entries| && !Distinct(Ups(entries[..n], sum))
    ensures !Distinct(Ups(entries, sum))
  {
    UpsGrow(entries, n, |entries|, sum);
    StillNotDistinct(Ups(entries[..n], sum), Ups(entries[..|entries|], sum));
    assert entries[..|entries|] == entries;
  }

  lemma OneEntryMore(entries: seq<Entry>, i: nat, sum: string -> string)
    requires i < |entries|
    ensures Ups(entries[..i + 1], sum) ==
            Ups(entries[..i], sum) + if KindOf(entries[i]).Up? then [FileOf(entries[i], sum)] else []
    ensures Downs(entries[..i + 1]) ==
            Downs(entries[..i]) + if KindOf(entries[i]).Down? then {VersionOf(entries[i])} else {}
  {
    assert entries[..i + 1] == entries[..i] + [entries[i]];
    assert entries[..i + 1][..i] == entries[..i];
  }

  method ReadEntries(entries: seq<Entry>, sum: string -> string)
    returns (ok: bool, out: seq<Migration>, downs: set<string>)
    ensures ok <==> (forall i | 0 <= i < |entries| :: Fit(entries[i])) && Distinct(Ups(entries, sum))
    ensures ok ==> out == Ups(entries, sum) && downs == Downs(entries)
  {
    var ups := {};
    out, downs := [], {};
    for i := 0 to |entries|
      invariant out == Ups(entries[..i], sum) && Distinct(out) && Knows(ups, out)
      invariant downs == Downs(entries[..i])
      invariant forall j | 0 <= j < i :: Fit(entries[j])
    {
      var e := entries[i];
      OneEntryMore(entries, i, sum);
      match KindOf(e)
      case Skipped =>
      case Misnamed => return false, out, downs;
      case Down => downs := downs + {VersionOf(e)};
      case Up =>
        var f := FileOf(e, sum);
        OneMore(ups, out, f);
        if f.version in ups {
          TooEarlyToSay(entries, i + 1, sum);
          return false, out, downs;
        }
        ups := ups + {f.version};
        if f.noTransaction {
          var declared := DeclaresReRunnable(f.sql);
          if !declared { return false, out, downs; }
        }
        out := out + [f];
    }
    assert entries[..|entries|] == entries;
    ok := true;
  }

  method EachHasADown(files: seq<Migration>, downs: set<string>) returns (all: bool)
    ensures all <==> forall f | f in files :: f.version in downs
  {
    for i := 0 to |files|
      invariant forall j | 0 <= j < i :: files[j].version in downs
    {
      if files[i].version !in downs { return false; }
    }
    return true;
  }

  method LoadMigrations(entries: seq<Entry>, sum: string -> string) returns (files: Option<seq<Migration>>)
    requires Directory(entries)
    ensures files.Some? <==> Acceptable(entries, sum)
    ensures files.Some? ==> Distinct(files.value) && Ascending(NameOf, files.value)
    ensures files.Some? ==> forall f :: f in files.value <==> f in Ups(entries, sum)
  {
    var ok, out, downs := ReadEntries(entries, sum);
    if !ok || |out| == 0 { return None; }
    UpsNamedApart(entries, sum);
    var sorted := Sorted(out);
    SortedIsAPermutation(out);
    ok := EachHasADown(sorted, downs);
    if ok { files := Some(sorted); } else { files := None; }
  }
}
