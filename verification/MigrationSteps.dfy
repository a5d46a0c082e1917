/** How much one up does: which files it runs and what it records. */
module MigrationSteps {
  import opened Wrappers
  import opened MinMax
  import opened Sorting
  import opened Migrations
  import KeyOrder

  ghost predicate IsJsFile(file: string) { exists stem: string :: file == stem + ".js" }

  lemma IsMigrationMeans(file: string)
    ensures IsMigration(file) <==> IsJsFile(file)
  {
    if IsMigration(file) { assert file == file[..|file| - 3] + ".js"; }
  }

  /** The ".js" files that no record names. */
  ghost function Missing(files: seq<string>, records: seq<Record>): set<string> {
    set f | f in files && IsJsFile(f) && forall r :: r in records ==> r.name != f
  }

  /** What slice(0, step) leaves of m files; without a step, or with step 0, all of them. */
  function Asked(m: nat, step: Option<int>): nat {
    if step.None? || step.value == 0 then m
    else if step.value > 0 then Min(step.value, m)
    else Max(0, m + step.value)
  }

  // ---------------------------------------------------------------- the pending files

  lemma {:induction false} OnlyMigrationsMembers(files: seq<string>, f: string)
    ensures f in OnlyMigrations(files) <==> f in files && IsMigration(f)
  {
    if files != [] {
      OnlyMigrationsMembers(files[1..], f);
      assert files == [files[0]] + files[1..];
    }
  }

  lemma {:induction false} NotExecutedMembers(files: seq<string>, records: seq<Record>, f: string)
    ensures f in NotExecuted(files, records) <==> f in files && !Executed(records, f)
  {
    if files != [] {
      NotExecutedMembers(files[1..], records, f);
      assert files == [files[0]] + files[1..];
    }
  }

  lemma {:induction false} AscendingCount(list: seq<string>)
    requires KeyOrder.Ascending(list)
    ensures |set f | f in list| == |list|
  {
    if list != [] {
      var n := |list| - 1;
      AscendingCount(list[..n]);
      AscendingHasNoDuplicates(list);
      assert list == list[..n] + [list[n]];
      assert (set f | f in list) == (set f | f in list[..n]) + {list[n]};
    }
  }

  lemma PendingIsMissing(files: seq<string>, records: seq<Record>)
    requires NoDuplicates(files)
    ensures var p := Pending(files, records);
      && KeyOrder.Ascending(p)
      && (forall f :: f in p <==> f in Missing(files, records))
      && |p| == |Missing(files, records)|
  {
    var p, only := Pending(files, records), OnlyMigrations(files);
    PendingAscends(files, records);
    SortPermutes((a: string, b: string) => KeyOrder.KeyLeq(a, b), only);
    forall f ensures f in p <==> f in Missing(files, records) {
      NotExecutedMembers(KeyOrder.SortKeys(only), records, f);
      OnlyMigrationsMembers(files, f);
      IsMigrationMeans(f);
      ExecutedMeans(records, f);
    }
    AscendingCount(p);
    assert (set f | f in p) == Missing(files, records);
  }

  lemma ChosenIsAPrefix(p: seq<string>, step: Option<int>)
    requires KeyOrder.Ascending(p)
    ensures var chosen := Chosen(p, step);
      && chosen <= p && |chosen| == Asked(|p|, step) && KeyOrder.Ascending(chosen)
      && (forall f, g :: f in chosen && g in p && g !in chosen ==> KeyOrder.KeyLess(f, g))
  {
    var chosen := Chosen(p, step);
    forall f, g | f in chosen && g in p && g !in chosen ensures KeyOrder.KeyLess(f, g) {
      var i :| 0 <= i < |chosen| && chosen[i] == f;
      var j :| 0 <= j < |p| && p[j] == g;
      assert forall k :: 0 <= k < |chosen| ==> p[k] in chosen;
      assert p[i] == f;
    }
  }

  // ---------------------------------------------------------------- running them

  function AppliedAll(files: seq<string>, batch: nat): seq<Action> {
    seq(|files|, i requires 0 <= i < |files| => Applied(Record(files[i], batch)))
  }

  lemma NewNameStaysNew(records: seq<Record>, r: Record, name: string)
    requires !Executed(records, name) && r.name != name
    ensures !Executed(Sorting.Insert(ById(), r, records), name)
  {
    var longer := Sorting.Insert(ById(), r, records);
    InsertPermutes(ById(), r, records);
    ExecutedMeans(records, name);
    ExecutedMeans(longer, name);
    forall x | x in longer ensures x.name != name {
      assert x in multiset(longer);
      assert x == r || x in multiset(records);
    }
  }

  /** The records and calls of one batch, and where it stopped. */
  ghost predicate RanBatch<Db>(env: Env<Db>, s: State<Db>, t: State<Db>, list: seq<string>, batch: nat, n: nat) {
    && n <= |list|
    && t.log == s.log + AppliedAll(list[..n], batch)
    && multiset(t.records) == multiset(s.records) + multiset(BatchOf(list[..n], batch))
    && (n < |list| ==> env.up(list[n], t.db).None?)
  }

  lemma RanOneMore<Db>(env: Env<Db>, s: State<Db>, t: State<Db>, list: seq<string>, batch: nat, db: Db, n: nat)
    requires list != [] && RanBatch(env, Migrations.Insert(s, db, Record(list[0], batch)), t, list[1..], batch, n)
    ensures RanBatch(env, s, t, list, batch, n + 1)
  {
    var r := Record(list[0], batch);
    InsertPermutes(ById(), r, s.records);
    assert list[..n + 1] == [list[0]] + list[1..][..n];
    assert AppliedAll(list[..n + 1], batch) == [Applied(r)] + AppliedAll(list[1..][..n], batch);
    assert BatchOf(list[..n + 1], batch) == [r] + BatchOf(list[1..][..n], batch);
  }

  lemma {:induction false} ApplyRuns<Db>(env: Env<Db>, s: State<Db>, list: seq<string>, batch: nat) returns (n: nat)
    requires NoDuplicates(list) && forall k :: 0 <= k < |list| ==> !Executed(s.records, list[k])
    ensures RanBatch(env, s, Apply(env, s, list, batch), list, batch, n)
    decreases |list|
  {
    n := 0;
    if list != [] && env.up(list[0], s.db).Some? {
      var db, r := env.up(list[0], s.db).value, Record(list[0], batch);
      forall k | 0 <= k < |list[1..]| ensures !Executed(Migrations.Insert(s, db, r).records, list[1..][k]) {
        assert list[1..][k] == list[k + 1] != list[0];
        NewNameStaysNew(s.records, r, list[k + 1]);
      }
      var rest := ApplyRuns(env, Migrations.Insert(s, db, r), list[1..], batch);
      RanOneMore(env, s, Apply(env, s, list, batch), list, batch, db, rest);
      n := rest + 1;
    } else {
      assert list[..0] == [] && AppliedAll([], batch) == [] && BatchOf([], batch) == [];
    }
  }

  /** One above every batch in the table, and 1 for an empty one. */
  ghost predicate IsNextBatch(records: seq<Record>, batch: nat) {
    && batch >= 1 && (forall r :: r in records ==> r.batch < batch)
    && (batch > 1 ==> exists r :: r in records && r.batch == batch - 1)
  }

  lemma {:induction false} CurrentBatchIsReached(records: seq<Record>)
    ensures CurrentBatch(records) > 0 ==> exists r :: r in records && r.batch == CurrentBatch(records)
  {
    if records != [] {
      CurrentBatchIsReached(records[1..]);
      assert records == [records[0]] + records[1..];
    }
  }

  /** Main result: while a page holds the table, an up runs, in the order of the files, the first of the ".js"
      files that no record names, as many as the step asks for, until a module throws; those that ran are
      recorded under one new batch. */
  lemma UpRunsTheFirstMissing<Db>(env: Env<Db>, s: State<Db>, files: seq<string>, step: Option<int>)
    returns (chosen: seq<string>, batch: nat, n: nat)
    requires |s.records| <= PAGE && NoDuplicates(files)
    ensures KeyOrder.Ascending(chosen) && |chosen| == Asked(|Missing(files, s.records)|, step)
    ensures forall f :: f in chosen ==> f in Missing(files, s.records)
    ensures forall f, g :: f in chosen && g in Missing(files, s.records) && g !in chosen ==> KeyOrder.KeyLess(f, g)
    ensures IsNextBatch(s.records, batch) && RanBatch(env, s, Up(env, s, files, step), chosen, batch, n)
  {
    var p := Pending(files, s.records);
    PendingIsMissing(files, s.records);
    chosen, batch := Chosen(p, step), CurrentBatch(s.records) + 1;
    ChosenIsAPrefix(p, step);
    AscendingHasNoDuplicates(chosen);
    PendingAscends(files, s.records);
    CurrentBatchBounds(s.records);
    CurrentBatchIsReached(s.records);
    forall f | f in chosen ensures f in p {}
    forall k | 0 <= k < |chosen| ensures !Executed(s.records, chosen[k]) {
      assert chosen[k] in p;
    }
    n := ApplyRuns(env, s, chosen, batch);
    UpOnOnePage(env, s, files, step);
  }

  lemma RanAll<Db>(env: Env<Db>, s: State<Db>, t: State<Db>, chosen: seq<string>, batch: nat)
    requires RanBatch(env, s, t, chosen, batch, |chosen|)
    ensures |t.records| == |s.records| + |chosen| && |t.log| == |s.log| + |chosen|
    ensures forall f :: f in chosen ==> Record(f, batch) in t.records
  {
    var added := BatchOf(chosen, batch);
    assert chosen[..|chosen|] == chosen;
    assert |t.records| == |multiset(t.records)| && |s.records| == |multiset(s.records)| && |added| == |multiset(added)|;
    forall f | f in chosen ensures Record(f, batch) in t.records {
      var i :| 0 <= i < |chosen| && chosen[i] == f;
      assert added[i] in multiset(added);
      assert Record(f, batch) in multiset(t.records);
    }
  }

  lemma TableGrows<Db>(env: Env<Db>, s: State<Db>, t: State<Db>, chosen: seq<string>, batch: nat)
    requires RanBatch(env, s, t, chosen, batch, |chosen|)
    ensures forall r :: r in s.records ==> r in t.records
  {
    forall r | r in s.records ensures r in t.records {
      assert r in multiset(s.records);
      assert r in multiset(t.records);
    }
  }

  lemma StillMissing<Db>(env: Env<Db>, s: State<Db>, t: State<Db>, chosen: seq<string>, batch: nat, f: string)
    requires RanBatch(env, s, t, chosen, batch, |chosen|) && forall r :: r in s.records ==> r.name != f
    ensures (forall r :: r in t.records ==> r.name != f) <==> f !in chosen
  {
    RanAll(env, s, t, chosen, batch);
    assert chosen[..|chosen|] == chosen;
    var added := BatchOf(chosen, batch);
    forall r | r in t.records ensures r in s.records || r in added {
      assert r in multiset(t.records);
      assert r in multiset(s.records) || r in multiset(added);
    }
  }

  lemma MissingAfter<Db>(env: Env<Db>, s: State<Db>, t: State<Db>, files: seq<string>, chosen: seq<string>, batch: nat)
    requires RanBatch(env, s, t, chosen, batch, |chosen|)
    ensures Missing(files, t.records) == Missing(files, s.records) - (set f | f in chosen)
  {
    TableGrows(env, s, t, chosen, batch);
    forall f | f in Missing(files, s.records) ensures f in Missing(files, t.records) <==> f !in chosen {
      StillMissing(env, s, t, chosen, batch, f);
    }
  }

  lemma SizeOfRest(all: set<string>, chosen: seq<string>)
    requires KeyOrder.Ascending(chosen) && forall f :: f in chosen ==> f in all
    ensures |all - (set f | f in chosen)| == |all| - |chosen|
  {
    AscendingCount(chosen);
    assert (set f | f in chosen) <= all;
  }

  /** When no module throws, the table and the calls grow by exactly that number, and no file before an applied
      one is left out. */
  lemma UpAddsExactly<Db(!new)>(env: Env<Db>, s: State<Db>, files: seq<string>, step: Option<int>)
    requires NeverThrows(env) && |s.records| <= PAGE && NoDuplicates(files)
    ensures var t, k := Up(env, s, files, step), Asked(|Missing(files, s.records)|, step);
      && |t.records| == |s.records| + k && |t.log| == |s.log| + k
      && |Missing(files, t.records)| == |Missing(files, s.records)| - k
      && forall f, g :: f in Missing(files, s.records) - Missing(files, t.records) && g in Missing(files, t.records)
           ==> KeyOrder.KeyLess(f, g)
  {
    var t := Up(env, s, files, step);
    var chosen, batch, n := UpRunsTheFirstMissing(env, s, files, step);
    RanAll(env, s, t, chosen, batch);
    MissingAfter(env, s, t, files, chosen, batch);
    SizeOfRest(Missing(files, s.records), chosen);
  }
}
