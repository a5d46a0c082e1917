/** The migration manager as a mutable object. */
module MigrationManager {
  import opened Wrappers
  import opened Sorting
  import opened Migrations

  class MigrationManager<Db> {
    const env: Env<Db>
    var records: seq<Record>
    var db: Db
    /** The calls of migration modules that returned. */
    var log: seq<Action>

    ghost function State(): (s: Migrations.State<Db>)
      reads this
    {
      Migrations.State(records, db, log)
    }

    constructor (env: Env<Db>, db: Db)
      ensures State() == Migrations.State([], db, []) && this.env == env
    {
      this.env := env;
      this.db := db;
      records, log := [], [];
    }

    method GetCurrentBatch() returns (batch: nat)
      ensures batch == CurrentBatch(Listed(records))
    {
      var migrations := Listed(records);
      batch := 0;
      assert migrations[|migrations|..] == [];
      for i := |migrations| downto 0
        invariant batch == CurrentBatch(migrations[i..])
      {
        assert migrations[i..][1..] == migrations[i + 1..];
        if migrations[i].batch > batch { batch := migrations[i].batch; }
      }
      assert migrations[0..] == migrations;
    }

    /** Runs the pending migrations; ok is false when a module throws or a record is refused. */
    method Up(files: seq<string>, step: Option<int>) returns (ok: bool, executed: seq<string>)
      modifies this
      ensures State() == Migrations.Up(env, old(State()), files, step)
      ensures executed <= Chosen(Pending(files, Listed(old(records))), step)
      ensures ok <==> executed == Chosen(Pending(files, Listed(old(records))), step)
    {
      var pending := Pending(files, Listed(records));
      if pending == [] {
        assert Migrations.Apply(env, State(), [], CurrentBatch(Listed(records)) + 1) == State();
        return true, [];
      }
      var toRun := Chosen(pending, step);
      var current := GetCurrentBatch();
      ok, executed := RunAll(toRun, current + 1);
    }

    /** Runs and records the given migrations in order, up to the first failure. */
    method RunAll(toRun: seq<string>, batch: nat) returns (ok: bool, executed: seq<string>)
      modifies this
      ensures State() == Migrations.Apply(env, old(State()), toRun, batch)
      ensures executed <= toRun && (ok <==> executed == toRun)
    {
      executed := [];
      assert toRun[0..] == toRun;
      for i := 0 to |toRun|
        invariant executed == toRun[..i]
        invariant Migrations.Apply(env, State(), toRun[i..], batch) == Migrations.Apply(env, old(State()), toRun, batch)
      {
        assert toRun[i..][1..] == toRun[i + 1..];
        var result := env.up(toRun[i], db);
        if result.None? { return false, executed; }
        db := result.value;
        log := log + [Applied(Record(toRun[i], batch))];
        if Executed(records, toRun[i]) { return false, executed; }
        records := Sorting.Insert(ById(), Record(toRun[i], batch), records);
        executed := executed + [toRun[i]];
      }
      ok := true;
    }

    /** Undoes the given records in the given order; ok is false when a module throws. */
    method RollBack(list: seq<Record>) returns (ok: bool, count: nat)
      modifies this
      ensures State() == Migrations.Undo(env, old(State()), list)
      ensures count <= |list| && (ok <==> count == |list|) && |log| == |old(log)| + count
    {
      count := 0;
      assert list[0..] == list;
      for i := 0 to |list|
        invariant count == i && |log| == |old(log)| + i
        invariant Migrations.Undo(env, State(), list[i..]) == Migrations.Undo(env, old(State()), list)
      {
        assert list[i..][1..] == list[i + 1..];
        var result := env.down(list[i].name, db);
        if result.None? { return false, count; }
        db := result.value;
        records := RemoveById(records, list[i].name);
        log := log + [Undone(list[i])];
        count := count + 1;
      }
      ok := true;
    }

    method Down(step: int) returns (ok: bool)
      modifies this
      ensures State() == Migrations.Down(env, old(State()), step)
      ensures ok <==> |log| == |old(log)| + |ToRollBack(Sort(NewestFirst(env), Listed(old(records))), step)|
    {
      var sorted := Sort(NewestFirst(env), Listed(records));
      var done: nat;
      ok, done := RollBack(ToRollBack(sorted, step));
    }

    method Reset() returns (ok: bool)
      modifies this
      ensures State() == Migrations.Reset(env, old(State()))
      ensures ok <==> |log| == |old(log)| + |Sort(NewestFirst(env), Listed(old(records)))|
    {
      var done: nat;
      ok, done := RollBack(Sort(NewestFirst(env), Listed(records)));
    }
  }
}
