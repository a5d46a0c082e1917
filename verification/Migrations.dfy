/** Batched migrations (migration-manager.ts). */
module Migrations {
  import opened Wrappers
  import opened MinMax
  import opened Sorting
  import KeyOrder

  datatype Record = Record(name: string, batch: nat)

  /** What the migration modules do; None stands for a module that throws and changes nothing.
      The comparison is that of localeCompare, by which records are sorted. */
  datatype Env<!Db> = Env(up: (string, Db) -> Option<Db>, down: (string, Db) -> Option<Db>,
      localeLeq: (string, string) -> bool)

  /** A module call that returned. */
  datatype Action = Applied(record: Record) | Undone(record: Record)

  datatype State<Db> = State(records: seq<Record>, db: Db, log: seq<Action>)

  // ---------------------------------------------------------------- the record table

  /** The table keeps its records in the order of their ids, which are the names. */
  function ById(): (Record, Record) -> bool { (a: Record, b: Record) => KeyOrder.KeyLeq(a.name, b.name) }

  function RemoveById(records: seq<Record>, id: string): seq<Record> {
    if records == [] then []
    else if records[0].name == id then records[1..]
    else [records[0]] + RemoveById(records[1..], id)
  }

  /** What a listing without a limit returns. */
  const PAGE: nat := 1000

  /** list() without a limit reads the first page only. */
  function Listed(records: seq<Record>): seq<Record> {
    if |records| <= PAGE then records else records[..PAGE]
  }

  predicate Executed(records: seq<Record>, name: string) {
    records != [] && (records[0].name == name || Executed(records[1..], name))
  }

  function CurrentBatch(records: seq<Record>): nat {
    if records == [] then 0
    else
      var rest := CurrentBatch(records[1..]);
      if records[0].batch > rest then records[0].batch else rest
  }

  /** Newest first: by batch descending, then by name descending. */
  predicate Newer<Db>(env: Env<Db>, a: Record, b: Record) {
    if a.batch != b.batch then b.batch < a.batch else env.localeLeq(b.name, a.name)
  }

  function NewestFirst<Db>(env: Env<Db>): (Record, Record) -> bool { (a: Record, b: Record) => Newer(env, a, b) }

  // ---------------------------------------------------------------- up

  predicate IsMigration(file: string) { |file| >= 3 && file[|file| - 3..] == ".js" }

  function OnlyMigrations(files: seq<string>): seq<string> {
    if files == [] then []
    else (if IsMigration(files[0]) then [files[0]] else []) + OnlyMigrations(files[1..])
  }

  function NotExecuted(files: seq<string>, records: seq<Record>): seq<string> {
    if files == [] then []
    else (if Executed(records, files[0]) then [] else [files[0]]) + NotExecuted(files[1..], records)
  }

  function Pending(files: seq<string>, records: seq<Record>): seq<string> {
    NotExecuted(KeyOrder.SortKeys(OnlyMigrations(files)), records)
  }

  /** s.slice(0, count): a negative count leaves out that many at the end. */
  function SliceLength(length: nat, count: int): (n: nat)
    ensures n <= length
  {
    if count >= length then length else if count >= 0 then count else if length + count >= 0 then length + count else 0
  }

  function Insert<Db>(s: State<Db>, db: Db, r: Record): State<Db> {
    State(Sorting.Insert(ById(), r, s.records), db, s.log + [Applied(r)])
  }

  /** An insert under an id that is taken is refused, after its migration has run, and ends the series. */
  function Refused<Db>(s: State<Db>, db: Db, r: Record): State<Db> {
    State(s.records, db, s.log + [Applied(r)])
  }

  function Apply<Db>(env: Env<Db>, s: State<Db>, names: seq<string>, batch: nat): State<Db>
    decreases |names|
  {
    if names == [] then s
    else
      var db, r := env.up(names[0], s.db), Record(names[0], batch);
      if db.None? then s
      else if Executed(s.records, r.name) then Refused(s, db.value, r)
      else Apply(env, Insert(s, db.value, r), names[1..], batch)
  }

  /** A missing step and step 0 both run everything. */
  function Chosen(pending: seq<string>, step: Option<int>): seq<string> {
    if step.None? || step.value == 0 then pending else pending[..SliceLength(|pending|, step.value)]
  }

  function Up<Db>(env: Env<Db>, s: State<Db>, files: seq<string>, step: Option<int>): State<Db> {
    var listed := Listed(s.records);
    Apply(env, s, Chosen(Pending(files, listed), step), CurrentBatch(listed) + 1)
  }

  // ---------------------------------------------------------------- down and reset

  function Delete<Db>(s: State<Db>, db: Db, r: Record): State<Db> {
    State(RemoveById(s.records, r.name), db, s.log + [Undone(r)])
  }

  function Undo<Db>(env: Env<Db>, s: State<Db>, records: seq<Record>): State<Db>
    decreases |records|
  {
    if records == [] then s
    else
      var db := env.down(records[0].name, s.db);
      if db.None? then s else Undo(env, Delete(s, db.value, records[0]), records[1..])
  }

  function OfBatch(records: seq<Record>, batch: nat): seq<Record> {
    if records == [] then []
    else (if records[0].batch == batch then [records[0]] else []) + OfBatch(records[1..], batch)
  }

  function ToRollBack(sorted: seq<Record>, step: int): seq<Record> {
    if sorted == [] then []
    else
      var last := OfBatch(sorted, sorted[0].batch);
      last[..SliceLength(|last|, step)]
  }

  function Down<Db>(env: Env<Db>, s: State<Db>, step: int): State<Db> {
    Undo(env, s, ToRollBack(Sort(NewestFirst(env), Listed(s.records)), step))
  }

  function Reset<Db>(env: Env<Db>, s: State<Db>): State<Db> {
    Undo(env, s, Sort(NewestFirst(env), Listed(s.records)))
  }

  // ---------------------------------------------------------------- runs

  /** The directory may list other files at every up. */
  datatype Event = UpEvent(files: seq<string>, step: Option<int>) | DownEvent(count: int) | ResetEvent

  function Step<Db>(env: Env<Db>, s: State<Db>, e: Event): State<Db> {
    match e
    case UpEvent(files, step) => Up(env, s, files, step)
    case DownEvent(step) => Down(env, s, step)
    case ResetEvent => Reset(env, s)
  }

  function Run<Db>(env: Env<Db>, db: Db, events: seq<Event>): State<Db> {
    if events == [] then State([], db, []) else Step(env, Run(env, db, events[..|events| - 1]), events[|events| - 1])
  }

  // ---------------------------------------------------------------- stack discipline

  /** The records that a log leaves applied, newest first; None if some call undid another than the newest. */
  function StackOf(log: seq<Action>): Option<seq<Record>> {
    if log == [] then Some([])
    else
      var stack := StackOf(log[..|log| - 1]);
      match log[|log| - 1]
      case Applied(r) => if stack.None? then None else Some([r] + stack.value)
      case Undone(r) => if stack.None? || stack.value == [] || stack.value[0] != r then None else Some(stack.value[1..])
  }

  ghost predicate DistinctNames(records: seq<Record>) {
    forall i, j :: 0 <= i < j < |records| ==> records[i].name != records[j].name
  }

  /** On these names the order of the records is the order of the files. */
  ghost predicate Agree<Db>(env: Env<Db>, names: set<string>) {
    forall a, b :: a in names && b in names && KeyOrder.KeyLess(a, b) ==> !env.localeLeq(b, a)
  }

  /** The stack is strictly sorted newest first and holds exactly the records of the table. */
  ghost predicate IsStack<Db>(env: Env<Db>, names: set<string>, records: seq<Record>, stack: seq<Record>) {
    && multiset(records) == multiset(stack)
    && SortedBy(NewestFirst(env), stack)
    && DistinctNames(stack)
    && forall i :: 0 <= i < |stack| ==> stack[i].name in names
  }

  ghost predicate Disciplined<Db>(env: Env<Db>, names: set<string>, s: State<Db>) {
    StackOf(s.log).Some? && IsStack(env, names, s.records, StackOf(s.log).value)
  }

  lemma NewestFirstIsOrder<Db>(env: Env<Db>)
    requires TotalPreorder(env.localeLeq)
    ensures TotalPreorder(NewestFirst(env))
  {}

  lemma LocaleIsAntisymmetric<Db>(env: Env<Db>, names: set<string>, a: string, b: string)
    requires Agree(env, names) && a in names && b in names && env.localeLeq(a, b) && env.localeLeq(b, a)
    ensures a == b
  {
    KeyOrder.KeyLessTotal(a, b);
  }

  lemma {:induction false} ExecutedMeans(records: seq<Record>, name: string)
    ensures Executed(records, name) <==> exists r :: r in records && r.name == name
  {
    if records != [] {
      ExecutedMeans(records[1..], name);
      assert records == [records[0]] + records[1..];
    }
  }

  lemma {:induction false} CurrentBatchBounds(records: seq<Record>)
    ensures forall r :: r in records ==> r.batch <= CurrentBatch(records)
  {
    if records != [] {
      CurrentBatchBounds(records[1..]);
      assert records == [records[0]] + records[1..];
    }
  }

  lemma SameMembers<Db>(env: Env<Db>, names: set<string>, records: seq<Record>, stack: seq<Record>)
    requires IsStack(env, names, records, stack)
    ensures forall r :: r in records <==> r in stack
  {
    forall r ensures r in records <==> r in stack {
      assert r in records <==> r in multiset(records);
      assert r in stack <==> r in multiset(stack);
    }
  }

  lemma StackHasNoDuplicates(stack: seq<Record>)
    requires DistinctNames(stack)
    ensures NoDuplicates(stack)
  {}

  /** Sorting the table newest first gives the stack. */
  lemma SortedTableIsTheStack<Db>(env: Env<Db>, names: set<string>, records: seq<Record>, stack: seq<Record>)
    requires TotalPreorder(env.localeLeq) && Agree(env, names) && IsStack(env, names, records, stack)
    ensures Sort(NewestFirst(env), records) == stack
  {
    var leq := NewestFirst(env);
    NewestFirstIsOrder(env);
    SortSorts(leq, records);
    SortPermutes(leq, records);
    StackHasNoDuplicates(stack);
    SameMultisetKeepsDistinct(stack, Sort(leq, records));
    SameMembers(env, names, records, stack);
    forall x, y | x in Sort(leq, records) && y in Sort(leq, records) && leq(x, y) && leq(y, x) ensures x == y {
      assert x in stack && y in stack;
      LocaleIsAntisymmetric(env, names, x.name, y.name);
    }
    SortedUnique(leq, Sort(leq, records), stack);
  }

  lemma SameMultisetKeepsDistinct<T>(a: seq<T>, b: seq<T>)
    requires NoDuplicates(a) && multiset(a) == multiset(b)
    ensures NoDuplicates(b)
  {
    DistinctMeansMultiplicityOne(a);
    DistinctMeansMultiplicityOne(b);
    forall x | x in b ensures multiset(b)[x] == 1 {
      assert x in multiset(b);
      assert x in a;
    }
  }

  // ---------------------------------------------------------------- up keeps the discipline

  /** Each name comes after everything that the stack holds. */
  ghost predicate Above(stack: seq<Record>, names: seq<string>, batch: nat) {
    forall i, k :: 0 <= i < |stack| && 0 <= k < |names| ==>
      stack[i].name != names[k] &&
      (stack[i].batch < batch || (stack[i].batch == batch && KeyOrder.KeyLess(stack[i].name, names[k])))
  }

  lemma PushKeepsStack<Db>(env: Env<Db>, names: set<string>, records: seq<Record>, stack: seq<Record>, r: Record)
    requires TotalPreorder(env.localeLeq) && Agree(env, names) && IsStack(env, names, records, stack)
    requires r.name in names && Above(stack, [r.name], r.batch)
    ensures IsStack(env, names, Sorting.Insert(ById(), r, records), [r] + stack)
  {
    InsertPermutes(ById(), r, records);
    var leq := NewestFirst(env);
    var pushed := [r] + stack;
    forall i, j | 0 <= i < j < |pushed| ensures leq(pushed[i], pushed[j]) && pushed[i].name != pushed[j].name {
      if i == 0 {
        assert stack[j - 1].name in names && [r.name][0] == r.name;
        assert env.localeLeq(stack[j - 1].name, r.name) || env.localeLeq(r.name, stack[j - 1].name);
      }
    }
  }

  lemma AboveAfterPush(stack: seq<Record>, names: seq<string>, batch: nat)
    requires KeyOrder.Ascending(names) && names != [] && Above(stack, names, batch)
    ensures Above([Record(names[0], batch)] + stack, names[1..], batch)
  {
    var pushed := [Record(names[0], batch)] + stack;
    forall i, k | 0 <= i < |pushed| && 0 <= k < |names[1..]|
      ensures pushed[i].name != names[1..][k] &&
              (pushed[i].batch < batch || (pushed[i].batch == batch && KeyOrder.KeyLess(pushed[i].name, names[1..][k])))
    {
      assert names[1..][k] == names[k + 1];
      if i == 0 { KeyOrder.KeyLessIrreflexive(names[0]); }
    }
  }

  ghost predicate AllIn(list: seq<string>, names: set<string>) {
    forall i :: 0 <= i < |list| ==> list[i] in names
  }

  lemma LogAfter(log: seq<Action>, a: Action)
    ensures (log + [a])[..|log + [a]| - 1] == log
  {}

  /** A name above the stack is not in the table. */
  lemma AboveIsNotExecuted<Db>(env: Env<Db>, names: set<string>, records: seq<Record>, stack: seq<Record>, r: Record)
    requires IsStack(env, names, records, stack) && Above(stack, [r.name], r.batch)
    ensures !Executed(records, r.name)
  {
    SameMembers(env, names, records, stack);
    ExecutedMeans(records, r.name);
    forall x | x in stack ensures x.name != r.name {
      assert [r.name][0] == r.name;
    }
  }

  lemma {:induction false} ApplyKeepsDiscipline<Db>(
      env: Env<Db>, names: set<string>, s: State<Db>, list: seq<string>, batch: nat)
    requires TotalPreorder(env.localeLeq) && Agree(env, names) && Disciplined(env, names, s)
    requires KeyOrder.Ascending(list) && AllIn(list, names) && Above(StackOf(s.log).value, list, batch)
    ensures Disciplined(env, names, Apply(env, s, list, batch))
    decreases |list|
  {
    if list != [] && env.up(list[0], s.db).Some? {
      var stack, r := StackOf(s.log).value, Record(list[0], batch);
      assert Above(stack, [r.name], batch) by { assert [r.name][0] == list[0]; }
      AboveIsNotExecuted(env, names, s.records, stack, r);
      PushKeepsStack(env, names, s.records, stack, r);
      LogAfter(s.log, Applied(r));
      AboveAfterPush(stack, list, batch);
      ApplyKeepsDiscipline(env, names, Insert(s, env.up(list[0], s.db).value, r), list[1..], batch);
    }
  }

  lemma {:induction false} OnlyMigrationsAreFiles(files: seq<string>)
    requires NoDuplicates(files)
    ensures NoDuplicates(OnlyMigrations(files)) && forall f :: f in OnlyMigrations(files) ==> f in files
  {
    if files != [] {
      OnlyMigrationsAreFiles(files[1..]);
      assert files == [files[0]] + files[1..];
      assert files[0] !in files[1..];
    }
  }

  lemma {:induction false} NotExecutedAscends(files: seq<string>, records: seq<Record>)
    requires KeyOrder.Ascending(files)
    ensures KeyOrder.Ascending(NotExecuted(files, records))
    ensures forall f :: f in NotExecuted(files, records) ==> f in files && !Executed(records, f)
  {
    if files != [] {
      NotExecutedAscends(files[1..], records);
      var rest := NotExecuted(files[1..], records);
      assert files == [files[0]] + files[1..];
      forall j | 0 <= j < |rest| ensures KeyOrder.KeyLess(files[0], rest[j]) {
        assert rest[j] in rest;
        var k :| 0 <= k < |files[1..]| && files[1..][k] == rest[j];
        assert files[k + 1] == rest[j];
      }
    }
  }

  lemma PendingAscends(files: seq<string>, records: seq<Record>)
    requires NoDuplicates(files)
    ensures KeyOrder.Ascending(Pending(files, records))
    ensures forall f :: f in Pending(files, records) ==> f in files && !Executed(records, f)
  {
    OnlyMigrationsAreFiles(files);
    KeyOrder.SortKeysAscends(OnlyMigrations(files));
    SortPermutes((a: string, b: string) => KeyOrder.KeyLeq(a, b), OnlyMigrations(files));
    NotExecutedAscends(KeyOrder.SortKeys(OnlyMigrations(files)), records);
  }

  /** A new batch of files that were not executed comes after every record. */
  lemma NewBatchIsAbove(records: seq<Record>, stack: seq<Record>, list: seq<string>)
    requires forall i :: 0 <= i < |stack| ==> stack[i] in records
    requires forall k :: 0 <= k < |list| ==> !Executed(records, list[k])
    ensures Above(stack, list, CurrentBatch(records) + 1)
  {
    CurrentBatchBounds(records);
    forall i, k | 0 <= i < |stack| && 0 <= k < |list|
      ensures stack[i].name != list[k] && stack[i].batch < CurrentBatch(records) + 1
    {
      ExecutedMeans(records, list[k]);
    }
  }

  lemma PrefixAscends(files: seq<string>, chosen: seq<string>)
    requires KeyOrder.Ascending(files) && chosen <= files
    ensures KeyOrder.Ascending(chosen) && forall f :: f in chosen ==> f in files
  {}

  /** What an up runs: files in order that the table does not list. */
  lemma ChosenAreNew(files: seq<string>, records: seq<Record>, step: Option<int>, names: set<string>)
    requires NoDuplicates(files) && AllIn(files, names)
    ensures var chosen := Chosen(Pending(files, records), step);
      && KeyOrder.Ascending(chosen) && AllIn(chosen, names)
      && forall k :: 0 <= k < |chosen| ==> !Executed(records, chosen[k])
  {
    var pending := Pending(files, records);
    var chosen := Chosen(pending, step);
    PendingAscends(files, records);
    PrefixAscends(pending, chosen);
    forall k | 0 <= k < |chosen| ensures chosen[k] in names && !Executed(records, chosen[k]) {
      assert chosen[k] in chosen;
      assert chosen[k] in pending;
    }
  }

  lemma NewBatchKeepsDiscipline<Db>(env: Env<Db>, names: set<string>, s: State<Db>, list: seq<string>)
    requires TotalPreorder(env.localeLeq) && Agree(env, names) && Disciplined(env, names, s)
    requires KeyOrder.Ascending(list) && AllIn(list, names)
    requires forall k :: 0 <= k < |list| ==> !Executed(s.records, list[k])
    ensures Disciplined(env, names, Apply(env, s, list, CurrentBatch(s.records) + 1))
  {
    SameMembers(env, names, s.records, StackOf(s.log).value);
    NewBatchIsAbove(s.records, StackOf(s.log).value, list);
    ApplyKeepsDiscipline(env, names, s, list, CurrentBatch(s.records) + 1);
  }

  /** While one page holds the table, listing it makes no difference. */
  lemma UpOnOnePage<Db>(env: Env<Db>, s: State<Db>, files: seq<string>, step: Option<int>)
    requires |s.records| <= PAGE
    ensures Up(env, s, files, step) ==
            Apply(env, s, Chosen(Pending(files, s.records), step), CurrentBatch(s.records) + 1)
  {
    assert Listed(s.records) == s.records;
  }

  lemma UpKeepsDiscipline<Db>(env: Env<Db>, names: set<string>, s: State<Db>, files: seq<string>, step: Option<int>)
    requires TotalPreorder(env.localeLeq) && Agree(env, names) && Disciplined(env, names, s)
    requires NoDuplicates(files) && AllIn(files, names) && |s.records| <= PAGE
    ensures Disciplined(env, names, Up(env, s, files, step))
  {
    var chosen := Chosen(Pending(files, s.records), step);
    ChosenAreNew(files, s.records, step, names);
    NewBatchKeepsDiscipline(env, names, s, chosen);
    UpOnOnePage(env, s, files, step);
  }

  // ---------------------------------------------------------------- down and reset keep the discipline

  lemma {:induction false} RemoveByIdRemoves(records: seq<Record>, r: Record)
    requires r in records && forall x :: x in records && x.name == r.name ==> x == r
    ensures multiset(RemoveById(records, r.name)) == multiset(records) - multiset{r}
  {
    assert records == [records[0]] + records[1..];
    if records[0].name == r.name {
      HeadIsMember(records);
    } else {
      RemoveByIdRemoves(records[1..], r);
    }
  }

  lemma NewestIsUnique(stack: seq<Record>)
    requires DistinctNames(stack) && stack != []
    ensures stack[0] in stack && forall x :: x in stack && x.name == stack[0].name ==> x == stack[0]
  {}

  lemma TailOfStack<Db>(env: Env<Db>, names: set<string>, stack: seq<Record>)
    requires IsStack(env, names, stack, stack) && stack != []
    ensures IsStack(env, names, stack[1..], stack[1..])
    ensures multiset(stack[1..]) == multiset(stack) - multiset{stack[0]}
  {
    assert stack == [stack[0]] + stack[1..];
  }

  lemma PopKeepsStack<Db>(env: Env<Db>, names: set<string>, records: seq<Record>, stack: seq<Record>)
    requires IsStack(env, names, records, stack) && stack != []
    ensures IsStack(env, names, RemoveById(records, stack[0].name), stack[1..])
  {
    SameMembers(env, names, records, stack);
    NewestIsUnique(stack);
    RemoveByIdRemoves(records, stack[0]);
    TailOfStack(env, names, stack);
  }

  function UndoneAll(records: seq<Record>): seq<Action> {
    if records == [] then [] else [Undone(records[0])] + UndoneAll(records[1..])
  }

  /** From s to r, the n newest records were undone, newest first, and nothing else was done. */
  ghost predicate Undid<Db>(s: State<Db>, r: State<Db>, n: nat) {
    && StackOf(s.log).Some? && StackOf(r.log).Some?
    && n <= |StackOf(s.log).value|
    && r.log == s.log + UndoneAll(StackOf(s.log).value[..n])
    && StackOf(r.log).value == StackOf(s.log).value[n..]
  }

  lemma UndidOneMore<Db>(s: State<Db>, t: State<Db>, r: State<Db>, n: nat)
    requires StackOf(s.log).Some? && StackOf(s.log).value != []
    requires t.log == s.log + [Undone(StackOf(s.log).value[0])] && StackOf(t.log) == Some(StackOf(s.log).value[1..])
    requires Undid(t, r, n)
    ensures Undid(s, r, n + 1)
  {
    var stack := StackOf(s.log).value;
    assert stack[..n + 1][1..] == stack[1..][..n];
    assert UndoneAll(stack[..n + 1]) == [Undone(stack[0])] + UndoneAll(stack[1..][..n]);
  }

  lemma {:induction false} UndoKeepsDiscipline<Db>(env: Env<Db>, names: set<string>, s: State<Db>, list: seq<Record>)
    requires Disciplined(env, names, s) && list <= StackOf(s.log).value
    ensures Disciplined(env, names, Undo(env, s, list))
    decreases |list|
  {
    if list != [] && env.down(list[0].name, s.db).Some? {
      LogAfter(s.log, Undone(list[0]));
      PopKeepsStack(env, names, s.records, StackOf(s.log).value);
      UndoKeepsDiscipline(env, names, Delete(s, env.down(list[0].name, s.db).value, list[0]), list[1..]);
    }
  }

  lemma {:induction false} UndoUndid<Db>(env: Env<Db>, s: State<Db>, list: seq<Record>) returns (n: nat)
    requires StackOf(s.log).Some? && list <= StackOf(s.log).value
    ensures n <= |list| && Undid(s, Undo(env, s, list), n)
    ensures n < |list| ==> env.down(list[n].name, Undo(env, s, list).db).None?
    decreases |list|
  {
    n := 0;
    if list != [] && env.down(list[0].name, s.db).Some? {
      var t := Delete(s, env.down(list[0].name, s.db).value, list[0]);
      LogAfter(s.log, Undone(list[0]));
      var rest := UndoUndid(env, t, list[1..]);
      UndidOneMore(s, t, Undo(env, s, list), rest);
      n := rest + 1;
    } else {
      var stack := StackOf(s.log).value;
      assert stack[..0] == [] && stack[0..] == stack;
    }
  }

  lemma {:induction false} OfBatchIsAPrefix<Db>(env: Env<Db>, sorted: seq<Record>, batch: nat)
    requires SortedBy(NewestFirst(env), sorted) && forall i :: 0 <= i < |sorted| ==> sorted[i].batch <= batch
    ensures OfBatch(sorted, batch) <= sorted
    ensures forall i :: 0 <= i < |sorted| ==> (sorted[i].batch == batch <==> i < |OfBatch(sorted, batch)|)
  {
    if sorted != [] {
      OfBatchIsAPrefix(env, sorted[1..], batch);
      if sorted[0].batch != batch {
        forall i | 0 <= i < |sorted| ensures sorted[i].batch != batch {
          if i > 0 { assert NewestFirst(env)(sorted[0], sorted[i]); }
        }
        assert |sorted| > 1 ==> sorted[1..][0] == sorted[1];
      } else {
        forall i | 0 < i < |sorted| ensures sorted[i].batch == batch <==> i < |OfBatch(sorted, batch)| {
          assert sorted[1..][i - 1] == sorted[i];
        }
      }
    }
  }

  lemma RollBackIsAPrefix<Db>(env: Env<Db>, sorted: seq<Record>, step: int)
    requires SortedBy(NewestFirst(env), sorted)
    ensures ToRollBack(sorted, step) <= sorted
    ensures forall i :: 0 <= i < |ToRollBack(sorted, step)| ==> sorted[i].batch == sorted[0].batch
  {
    LastBatchIsAPrefix(env, sorted);
  }

  /** Main result: while the table fits a page, a down undoes a suffix of the order of application, in
      reverse, inside the last batch, whose size is the second result; unless a module throws, it is as long
      as slice(0, step) of that batch. */
  lemma DownUndoesTheNewest<Db>(env: Env<Db>, names: set<string>, s: State<Db>, step: int) returns (n: nat, size: nat)
    requires TotalPreorder(env.localeLeq) && Agree(env, names) && Disciplined(env, names, s)
    requires |s.records| <= PAGE
    ensures Disciplined(env, names, Down(env, s, step)) && Undid(s, Down(env, s, step), n)
    ensures var stack := StackOf(s.log).value;
      var asked := if step >= 0 then Min(step, size) else Max(0, size + step);
      && n <= asked <= size <= |stack|
      && (n < asked ==> env.down(stack[n].name, Down(env, s, step).db).None?)
      && (forall i :: 0 <= i < |stack| ==> (stack[i].batch == stack[0].batch <==> i < size))
  {
    var stack := StackOf(s.log).value;
    SortedTableIsTheStack(env, names, s.records, stack);
    RollBackIsAPrefix(env, stack, step);
    LastBatchIsAPrefix(env, stack);
    size := if stack == [] then 0 else |OfBatch(stack, stack[0].batch)|;
    UndoKeepsDiscipline(env, names, s, ToRollBack(stack, step));
    n := UndoUndid(env, s, ToRollBack(stack, step));
  }

  lemma LastBatchIsAPrefix<Db>(env: Env<Db>, sorted: seq<Record>)
    requires SortedBy(NewestFirst(env), sorted)
    ensures sorted != [] ==> OfBatch(sorted, sorted[0].batch) <= sorted
    ensures forall i :: 0 <= i < |sorted| ==>
      (sorted[i].batch == sorted[0].batch <==> i < |OfBatch(sorted, sorted[0].batch)|)
  {
    if sorted != [] {
      forall i | 0 <= i < |sorted| ensures sorted[i].batch <= sorted[0].batch {
        if i > 0 { assert NewestFirst(env)(sorted[0], sorted[i]); }
      }
      OfBatchIsAPrefix(env, sorted, sorted[0].batch);
    }
  }

  lemma ResetUndoesAll<Db>(env: Env<Db>, names: set<string>, s: State<Db>) returns (n: nat)
    requires TotalPreorder(env.localeLeq) && Agree(env, names) && Disciplined(env, names, s)
    requires |s.records| <= PAGE
    ensures Disciplined(env, names, Reset(env, s)) && Undid(s, Reset(env, s), n)
    ensures n < |StackOf(s.log).value| ==> env.down(StackOf(s.log).value[n].name, Reset(env, s).db).None?
  {
    SortedTableIsTheStack(env, names, s.records, StackOf(s.log).value);
    UndoKeepsDiscipline(env, names, s, StackOf(s.log).value);
    n := UndoUndid(env, s, StackOf(s.log).value);
  }

  // ---------------------------------------------------------------- every run

  /** A directory lists each of its files once. */
  ghost predicate Within(events: seq<Event>, names: set<string>) {
    forall i :: 0 <= i < |events| && events[i].UpEvent? ==>
        NoDuplicates(events[i].files) && AllIn(events[i].files, names)
  }

  lemma StepKeepsDiscipline<Db>(env: Env<Db>, names: set<string>, s: State<Db>, e: Event)
    requires TotalPreorder(env.localeLeq) && Agree(env, names) && Disciplined(env, names, s) && |s.records| <= PAGE
    requires e.UpEvent? ==> NoDuplicates(e.files) && AllIn(e.files, names)
    ensures Disciplined(env, names, Step(env, s, e))
  {
    match e
    case UpEvent(files, step) => UpKeepsDiscipline(env, names, s, files, step);
    case DownEvent(count) => var _, _ := DownUndoesTheNewest(env, names, s, count);
    case ResetEvent => var _ := ResetUndoesAll(env, names, s);
  }

  /** Whenever the table is read, one page holds it. */
  predicate OnePage<Db>(env: Env<Db>, db: Db, events: seq<Event>) {
    events == [] ||
    var before := events[..|events| - 1];
    OnePage(env, db, before) && |Run(env, db, before).records| <= PAGE
  }

  lemma {:induction false} RunIsDisciplined<Db>(env: Env<Db>, names: set<string>, db: Db, events: seq<Event>)
    requires TotalPreorder(env.localeLeq) && Agree(env, names) && Within(events, names) && OnePage(env, db, events)
    ensures Disciplined(env, names, Run(env, db, events))
  {
    if events != [] {
      var before := events[..|events| - 1];
      RunIsDisciplined(env, names, db, before);
      StepKeepsDiscipline(env, names, Run(env, db, before), events[|events| - 1]);
    }
  }

  /** Main result: on every run whose table fits a page when it is read, the records sorted by batch and
      name are in the order of application. */
  lemma RecordsAreInOrderOfApplication<Db>(env: Env<Db>, names: set<string>, db: Db, events: seq<Event>)
    requires TotalPreorder(env.localeLeq) && Agree(env, names) && Within(events, names) && OnePage(env, db, events)
    ensures var s := Run(env, db, events); StackOf(s.log) == Some(Sort(NewestFirst(env), s.records))
  {
    RunIsDisciplined(env, names, db, events);
    var s := Run(env, db, events);
    SortedTableIsTheStack(env, names, s.records, StackOf(s.log).value);
  }

  function NamesOf(records: seq<Record>): (names: set<string>)
    ensures forall n :: n in names <==> exists i :: 0 <= i < |records| && records[i].name == n
  {
    set i | 0 <= i < |records| :: records[i].name
  }

  lemma NamesWithLast(records: seq<Record>)
    requires records != []
    ensures var n := |records| - 1;
      NamesOf(records) == NamesOf(records[..n]) + {records[n].name}
  {
    var n := |records| - 1;
    forall x | x in NamesOf(records) ensures x in NamesOf(records[..n]) + {records[n].name} {
      var i :| 0 <= i < |records| && records[i].name == x;
      if i < n { assert records[..n][i].name == x; }
    }
  }

  lemma LastNameIsNew(records: seq<Record>)
    requires DistinctNames(records) && records != []
    ensures records[|records| - 1].name !in NamesOf(records[..|records| - 1])
  {
    var n := |records| - 1;
    forall i | 0 <= i < |records[..n]| ensures records[..n][i].name != records[n].name {
      assert records[..n][i] == records[i];
    }
  }

  lemma {:induction false} DistinctNamesCount(records: seq<Record>)
    requires DistinctNames(records)
    ensures |NamesOf(records)| == |records|
  {
    if records != [] {
      DistinctNamesCount(records[..|records| - 1]);
      LastNameIsNew(records);
      NamesWithLast(records);
    }
  }

  lemma SubsetIsNotLarger<T>(a: set<T>, b: set<T>)
    requires a <= b
    ensures |a| <= |b|
  {
    assert b == a + (b - a);
  }

  lemma TableIsNotLargerThanNames<Db>(env: Env<Db>, names: set<string>, s: State<Db>)
    requires Disciplined(env, names, s)
    ensures |s.records| <= |names|
  {
    var stack := StackOf(s.log).value;
    assert |s.records| == |multiset(s.records)| == |stack|;
    DistinctNamesCount(stack);
    SubsetIsNotLarger(NamesOf(stack), names);
  }

  /** A page holds the table on every run over no more names than fit a page. */
  lemma {:induction false} FewNamesFitAPage<Db>(env: Env<Db>, names: set<string>, db: Db, events: seq<Event>)
    requires TotalPreorder(env.localeLeq) && Agree(env, names) && Within(events, names) && |names| <= PAGE
    ensures OnePage(env, db, events)
  {
    if events != [] {
      var before := events[..|events| - 1];
      FewNamesFitAPage(env, names, db, before);
      RunIsDisciplined(env, names, db, before);
      TableIsNotLargerThanNames(env, names, Run(env, db, before));
    }
  }

  // ---------------------------------------------------------------- the database

  /** Every down undoes its own up. */
  ghost predicate Inverse<Db(!new)>(env: Env<Db>) {
    forall name, db :: env.up(name, db).Some? ==> env.down(name, env.up(name, db).value) == Some(db)
  }

  /** Only the migrations of the stack, oldest first. */
  function Replay<Db>(env: Env<Db>, db: Db, stack: seq<Record>): Option<Db> {
    if stack == [] then Some(db)
    else
      var before := Replay(env, db, stack[1..]);
      if before.None? then None else env.up(stack[0].name, before.value)
  }

  ghost predicate IsReplay<Db(!new)>(env: Env<Db>, start: Db, s: State<Db>) {
    StackOf(s.log).Some? && Replay(env, start, StackOf(s.log).value) == Some(s.db)
  }

  lemma PushIsReplay<Db(!new)>(env: Env<Db>, start: Db, s: State<Db>, r: Record, t: State<Db>)
    requires IsReplay(env, start, s) && env.up(r.name, s.db) == Some(t.db) && t.log == s.log + [Applied(r)]
    ensures IsReplay(env, start, t)
  {
    var stack := StackOf(s.log).value;
    LogAfter(s.log, Applied(r));
    assert StackOf(t.log) == Some([r] + stack);
    assert ([r] + stack)[1..] == stack;
  }

  lemma {:induction false} ApplyIsReplay<Db(!new)>(env: Env<Db>, start: Db, s: State<Db>, list: seq<string>, batch: nat)
    requires IsReplay(env, start, s)
    ensures IsReplay(env, start, Apply(env, s, list, batch))
    decreases |list|
  {
    if list != [] {
      var db, r := env.up(list[0], s.db), Record(list[0], batch);
      if db.Some? && Executed(s.records, r.name) {
        PushIsReplay(env, start, s, r, Refused(s, db.value, r));
      } else if db.Some? {
        PushIsReplay(env, start, s, r, Insert(s, db.value, r));
        ApplyIsReplay(env, start, Insert(s, db.value, r), list[1..], batch);
      }
    }
  }

  lemma PopIsReplay<Db(!new)>(env: Env<Db>, start: Db, s: State<Db>, t: State<Db>)
    requires Inverse(env) && IsReplay(env, start, s) && StackOf(s.log).value != []
    requires env.down(StackOf(s.log).value[0].name, s.db) == Some(t.db)
    requires t.log == s.log + [Undone(StackOf(s.log).value[0])]
    ensures IsReplay(env, start, t) && StackOf(t.log).value == StackOf(s.log).value[1..]
  {
    LogAfter(s.log, Undone(StackOf(s.log).value[0]));
  }

  lemma DownSucceeds<Db(!new)>(env: Env<Db>, start: Db, s: State<Db>)
    requires Inverse(env) && IsReplay(env, start, s) && StackOf(s.log).value != []
    ensures env.down(StackOf(s.log).value[0].name, s.db).Some?
  {
    var stack := StackOf(s.log).value;
    assert env.up(stack[0].name, Replay(env, start, stack[1..]).value) == Some(s.db);
  }

  lemma {:induction false} UndoIsReplay<Db(!new)>(env: Env<Db>, start: Db, s: State<Db>, list: seq<Record>)
    requires Inverse(env) && IsReplay(env, start, s) && list <= StackOf(s.log).value
    ensures var r := Undo(env, s, list);
      IsReplay(env, start, r) && StackOf(r.log).value == StackOf(s.log).value[|list|..]
    decreases |list|
  {
    if list != [] {
      DownSucceeds(env, start, s);
      var t := Delete(s, env.down(list[0].name, s.db).value, list[0]);
      PopIsReplay(env, start, s, t);
      UndoIsReplay(env, start, t, list[1..]);
    }
  }

  lemma UpIsReplay<Db(!new)>(env: Env<Db>, start: Db, s: State<Db>, files: seq<string>, step: Option<int>)
    requires IsReplay(env, start, s)
    ensures IsReplay(env, start, Up(env, s, files, step))
  {
    var listed := Listed(s.records);
    ApplyIsReplay(env, start, s, Chosen(Pending(files, listed), step), CurrentBatch(listed) + 1);
  }

  lemma DownIsReplay<Db(!new)>(env: Env<Db>, names: set<string>, start: Db, s: State<Db>, count: int)
    requires TotalPreorder(env.localeLeq) && Agree(env, names) && Disciplined(env, names, s) && |s.records| <= PAGE
    requires Inverse(env) && IsReplay(env, start, s)
    ensures IsReplay(env, start, Down(env, s, count))
  {
    var stack := StackOf(s.log).value;
    SortedTableIsTheStack(env, names, s.records, stack);
    RollBackIsAPrefix(env, stack, count);
    UndoIsReplay(env, start, s, ToRollBack(stack, count));
  }

  lemma ResetIsReplay<Db(!new)>(env: Env<Db>, names: set<string>, start: Db, s: State<Db>)
    requires TotalPreorder(env.localeLeq) && Agree(env, names) && Disciplined(env, names, s) && |s.records| <= PAGE
    requires Inverse(env) && IsReplay(env, start, s)
    ensures IsReplay(env, start, Reset(env, s)) && StackOf(Reset(env, s).log) == Some([])
  {
    var stack := StackOf(s.log).value;
    SortedTableIsTheStack(env, names, s.records, stack);
    UndoIsReplay(env, start, s, stack);
  }

  lemma StepIsReplay<Db(!new)>(env: Env<Db>, names: set<string>, start: Db, s: State<Db>, e: Event)
    requires TotalPreorder(env.localeLeq) && Agree(env, names) && Disciplined(env, names, s) && |s.records| <= PAGE
    requires Inverse(env) && IsReplay(env, start, s)
    ensures IsReplay(env, start, Step(env, s, e))
  {
    match e
    case UpEvent(files, step) => UpIsReplay(env, start, s, files, step);
    case DownEvent(count) => DownIsReplay(env, names, start, s, count);
    case ResetEvent => ResetIsReplay(env, names, start, s);
  }

  /** Main result: while the table fits a page and downs invert ups, the database is at every moment what the
      recorded migrations alone, applied in order to the initial database, give: whatever was applied and
      undone before leaves no trace. */
  lemma {:induction false} DatabaseIsTheReplay<Db(!new)>(env: Env<Db>, names: set<string>, db: Db, events: seq<Event>)
    requires TotalPreorder(env.localeLeq) && Agree(env, names) && Within(events, names) && OnePage(env, db, events)
    requires Inverse(env)
    ensures IsReplay(env, db, Run(env, db, events))
  {
    if events != [] {
      var before := events[..|events| - 1];
      DatabaseIsTheReplay(env, names, db, before);
      RunIsDisciplined(env, names, db, before);
      StepIsReplay(env, names, db, Run(env, db, before), events[|events| - 1]);
    }
  }

  /** In particular a reset always succeeds and returns the database to its initial state. */
  lemma ResetRestoresTheDatabase<Db(!new)>(env: Env<Db>, names: set<string>, db: Db, events: seq<Event>)
    requires TotalPreorder(env.localeLeq) && Agree(env, names) && Within(events, names) && OnePage(env, db, events)
    requires Inverse(env) && |Run(env, db, events).records| <= PAGE
    ensures var s := Reset(env, Run(env, db, events)); s.db == db && s.records == []
  {
    var s := Run(env, db, events);
    RunIsDisciplined(env, names, db, events);
    DatabaseIsTheReplay(env, names, db, events);
    ResetIsReplay(env, names, db, s);
    var _ := ResetUndoesAll(env, names, s);
    assert multiset(Reset(env, s).records) == multiset([]);
    assert |Reset(env, s).records| == |multiset(Reset(env, s).records)|;
  }

  // ---------------------------------------------------------------- where the discipline ends

  ghost predicate NeverThrows<Db(!new)>(env: Env<Db>) {
    forall name, db :: env.up(name, db).Some? && env.down(name, db).Some?
  }

  ghost predicate AlwaysLastInFirstOut<Db(!new)>(env: Env<Db>, names: set<string>, db: Db) {
    forall events: seq<Event> :: Within(events, names) ==> StackOf(Run(env, db, events).log).Some?
  }

  ghost predicate AllMigrations(files: seq<string>) {
    forall i :: 0 <= i < |files| ==> IsMigration(files[i])
  }

  /** The records of one batch in the order of their files. */
  function BatchOf(files: seq<string>, batch: nat): (records: seq<Record>)
    ensures |records| == |files| && forall i :: 0 <= i < |files| ==> records[i] == Record(files[i], batch)
  {
    seq(|files|, i requires 0 <= i < |files| => Record(files[i], batch))
  }

  lemma {:induction false} MigrationsAreKept(files: seq<string>)
    requires AllMigrations(files)
    ensures OnlyMigrations(files) == files
  {
    if files != [] { MigrationsAreKept(files[1..]); }
  }

  lemma {:induction false} SortedIsSorted<T>(leq: (T, T) -> bool, s: seq<T>)
    requires SortedBy(leq, s)
    ensures Sort(leq, s) == s
  {
    if s != [] {
      SortedIsSorted(leq, s[1..]);
      assert |s| > 1 ==> leq(s[0], s[1]);
    }
  }

  lemma {:induction false} NoneExecuted(files: seq<string>)
    ensures NotExecuted(files, []) == files
  {
    if files != [] { NoneExecuted(files[1..]); }
  }

  lemma AllArePending(files: seq<string>)
    requires KeyOrder.Ascending(files) && AllMigrations(files)
    ensures Pending(files, []) == files
  {
    MigrationsAreKept(files);
    SortedIsSorted((a: string, b: string) => KeyOrder.KeyLeq(a, b), files);
    NoneExecuted(files);
  }

  /** A record after all others goes to the end of the table. */
  lemma {:induction false} InsertAtEnd(r: Record, records: seq<Record>)
    requires forall i :: 0 <= i < |records| ==> KeyOrder.KeyLess(records[i].name, r.name)
    ensures Sorting.Insert(ById(), r, records) == records + [r] && !Executed(records, r.name)
  {
    if records != [] {
      KeyOrder.KeyLessAsymmetric(records[0].name, r.name);
      KeyOrder.KeyLessIrreflexive(r.name);
      InsertAtEnd(r, records[1..]);
    }
  }

  /** All these files come after the records. */
  ghost predicate Beyond(records: seq<Record>, files: seq<string>) {
    forall i, k :: 0 <= i < |records| && 0 <= k < |files| ==> KeyOrder.KeyLess(records[i].name, files[k])
  }

  function Appended<Db>(env: Env<Db>, s: State<Db>, name: string, batch: nat): State<Db>
    requires env.up(name, s.db).Some?
  {
    State(s.records + [Record(name, batch)], env.up(name, s.db).value, s.log + [Applied(Record(name, batch))])
  }

  lemma ApplyFirst<Db(!new)>(env: Env<Db>, s: State<Db>, files: seq<string>, batch: nat)
    requires NeverThrows(env) && files != [] && Beyond(s.records, files)
    ensures Apply(env, s, files, batch) == Apply(env, Appended(env, s, files[0], batch), files[1..], batch)
  {
    InsertAtEnd(Record(files[0], batch), s.records);
  }

  lemma BeyondNext(records: seq<Record>, files: seq<string>, batch: nat)
    requires KeyOrder.Ascending(files) && files != [] && Beyond(records, files)
    ensures KeyOrder.Ascending(files[1..]) && Beyond(records + [Record(files[0], batch)], files[1..])
  {
    forall k | 0 <= k < |files[1..]| ensures KeyOrder.KeyLess(files[0], files[1..][k]) {
      assert files[1..][k] == files[k + 1];
    }
  }

  lemma BatchOfNext(records: seq<Record>, files: seq<string>, batch: nat)
    requires files != []
    ensures records + [Record(files[0], batch)] + BatchOf(files[1..], batch) == records + BatchOf(files, batch)
  {}

  /** Applying new files in order appends their records. */
  lemma {:induction false} ApplyAll<Db(!new)>(env: Env<Db>, s: State<Db>, files: seq<string>, batch: nat)
    requires NeverThrows(env) && KeyOrder.Ascending(files) && Beyond(s.records, files)
    ensures Apply(env, s, files, batch).records == s.records + BatchOf(files, batch)
    decreases |files|
  {
    if files != [] {
      ApplyFirst(env, s, files, batch);
      BeyondNext(s.records, files, batch);
      ApplyAll(env, Appended(env, s, files[0], batch), files[1..], batch);
      BatchOfNext(s.records, files, batch);
    } else {
      assert s.records + BatchOf([], batch) == s.records;
    }
  }

  /** The last call is that of the last file. */
  lemma {:induction false} LastOfApplyAll<Db(!new)>(env: Env<Db>, s: State<Db>, files: seq<string>, batch: nat)
    requires NeverThrows(env) && KeyOrder.Ascending(files) && Beyond(s.records, files) && files != []
    ensures var log := Apply(env, s, files, batch).log;
      log != [] && log[|log| - 1] == Applied(Record(files[|files| - 1], batch))
    decreases |files|
  {
    ApplyFirst(env, s, files, batch);
    BeyondNext(s.records, files, batch);
    var t := Appended(env, s, files[0], batch);
    if |files| > 1 {
      LastOfApplyAll(env, t, files[1..], batch);
    } else {
      assert Apply(env, t, files[1..], batch) == t;
    }
  }

  lemma FirstUp<Db(!new)>(env: Env<Db>, db: Db, files: seq<string>)
    requires KeyOrder.Ascending(files) && AllMigrations(files)
    ensures Run(env, db, [UpEvent(files, None)]) == Apply(env, State([], db, []), files, 1)
  {
    AllArePending(files);
    assert [UpEvent(files, None)][..0] == [];
  }

  lemma UpOfAll<Db(!new)>(env: Env<Db>, db: Db, files: seq<string>)
    requires NeverThrows(env) && KeyOrder.Ascending(files) && AllMigrations(files) && files != []
    ensures var s := Run(env, db, [UpEvent(files, None)]);
      s.records == BatchOf(files, 1) && s.log != [] && s.log[|s.log| - 1] == Applied(Record(files[|files| - 1], 1))
  {
    FirstUp(env, db, files);
    ApplyAll(env, State([], db, []), files, 1);
    LastOfApplyAll(env, State([], db, []), files, 1);
    assert [] + BatchOf(files, 1) == BatchOf(files, 1);
  }

  /** A down of one record undoes the first in the sorted first page. */
  lemma DownOfOne<Db(!new)>(env: Env<Db>, s: State<Db>)
    requires NeverThrows(env) && s.records != []
    ensures var newest := Sort(NewestFirst(env), Listed(s.records))[0];
      Down(env, s, 1).log == s.log + [Undone(newest)] && newest in Listed(s.records)
  {
    var sorted := Sort(NewestFirst(env), Listed(s.records));
    SortPermutes(NewestFirst(env), Listed(s.records));
    HeadIsMember(sorted);
    var last := OfBatch(sorted, sorted[0].batch);
    assert last == [sorted[0]] + OfBatch(sorted[1..], sorted[0].batch);
    assert ToRollBack(sorted, 1) == [sorted[0]] && [sorted[0]][1..] == [];
    var t := Delete(s, env.down(sorted[0].name, s.db).value, sorted[0]);
    assert Undo(env, t, []) == t;
    assert Undo(env, s, [sorted[0]]) == t;
  }

  /** Undoing another record than the last that was applied ends the discipline. */
  lemma OutOfTurn(log: seq<Action>, last: Record, r: Record)
    requires log != [] && log[|log| - 1] == Applied(last) && r != last
    ensures StackOf(log + [Undone(r)]).None?
  {
    assert (log + [Undone(r)])[..|log|] == log;
  }

  lemma RunOfTwo<Db(!new)>(env: Env<Db>, db: Db, first: Event, second: Event)
    ensures Run(env, db, [first, second]) == Step(env, Run(env, db, [first]), second)
  {
    assert [first, second][..1] == [first];
  }

  /** The down after the first up undoes another record than the last, when the sorted page begins with it. */
  lemma DownAfterUp<Db(!new)>(env: Env<Db>, s: State<Db>, last: Record)
    requires NeverThrows(env) && s.records != [] && s.log != [] && s.log[|s.log| - 1] == Applied(last)
    requires Sort(NewestFirst(env), Listed(s.records))[..1] != [last]
    ensures StackOf(Down(env, s, 1).log).None?
  {
    DownOfOne(env, s);
    SortPermutes(NewestFirst(env), Listed(s.records));
    OutOfTurn(s.log, last, Sort(NewestFirst(env), Listed(s.records))[0]);
  }

  lemma UpThenDown<Db(!new)>(env: Env<Db>, db: Db, files: seq<string>)
    requires NeverThrows(env) && KeyOrder.Ascending(files) && AllMigrations(files) && files != []
    requires Sort(NewestFirst(env), Listed(BatchOf(files, 1)))[..1] != [Record(files[|files| - 1], 1)]
    ensures StackOf(Run(env, db, [UpEvent(files, None), DownEvent(1)]).log).None?
  {
    UpOfAll(env, db, files);
    DownOfAll(env, Run(env, db, [UpEvent(files, None)]), files);
    RunOfTwo(env, db, UpEvent(files, None), DownEvent(1));
  }

  lemma DownOfAll<Db(!new)>(env: Env<Db>, s: State<Db>, files: seq<string>)
    requires NeverThrows(env) && files != [] && s.records == BatchOf(files, 1)
    requires s.log != [] && s.log[|s.log| - 1] == Applied(Record(files[|files| - 1], 1))
    requires Sort(NewestFirst(env), Listed(BatchOf(files, 1)))[..1] != [Record(files[|files| - 1], 1)]
    ensures StackOf(Down(env, s, 1).log).None?
  {
    DownAfterUp(env, s, Record(files[|files| - 1], 1));
  }

  lemma SortOfTwo<T>(leq: (T, T) -> bool, a: T, b: T)
    requires leq(a, b)
    ensures Sort(leq, [a, b]) == [a, b]
  {
    assert [a, b][1..] == [b] && [b][1..] == [];
    assert Sort(leq, [b]) == [b];
  }

  /** When localeCompare does not put b after a as the file order does, one up and one down undo a before b. */
  lemma OtherOrderBreaksTheStack<Db(!new)>(env: Env<Db>, db: Db, a: string, b: string)
    requires NeverThrows(env) && IsMigration(a) && IsMigration(b) && KeyOrder.KeyLess(a, b) && env.localeLeq(b, a)
    ensures StackOf(Run(env, db, [UpEvent([a, b], None), DownEvent(1)]).log).None?
  {
    KeyOrder.KeyLessIrreflexive(a);
    SortOfTwo(NewestFirst(env), Record(a, 1), Record(b, 1));
    assert BatchOf([a, b], 1) == [Record(a, 1), Record(b, 1)];
    UpThenDown(env, db, [a, b]);
  }

  /** When a page does not hold the table, the last record is not seen: one up and one down undo another. */
  lemma SecondPageBreaksTheStack<Db(!new)>(env: Env<Db>, db: Db, files: seq<string>)
    requires NeverThrows(env) && KeyOrder.Ascending(files) && AllMigrations(files) && |files| > PAGE
    ensures StackOf(Run(env, db, [UpEvent(files, None), DownEvent(1)]).log).None?
  {
    var listed, last := Listed(BatchOf(files, 1)), Record(files[|files| - 1], 1);
    LastIsNotListed(files);
    SortPermutes(NewestFirst(env), listed);
    HeadIsMember(Sort(NewestFirst(env), listed));
    UpThenDown(env, db, files);
  }

  lemma LastIsNotListed(files: seq<string>)
    requires KeyOrder.Ascending(files) && |files| > PAGE
    ensures Record(files[|files| - 1], 1) !in Listed(BatchOf(files, 1))
    ensures !Executed(Listed(BatchOf(files, 1)), files[|files| - 1])
  {
    var listed, last := Listed(BatchOf(files, 1)), files[|files| - 1];
    forall i | 0 <= i < |listed| ensures KeyOrder.KeyLess(listed[i].name, last) && listed[i].name != last {
      assert listed[i] == Record(files[i], 1);
      KeyOrder.KeyLessIrreflexive(last);
    }
    ExecutedMeans(listed, last);
  }

  /** The records whose names are not among those of `undone`. */
  function Surviving(records: seq<Record>, undone: seq<Record>): seq<Record> {
    if records == [] then []
    else (if Executed(undone, records[0].name) then [] else [records[0]]) + Surviving(records[1..], undone)
  }

  lemma {:induction false} RemoveByIdMembers(records: seq<Record>, id: string)
    requires DistinctNames(records)
    ensures DistinctNames(RemoveById(records, id)) && forall r :: r in RemoveById(records, id) ==> r in records
  {
    if records != [] {
      RemoveByIdMembers(records[1..], id);
      assert records == [records[0]] + records[1..];
      var rest := RemoveById(records[1..], id);
      forall j | 0 <= j < |rest| ensures rest[j].name != records[0].name {
        assert rest[j] in records[1..];
        var k :| 0 <= k < |records[1..]| && records[1..][k] == rest[j];
        assert records[k + 1] == rest[j];
      }
    }
  }

  lemma {:induction false} SurvivingOfOthers(records: seq<Record>, r: Record, undone: seq<Record>)
    requires forall i :: 0 <= i < |records| ==> records[i].name != r.name
    ensures Surviving(records, [r] + undone) == Surviving(records, undone)
  {
    if records != [] {
      SurvivingOfOthers(records[1..], r, undone);
      assert ([r] + undone)[1..] == undone;
    }
  }

  /** Removing one record by its name and then the others is removing all of them. */
  lemma {:induction false} SurvivingOneMore(records: seq<Record>, r: Record, undone: seq<Record>)
    requires DistinctNames(records)
    ensures Surviving(RemoveById(records, r.name), undone) == Surviving(records, [r] + undone)
  {
    if records != [] {
      assert ([r] + undone)[1..] == undone;
      if records[0].name == r.name {
        SurvivingOfOthers(records[1..], r, undone);
      } else {
        SurvivingOneMore(records[1..], r, undone);
        var rest := RemoveById(records[1..], r.name);
        assert RemoveById(records, r.name) == [records[0]] + rest;
        assert ([records[0]] + rest)[1..] == rest;
      }
    }
  }

  lemma {:induction false} SurvivingOfNone(records: seq<Record>)
    ensures Surviving(records, []) == records
  {
    if records != [] { SurvivingOfNone(records[1..]); }
  }

  lemma {:induction false} UndoLeavesTheRest<Db(!new)>(env: Env<Db>, s: State<Db>, list: seq<Record>)
    requires NeverThrows(env) && DistinctNames(s.records)
    ensures Undo(env, s, list).records == Surviving(s.records, list)
    decreases |list|
  {
    if list != [] {
      RemoveByIdMembers(s.records, list[0].name);
      UndoLeavesTheRest(env, Delete(s, env.down(list[0].name, s.db).value, list[0]), list[1..]);
      SurvivingOneMore(s.records, list[0], list[1..]);
      assert [list[0]] + list[1..] == list;
    } else {
      SurvivingOfNone(s.records);
    }
  }

  lemma {:induction false} SurvivingSplits(a: seq<Record>, b: seq<Record>, undone: seq<Record>)
    requires forall i :: 0 <= i < |a| ==> Executed(undone, a[i].name)
    requires forall i :: 0 <= i < |b| ==> !Executed(undone, b[i].name)
    ensures Surviving(a + b, undone) == b
  {
    if a != [] {
      SurvivingSplits(a[1..], b, undone);
      assert (a + b)[1..] == a[1..] + b;
    } else if b != [] {
      assert a + b == b;
      SurvivingSplits([], b[1..], undone);
      assert [] + b[1..] == b[1..];
    }
  }

  /** A reset leaves exactly the records behind the first page, whatever the orders are; so it empties the
      table exactly when one page holds it. */
  lemma ResetLeavesTheRest<Db(!new)>(env: Env<Db>, s: State<Db>)
    requires NeverThrows(env) && DistinctNames(s.records)
    ensures Reset(env, s).records == if |s.records| <= PAGE then [] else s.records[PAGE..]
  {
    var listed := Listed(s.records);
    var rest := if |s.records| <= PAGE then [] else s.records[PAGE..];
    var sorted := Sort(NewestFirst(env), listed);
    SortPermutes(NewestFirst(env), listed);
    UndoLeavesTheRest(env, s, sorted);
    forall i | 0 <= i < |listed| ensures Executed(sorted, listed[i].name) {
      assert listed[i] in listed;
      ExecutedMeans(sorted, listed[i].name);
    }
    forall i | 0 <= i < |rest| ensures !Executed(sorted, rest[i].name) {
      ExecutedMeans(sorted, rest[i].name);
      forall r | r in sorted ensures r.name != rest[i].name {
        assert r in listed;
        var k :| 0 <= k < |listed| && listed[k] == r;
        assert s.records[k] == r && s.records[PAGE + i] == rest[i];
      }
    }
    SurvivingSplits(listed, rest, sorted);
    assert s.records == listed + rest;
  }

  lemma UpBehindThePage<Db(!new)>(env: Env<Db>, s: State<Db>, files: seq<string>)
    requires NeverThrows(env) && KeyOrder.Ascending(files) && AllMigrations(files) && |files| > PAGE
    requires s.records == BatchOf(files, 1)
    ensures var t := Up(env, s, files, None);
      t.records == s.records && t.log == s.log + [Applied(Record(files[PAGE], 2))]
  {
    PendingBehindThePage(files);
    BatchIsCurrent(BatchOf(files, 1)[..PAGE], 1);
    assert s.records[PAGE] in s.records;
    ExecutedMeans(s.records, files[PAGE]);
    assert files[PAGE..][0] == files[PAGE];
  }

  /** With more files than a page holds, a second up runs the module of the first file behind it again. */
  lemma SecondUpRunsAgain<Db(!new)>(env: Env<Db>, db: Db, files: seq<string>)
    requires NeverThrows(env) && KeyOrder.Ascending(files) && AllMigrations(files) && |files| > PAGE
    ensures var s := Run(env, db, [UpEvent(files, None)]);
      var t := Up(env, s, files, None);
      t.records == s.records && t.log == s.log + [Applied(Record(files[PAGE], 2))]
  {
    UpOfAll(env, db, files);
    UpBehindThePage(env, Run(env, db, [UpEvent(files, None)]), files);
  }

  lemma {:induction false} BatchIsCurrent(records: seq<Record>, batch: nat)
    requires records != [] && forall i :: 0 <= i < |records| ==> records[i].batch == batch
    ensures CurrentBatch(records) == batch
  {
    if |records| > 1 {
      BatchIsCurrent(records[1..], batch);
    } else {
      assert records[1..] == [];
    }
  }

  lemma {:induction false} NotExecutedSplits(a: seq<string>, b: seq<string>, records: seq<Record>)
    requires forall i :: 0 <= i < |a| ==> Executed(records, a[i])
    requires forall i :: 0 <= i < |b| ==> !Executed(records, b[i])
    ensures NotExecuted(a + b, records) == b
  {
    if a != [] {
      NotExecutedSplits(a[1..], b, records);
      assert (a + b)[1..] == a[1..] + b;
    } else if b != [] {
      assert a + b == b;
      NotExecutedSplits([], b[1..], records);
      assert [] + b[1..] == b[1..];
    }
  }

  lemma ListedBeforeThePage(files: seq<string>, i: nat)
    requires KeyOrder.Ascending(files) && |files| > PAGE && i < |files|
    ensures Executed(Listed(BatchOf(files, 1)), files[i]) <==> i < PAGE
  {
    var listed := Listed(BatchOf(files, 1));
    ExecutedMeans(listed, files[i]);
    if i < PAGE {
      assert listed[i] in listed;
    } else {
      forall r | r in listed ensures r.name != files[i] {
        var k :| 0 <= k < |listed| && listed[k] == r;
        assert r.name == files[k];
        KeyOrder.KeyLessIrreflexive(files[i]);
      }
    }
  }

  lemma PendingBehindThePage(files: seq<string>)
    requires KeyOrder.Ascending(files) && AllMigrations(files) && |files| > PAGE
    ensures Pending(files, Listed(BatchOf(files, 1))) == files[PAGE..]
  {
    var listed := Listed(BatchOf(files, 1));
    MigrationsAreKept(files);
    SortedIsSorted((a: string, b: string) => KeyOrder.KeyLeq(a, b), files);
    forall i | 0 <= i < |files| ensures Executed(listed, files[i]) <==> i < PAGE {
      ListedBeforeThePage(files, i);
    }
    NotExecutedSplits(files[..PAGE], files[PAGE..], listed);
    assert files == files[..PAGE] + files[PAGE..];
  }

  /** The names in file order. */
  lemma {:induction false} Enumerate(names: set<string>) returns (files: seq<string>)
    ensures |files| == |names| && KeyOrder.Ascending(files) && forall f :: f in files <==> f in names
    decreases |names|
  {
    if names == {} {
      files := [];
    } else {
      var n :| n in names;
      var rest := Enumerate(names - {n});
      assert NoDuplicates([n] + rest) by { AscendingHasNoDuplicates(rest); }
      files := KeyOrder.SortKeys([n] + rest);
      KeyOrder.SortKeysAscends([n] + rest);
    }
  }

  lemma AscendingHasNoDuplicates(files: seq<string>)
    requires KeyOrder.Ascending(files)
    ensures NoDuplicates(files)
  {
    forall i, j | 0 <= i < j < |files| ensures files[i] != files[j] { KeyOrder.KeyLessIrreflexive(files[i]); }
  }

  lemma ManyNamesBreakTheStack<Db(!new)>(env: Env<Db>, names: set<string>, db: Db)
    requires NeverThrows(env) && |names| > PAGE && forall n :: n in names ==> IsMigration(n)
    ensures !AlwaysLastInFirstOut(env, names, db)
  {
    var files := Enumerate(names);
    AscendingHasNoDuplicates(files);
    SecondPageBreaksTheStack(env, db, files);
    assert Within([UpEvent(files, None), DownEvent(1)], names);
  }

  lemma DisagreementBreaksTheStack<Db(!new)>(env: Env<Db>, names: set<string>, db: Db)
    requires NeverThrows(env) && !Agree(env, names) && forall n :: n in names ==> IsMigration(n)
    ensures !AlwaysLastInFirstOut(env, names, db)
  {
    var a, b :| a in names && b in names && KeyOrder.KeyLess(a, b) && env.localeLeq(b, a);
    KeyOrder.KeyLessIrreflexive(a);
    OtherOrderBreaksTheStack(env, db, a, b);
    assert Within([UpEvent([a, b], None), DownEvent(1)], names);
  }

  lemma AgreeingPageKeepsTheStack<Db(!new)>(env: Env<Db>, names: set<string>, db: Db)
    requires TotalPreorder(env.localeLeq) && Agree(env, names) && |names| <= PAGE
    ensures AlwaysLastInFirstOut(env, names, db)
  {
    forall events: seq<Event> | Within(events, names) ensures StackOf(Run(env, db, events).log).Some? {
      FewNamesFitAPage(env, names, db, events);
      RunIsDisciplined(env, names, db, events);
    }
  }

  /** Main result: with modules that do not throw, the discipline holds on every run exactly when
      localeCompare and the file order agree on the names and one page of the table holds all of them. */
  lemma LastInFirstOutIff<Db(!new)>(env: Env<Db>, names: set<string>, db: Db)
    requires TotalPreorder(env.localeLeq) && NeverThrows(env) && forall n :: n in names ==> IsMigration(n)
    ensures AlwaysLastInFirstOut(env, names, db) <==> Agree(env, names) && |names| <= PAGE
  {
    if !Agree(env, names) {
      DisagreementBreaksTheStack(env, names, db);
    } else if |names| > PAGE {
      ManyNamesBreakTheStack(env, names, db);
    } else {
      AgreeingPageKeepsTheStack(env, names, db);
    }
  }
}
