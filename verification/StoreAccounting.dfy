/** Byte counter, eviction and budget over every run. */
module StoreAccounting {
  import opened Wrappers
  import opened MinMax
  import opened OrderedMap
  import opened MemoryStore

  /** The bytes that the counter misses. */
  function Drift(s: Store): int { SumSizes(s.objects) - s.currentBytes }

  // ---------------------------------------------------------------- sums

  lemma {:induction false} SumOfConcat(a: Objects, b: Objects)
    ensures SumSizes(a + b) == SumSizes(a) + SumSizes(b)
  {
    if a == [] {
      assert a + b == b;
    } else {
      SumOfConcat(a[1..], b);
      assert (a + b)[1..] == a[1..] + b;
    }
  }

  lemma {:induction false} SumOfSet(m: Objects, key: string, obj: StoredObject)
    ensures SumSizes(Set(m, key, obj)) == SumSizes(m) + obj.size - SizeOf(Find(m, key))
  {
    if m != [] && m[0].key != key {
      SumOfSet(m[1..], key, obj);
      assert Set(m, key, obj)[1..] == Set(m[1..], key, obj);
    }
  }

  lemma {:induction false} SumOfRemove(m: Objects, key: string)
    ensures SumSizes(Remove(m, key)) == SumSizes(m) - SizeOf(Find(m, key))
  {
    if m != [] && m[0].key != key {
      SumOfRemove(m[1..], key);
      assert Remove(m, key)[1..] == Remove(m[1..], key);
    }
  }

  lemma SumOfSuffix(m: Objects, n: nat)
    requires n <= |m|
    ensures SumSizes(m[n..]) == SumSizes(m) - SumSizes(m[..n])
  {
    SumOfConcat(m[..n], m[n..]);
    assert m == m[..n] + m[n..];
  }

  // ---------------------------------------------------------------- eviction

  /** The number evicted is the least that removes the excess, or everything. */
  lemma {:induction false} EvictCountIsLeast(m: Objects, excess: int, n: nat)
    requires n <= |m|
    ensures n < EvictCount(m, excess) ==> SumSizes(m[..n]) < excess
    ensures n == EvictCount(m, excess) && n < |m| ==> SumSizes(m[..n]) >= excess
  {
    if n > 0 && excess > 0 {
      EvictCountIsLeast(m[1..], excess - m[0].value.size, n - 1);
      assert m[..n][1..] == m[1..][..n - 1];
    }
  }

  /** Main result: an eviction removes exactly the shortest prefix of the recency order that makes room, or
      everything when no prefix does; the survivors keep contents and order, and the drift does not change. */
  lemma EvictionIsTheShortestPrefix(c: Config, s: Store, required: int)
    ensures var n := |s.objects| - |Evict(c, s, required).objects|;
      && 0 <= n && Evict(c, s, required).objects == s.objects[n..]
      && (forall m :: 0 <= m < n ==> s.currentBytes - SumSizes(s.objects[..m]) + required > c.maxMemoryBytes)
      && (c.evictionEnabled ==> n == |s.objects| || Evict(c, s, required).currentBytes + required <= c.maxMemoryBytes)
    ensures Drift(Evict(c, s, required)) == Drift(s)
  {
    var excess := s.currentBytes + required - c.maxMemoryBytes;
    var n := EvictCount(s.objects, excess);
    forall m | 0 <= m < n ensures SumSizes(s.objects[..m]) < excess {
      EvictCountIsLeast(s.objects, excess, m);
    }
    EvictCountIsLeast(s.objects, excess, n);
    SumOfSuffix(s.objects, n);
    assert s.objects[0..] == s.objects;
  }

  // ---------------------------------------------------------------- the counter

  /** The put evicts the very object that it overwrites: the objects before it are too few to make room. */
  predicate EvictsItself(c: Config, s: Store, key: string, newSize: nat) {
    && c.evictionEnabled
    && Has(s.objects, key)
    && var grown := s.currentBytes + Max(newSize - SizeOf(Find(s.objects, key)), 0);
       grown - SumSizes(Before(s.objects, key)) > c.maxMemoryBytes
  }

  function Before(m: Objects, key: string): Objects {
    if m == [] || m[0].key == key then [] else [m[0]] + Before(m[1..], key)
  }

  lemma {:induction false} EvictedWhenBeforeIsTooSmall(m: Objects, key: string, excess: int)
    requires UniqueKeys(m) && Has(m, key)
    ensures Has(m[EvictCount(m, excess)..], key) <==> excess <= SumSizes(Before(m, key))
    ensures Has(m[EvictCount(m, excess)..], key) ==> Find(m[EvictCount(m, excess)..], key) == Find(m, key)
  {
    var n := EvictCount(m, excess);
    if n == 0 {
      assert m[0..] == m;
    } else if m[0].key == key {
      FindInSuffix(m[1..], n - 1, key);
      assert m[n..] == m[1..][n - 1..];
    } else {
      EvictedWhenBeforeIsTooSmall(m[1..], key, excess - m[0].value.size);
      assert m[n..] == m[1..][n - 1..];
      assert Before(m, key)[1..] == Before(m[1..], key);
    }
  }

  lemma EvictedItself(c: Config, s: Store, key: string, obj: StoredObject)
    requires UniqueKeys(s.objects)
    ensures var left := Find(Evict(c, s, Max(Delta(s, key, obj), 0)).objects, key);
      left == if EvictsItself(c, s, key, obj.size) then None else Find(s.objects, key)
  {
    var delta := Max(Delta(s, key, obj), 0);
    var excess := s.currentBytes + delta - c.maxMemoryBytes;
    if Has(s.objects, key) {
      EvictedWhenBeforeIsTooSmall(s.objects, key, excess);
    } else {
      FindInSuffix(s.objects, EvictCount(s.objects, excess), key);
    }
  }

  /** The bytes that a write lets the counter miss. */
  function LossOfWrite(c: Config, s: Store, key: string, newSize: nat): nat {
    if EvictsItself(c, s, key, newSize) then SizeOf(Find(s.objects, key)) else 0
  }

  /** Main result, one write: the counter falls short by the old size exactly when the write evicts it. */
  lemma WriteDrift(c: Config, s: Store, key: string, obj: StoredObject)
    requires UniqueKeys(s.objects)
    ensures Drift(Write(c, s, key, obj)) == Drift(s) + LossOfWrite(c, s, key, obj.size)
  {
    var delta := Delta(s, key, obj);
    var e := Evict(c, s, Max(delta, 0));
    EvictionIsTheShortestPrefix(c, s, Max(delta, 0));
    EvictedItself(c, s, key, obj);
    SumOfSet(e.objects, key, obj);
  }

  function LossOfPut(c: Config, s: Store, key: string, req: PutRequest): nat {
    if Rejection(c, Find(s.objects, key), req).Some? then 0 else LossOfWrite(c, s, key, |req.body|)
  }

  /** What one event makes the counter miss. */
  function Loss(c: Config, s: Store, e: Event): nat {
    match e
    case PutEvent(key, put, _) => LossOfPut(c, s, key, put)
    case CopyEvent(from, to, copy, _) =>
      if Has(s.objects, from) then LossOfPut(c, s, to, CopyAsPut(Find(s.objects, from).value, copy)) else 0
    case _ => 0
  }

  /** All that was missed since the last clear or restore. */
  function TotalLoss(c: Config, s: Store, events: seq<Event>): nat
    requires AllPermitted(c, events)
  {
    if events == [] then 0
    else
      var last := events[|events| - 1];
      if last.ClearEvent? || last.RestoreEvent? then 0
      else TotalLoss(c, s, events[..|events| - 1]) + Loss(c, Run(c, s, events[..|events| - 1]), last)
  }

  lemma TouchKeepsSum(s: Store, key: string)
    ensures SumSizes(Touch(s, key).objects) == SumSizes(s.objects)
  {
    var found := Find(s.objects, key);
    if found.Some? {
      SumOfRemove(s.objects, key);
      SumOfConcat(Remove(s.objects, key), [Entry(key, found.value)]);
    }
  }

  lemma RestoreDrift(c: Config, s: Store, snapshot: Snapshot)
    requires Sound(c, snapshot)
    ensures Drift(Restore(c, s, snapshot)) == 0
  {
    var loaded := Track(s.(objects := ThawAll(snapshot), currentBytes := 0), SumBodies(ThawAll(snapshot)));
    FaithfulSizes(c, ThawAll(snapshot));
    EvictionIsTheShortestPrefix(c, loaded, 0);
  }

  lemma StepDrift(c: Config, s: Store, e: Event)
    requires UniqueKeys(s.objects) && Permitted(c, e)
    ensures Drift(Step(c, s, e)) == if e.ClearEvent? || e.RestoreEvent? then 0 else Drift(s) + Loss(c, s, e)
  {
    match e
    case PutEvent(key, put, now) => WriteDrift(c, s, key, NewObject(c, put, now));
    case ReadEvent(key) => TouchKeepsSum(s, key);
    case CopyEvent(from, to, copy, now) =>
      if Has(s.objects, from) {
        WriteDrift(c, s, to, NewObject(c, CopyAsPut(Find(s.objects, from).value, copy), now));
      }
    case DeleteEvent(key) => SumOfRemove(s.objects, key);
    case ClearEvent =>
    case ResetStatsEvent =>
    case RestoreEvent(snapshot) => RestoreDrift(c, s, snapshot);
  }

  /** Main result, every run of a new store: stored bytes = counter + what self-evicting puts made it miss. */
  lemma {:induction false} CounterOverRuns(c: Config, events: seq<Event>)
    requires AllPermitted(c, events)
    ensures SumSizes(Run(c, EMPTY, events).objects) == Run(c, EMPTY, events).currentBytes + TotalLoss(c, EMPTY, events)
  {
    if events != [] {
      var before := events[..|events| - 1];
      CounterOverRuns(c, before);
      RunKeepsWellFormed(c, EMPTY, before);
      StepDrift(c, Run(c, EMPTY, before), events[|events| - 1]);
    }
  }

  /** The peak is never below the counter. */
  lemma {:induction false} PeakBoundsCounter(c: Config, events: seq<Event>)
    requires AllPermitted(c, events)
    ensures Run(c, EMPTY, events).currentBytes <= Run(c, EMPTY, events).peakBytes
  {
    if events != [] { PeakBoundsCounter(c, events[..|events| - 1]); }
  }

  predicate Restarts(e: Event) { e.ClearEvent? || e.ResetStatsEvent? || e.RestoreEvent? }

  /** No event from the j-th on sets the statistics anew. */
  ghost predicate Lasting(events: seq<Event>, j: nat) {
    j <= |events| && forall i :: j <= i < |events| ==> !Restarts(events[i])
  }

  lemma {:induction false} PermittedPrefix(c: Config, events: seq<Event>, j: nat)
    requires AllPermitted(c, events) && j <= |events|
    ensures AllPermitted(c, events[..j])
  {
    if j < |events| {
      PermittedPrefix(c, events[..|events| - 1], j);
      assert events[..|events| - 1][..j] == events[..j];
    } else {
      assert events[..j] == events;
    }
  }

  lemma StepPeak(c: Config, s: Store, e: Event)
    requires Permitted(c, e) && s.currentBytes <= s.peakBytes
    ensures var t := Step(c, s, e);
      t.peakBytes == if Restarts(e) then t.currentBytes else Max(s.peakBytes, t.currentBytes)
  {}

  /** The counter after the first j events. */
  function CounterAt(c: Config, events: seq<Event>, j: nat): int
    requires AllPermitted(c, events) && j <= |events|
  {
    PermittedPrefix(c, events, j);
    Run(c, EMPTY, events[..j]).currentBytes
  }

  lemma CounterAtBefore(c: Config, events: seq<Event>, j: nat)
    requires AllPermitted(c, events) && j < |events|
    ensures var before := events[..|events| - 1];
      AllPermitted(c, before) && CounterAt(c, events, j) == CounterAt(c, before, j)
  {
    PermittedPrefix(c, events, |events| - 1);
    assert events[..|events| - 1][..j] == events[..j];
  }

  lemma LastCounter(c: Config, events: seq<Event>)
    requires AllPermitted(c, events)
    ensures CounterAt(c, events, |events|) == Run(c, EMPTY, events).currentBytes
  {
    assert events[..|events|] == events;
  }

  ghost predicate IsPeak(c: Config, events: seq<Event>, peak: int)
    requires AllPermitted(c, events)
  {
    && (exists k: nat :: Lasting(events, k) && CounterAt(c, events, k) == peak)
    && (forall j: nat :: Lasting(events, j) ==> CounterAt(c, events, j) <= peak)
  }

  lemma NotBelowCounter(c: Config, events: seq<Event>, before: int, peak: int, j: nat)
    requires AllPermitted(c, events) && events != [] && Lasting(events, j)
    requires AllPermitted(c, events[..|events| - 1]) && IsPeak(c, events[..|events| - 1], before)
    requires CounterAt(c, events, |events|) <= peak && (Restarts(events[|events| - 1]) || before <= peak)
    ensures CounterAt(c, events, j) <= peak
  {
    if j < |events| {
      CounterAtBefore(c, events, j);
      assert Lasting(events[..|events| - 1], j);
      assert !Restarts(events[|events| - 1]);
    }
  }

  lemma PeakIsReached(c: Config, events: seq<Event>, peak: int)
    requires AllPermitted(c, events) && events != [] && !Restarts(events[|events| - 1])
    requires AllPermitted(c, events[..|events| - 1]) && IsPeak(c, events[..|events| - 1], peak)
    ensures exists k: nat :: Lasting(events, k) && CounterAt(c, events, k) == peak
  {
    var before := events[..|events| - 1];
    var k: nat :| Lasting(before, k) && CounterAt(c, before, k) == peak;
    CounterAtBefore(c, events, k);
    assert Lasting(events, k);
  }

  lemma HighestSoFar(c: Config, events: seq<Event>, before: int, peak: int)
    requires AllPermitted(c, events) && events != []
    requires AllPermitted(c, events[..|events| - 1]) && IsPeak(c, events[..|events| - 1], before)
    requires var now := CounterAt(c, events, |events|);
      peak == if Restarts(events[|events| - 1]) then now else Max(before, now)
    ensures IsPeak(c, events, peak)
  {
    forall j: nat | Lasting(events, j) ensures CounterAt(c, events, j) <= peak {
      NotBelowCounter(c, events, before, peak, j);
    }
    if peak == CounterAt(c, events, |events|) {
      assert Lasting(events, |events|);
    } else {
      PeakIsReached(c, events, peak);
    }
  }

  /** Main result: the peak is the largest value of the counter since the statistics were set anew. */
  lemma {:induction false} PeakIsTheMaximum(c: Config, events: seq<Event>)
    requires AllPermitted(c, events)
    ensures IsPeak(c, events, Run(c, EMPTY, events).peakBytes)
  {
    LastCounter(c, events);
    if events != [] {
      var before := events[..|events| - 1];
      PeakIsTheMaximum(c, before);
      PeakBoundsCounter(c, before);
      StepPeak(c, Run(c, EMPTY, before), events[|events| - 1]);
      HighestSoFar(c, events, Run(c, EMPTY, before).peakBytes, Run(c, EMPTY, events).peakBytes);
    } else {
      assert Lasting(events, 0);
    }
  }

  /** The drift is real: in a budget of 10 bytes, growing an object from 6 to 12 leaves the counter at 6. */
  lemma CounterCanDrift(c: Config, key: string, small: StoredObject, large: StoredObject)
    requires c.evictionEnabled && c.maxMemoryBytes == 10 && small.size == 6 && large.size == 12
    ensures var s := Write(c, Write(c, EMPTY, key, small), key, large);
      SumSizes(s.objects) == 12 && s.currentBytes == 6
  {
    var s := Write(c, EMPTY, key, small);
    assert s.objects == [Entry(key, small)] && s.currentBytes == 6;
    assert EvictCount(s.objects, 2) == 1 && s.objects[..1] == s.objects && s.objects[1..] == [];
  }

  // ---------------------------------------------------------------- the budget

  predicate AllFit(c: Config, m: Objects) {
    m == [] || (m[0].value.size <= c.maxMemoryBytes && AllFit(c, m[1..]))
  }

  /** Every body that is put or restored fits the budget on its own. */
  predicate Fits(c: Config, e: Event)
    requires Permitted(c, e)
  {
    match e
    case PutEvent(_, put, _) => |put.body| <= c.maxMemoryBytes
    case RestoreEvent(snapshot) => AllFit(c, ThawAll(snapshot))
    case _ => true
  }

  predicate EveryEventFits(c: Config, events: seq<Event>)
    requires AllPermitted(c, events)
  {
    events == [] || (EveryEventFits(c, events[..|events| - 1]) && Fits(c, events[|events| - 1]))
  }

  lemma {:induction false} FitOfFound(c: Config, m: Objects, key: string)
    requires AllFit(c, m) && Has(m, key)
    ensures Find(m, key).value.size <= c.maxMemoryBytes
  {
    if m[0].key != key { FitOfFound(c, m[1..], key); }
  }

  lemma {:induction false} SuffixFits(c: Config, m: Objects, n: nat)
    requires AllFit(c, m) && n <= |m|
    ensures AllFit(c, m[n..])
  {
    if n > 0 {
      SuffixFits(c, m[1..], n - 1);
      assert m[1..][n - 1..] == m[n..];
    }
  }

  lemma {:induction false} SetFits(c: Config, m: Objects, key: string, obj: StoredObject)
    requires AllFit(c, m) && obj.size <= c.maxMemoryBytes
    ensures AllFit(c, Set(m, key, obj))
  {
    if m != [] && m[0].key != key {
      SetFits(c, m[1..], key, obj);
      assert Set(m, key, obj)[1..] == Set(m[1..], key, obj);
    }
  }

  lemma {:induction false} RemoveFits(c: Config, m: Objects, key: string)
    requires AllFit(c, m)
    ensures AllFit(c, Remove(m, key))
  {
    if m != [] && m[0].key != key {
      RemoveFits(c, m[1..], key);
      assert Remove(m, key)[1..] == Remove(m[1..], key);
    }
  }

  predicate InBudget(c: Config, s: Store) {
    UniqueKeys(s.objects) && AllFit(c, s.objects) && s.currentBytes <= c.maxMemoryBytes && Drift(s) >= 0
  }

  lemma WriteStaysInBudget(c: Config, s: Store, key: string, obj: StoredObject)
    requires c.evictionEnabled && InBudget(c, s) && obj.size <= c.maxMemoryBytes
    ensures var r := Write(c, s, key, obj); AllFit(c, r.objects) && r.currentBytes <= c.maxMemoryBytes
  {
    var required := Max(Delta(s, key, obj), 0);
    var e := Evict(c, s, required);
    EvictionIsTheShortestPrefix(c, s, required);
    SuffixFits(c, s.objects, |s.objects| - |e.objects|);
    SetFits(c, e.objects, key, obj);
    if e.objects == [] { assert SumSizes(e.objects) == 0; }
  }

  lemma RestoreStaysInBudget(c: Config, s: Store, snapshot: Snapshot)
    requires c.evictionEnabled && 0 <= c.maxMemoryBytes && Sound(c, snapshot) && AllFit(c, ThawAll(snapshot))
    ensures var r := Restore(c, s, snapshot); AllFit(c, r.objects) && r.currentBytes <= c.maxMemoryBytes
  {
    var loaded := Track(s.(objects := ThawAll(snapshot), currentBytes := 0), SumBodies(ThawAll(snapshot)));
    EvictionIsTheShortestPrefix(c, loaded, 0);
    RestoreDrift(c, s, snapshot);
    SuffixFits(c, loaded.objects, |loaded.objects| - |Evict(c, loaded, 0).objects|);
  }

  lemma TouchFits(c: Config, s: Store, key: string)
    requires UniqueKeys(s.objects) && AllFit(c, s.objects)
    ensures AllFit(c, Touch(s, key).objects)
  {
    if Has(s.objects, key) {
      TouchIsSetAfterRemove(s, key);
      FitOfFound(c, s.objects, key);
      RemoveFits(c, s.objects, key);
      SetFits(c, Remove(s.objects, key), key, Find(s.objects, key).value);
    }
  }

  lemma PutStaysInBudget(c: Config, s: Store, key: string, put: PutRequest, now: string)
    requires c.evictionEnabled && InBudget(c, s) && |put.body| <= c.maxMemoryBytes
    ensures var r := Put(c, s, key, put, now).0; AllFit(c, r.objects) && r.currentBytes <= c.maxMemoryBytes
  {
    WriteStaysInBudget(c, s, key, NewObject(c, put, now));
  }

  lemma CopyStaysInBudget(c: Config, s: Store, from: string, to: string, copy: CopyRequest, now: string)
    requires c.evictionEnabled && InBudget(c, s) && WellFormed(c, s.objects)
    ensures var r := Copy(c, s, from, to, copy, now).0; AllFit(c, r.objects) && r.currentBytes <= c.maxMemoryBytes
  {
    if Has(s.objects, from) {
      FitOfFound(c, s.objects, from);
      FoundIsFaithful(c, s.objects, from);
      PutStaysInBudget(c, s, to, CopyAsPut(Find(s.objects, from).value, copy), now);
    }
  }

  lemma StepFits(c: Config, s: Store, e: Event)
    requires c.evictionEnabled && 0 <= c.maxMemoryBytes && InBudget(c, s) && WellFormed(c, s.objects)
    requires Permitted(c, e) && Fits(c, e)
    ensures AllFit(c, Step(c, s, e).objects) && Step(c, s, e).currentBytes <= c.maxMemoryBytes
  {
    match e
    case PutEvent(key, put, now) => PutStaysInBudget(c, s, key, put, now);
    case ReadEvent(key) => TouchFits(c, s, key);
    case CopyEvent(from, to, copy, now) => CopyStaysInBudget(c, s, from, to, copy, now);
    case DeleteEvent(key) => RemoveFits(c, s.objects, key);
    case ClearEvent =>
    case ResetStatsEvent =>
    case RestoreEvent(snapshot) => RestoreStaysInBudget(c, s, snapshot);
  }

  lemma StepStaysInBudget(c: Config, s: Store, e: Event)
    requires c.evictionEnabled && 0 <= c.maxMemoryBytes && InBudget(c, s) && WellFormed(c, s.objects)
    requires Permitted(c, e) && Fits(c, e)
    ensures InBudget(c, Step(c, s, e))
  {
    StepKeepsWellFormed(c, s, e);
    StepDrift(c, s, e);
    StepFits(c, s, e);
  }

  lemma {:induction false} RunStaysInBudget(c: Config, events: seq<Event>)
    requires c.evictionEnabled && 0 <= c.maxMemoryBytes && AllPermitted(c, events) && EveryEventFits(c, events)
    ensures InBudget(c, Run(c, EMPTY, events))
  {
    if events != [] {
      var before := events[..|events| - 1];
      RunStaysInBudget(c, before);
      RunKeepsWellFormed(c, EMPTY, before);
      StepStaysInBudget(c, Run(c, EMPTY, before), events[|events| - 1]);
    }
  }

  /** Main result: when every object fits on its own, a run never stores more than the budget, plus what
      self-evicting puts made the counter miss.  Without such puts the budget holds exactly. */
  lemma StoredBytesAreBounded(c: Config, events: seq<Event>)
    requires c.evictionEnabled && 0 <= c.maxMemoryBytes && AllPermitted(c, events) && EveryEventFits(c, events)
    ensures SumSizes(Run(c, EMPTY, events).objects) <= c.maxMemoryBytes + TotalLoss(c, EMPTY, events)
    ensures TotalLoss(c, EMPTY, events) == 0 ==>
      SumSizes(Run(c, EMPTY, events).objects) == Run(c, EMPTY, events).currentBytes <= c.maxMemoryBytes
  {
    RunStaysInBudget(c, events);
    CounterOverRuns(c, events);
  }

  /** With a correct counter, an object that fits leaves the store within budget under a new key. */
  lemma NewKeyFitsTheBudget(c: Config, s: Store, key: string, obj: StoredObject)
    requires c.evictionEnabled && UniqueKeys(s.objects) && Drift(s) == 0
    requires !Has(s.objects, key) && obj.size <= c.maxMemoryBytes
    ensures var r := Write(c, s, key, obj);
      Find(r.objects, key) == Some(obj) && r.currentBytes == SumSizes(r.objects) <= c.maxMemoryBytes
  {
    var e := Evict(c, s, Max(Delta(s, key, obj), 0));
    EvictionIsTheShortestPrefix(c, s, Max(Delta(s, key, obj), 0));
    WriteDrift(c, s, key, obj);
    FindInSet(e.objects, key, obj, key);
    if e.objects == [] { assert SumSizes(e.objects) == 0; }
  }
}
