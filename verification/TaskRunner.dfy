/** Bounded parallel processing with retries (TasksRunner in runtime.ts). */
module TaskRunner {
  import opened Wrappers
  import opened MinMax

  function AtLeast(low: nat, n: int): nat { if n < low then low else n }

  // As in MultipartUpload, one event is one atomic segment between awaits, a schedule is any
  // sequence of events, and an event that is not enabled changes nothing.

  datatype Config = Config(items: nat, retries: nat, retryDelay: nat)

  datatype Worker =
    | Idle
    | Running(index: nat, attempt: nat)
    | Waiting(index: nat, attempt: nat)
    | Returned

  /** None is the value undefined. */
  datatype Result<R, E> = Success(value: Option<R>) | Failure(error: E)

  datatype Call = Call(index: nat, attempt: nat)

  datatype Settlement<R, E> = Settlement(index: nat, result: Result<R, E>)

  /** `calls` lists the handler calls and `settled` the items that are done, in order of time. */
  datatype State<R, E> = State(
    next: nat,
    workers: seq<Worker>,
    values: seq<Option<R>>,
    failures: seq<E>,
    completed: nat,
    failed: nat,
    calls: seq<Call>,
    settled: seq<Settlement<R, E>>)

  datatype Event<R, E> =
    | AttemptSucceeded(worker: nat, value: Option<R>)
    | AttemptFailed(worker: nat, error: E)
    | DelayOver(worker: nat)

  function Fresh<R, E>(c: Config, concurrency: nat): State<R, E> {
    State(0, seq(Min(concurrency, c.items), _ => Idle), seq(c.items, _ => None), [], 0, 0, [], [])
  }

  function Attempt<R, E>(s: State<R, E>, w: nat, index: nat, attempt: nat): State<R, E>
    requires w < |s.workers|
  {
    s.(workers := s.workers[w := Running(index, attempt)], calls := s.calls + [Call(index, attempt)])
  }

  /** `next++`, and the first attempt at the item, or the end of the worker. */
  function Claim<R, E>(c: Config, s: State<R, E>, w: nat): State<R, E>
    requires w < |s.workers|
  {
    var index := s.next;
    if index >= c.items then s.(next := s.next + 1, workers := s.workers[w := Returned])
    else Attempt(s.(next := s.next + 1), w, index, 0)
  }

  function LaunchFrom<R, E>(c: Config, s: State<R, E>, w: nat): State<R, E>
    requires w <= |s.workers|
    decreases |s.workers| - w
  {
    if w == |s.workers| then s else LaunchFrom(c, Claim(c, s, w), w + 1)
  }

  function Settle<R, E>(s: State<R, E>, index: nat, result: Result<R, E>): State<R, E>
    requires index < |s.values|
  {
    var t := s.(settled := s.settled + [Settlement(index, result)]);
    match result
    case Success(value) => t.(values := s.values[index := value], completed := s.completed + 1)
    case Failure(error) => t.(failures := s.failures + [error], failed := s.failed + 1)
  }

  predicate Enabled<R, E>(s: State<R, E>, e: Event<R, E>) {
    match e
    case AttemptSucceeded(w, _) => w < |s.workers| && s.workers[w].Running?
    case AttemptFailed(w, _) => w < |s.workers| && s.workers[w].Running?
    case DelayOver(w) => w < |s.workers| && s.workers[w].Waiting?
  }

  predicate InRange<R, E>(s: State<R, E>) {
    forall w :: 0 <= w < |s.workers| && Busy(s.workers[w]) ==> s.workers[w].index < |s.values|
  }

  predicate Busy(w: Worker) { w.Running? || w.Waiting? }

  function Step<R, E>(c: Config, s: State<R, E>, e: Event<R, E>): State<R, E>
    requires InRange(s)
  {
    if !Enabled(s, e) then s else
    var busy := s.workers[e.worker];
    match e
    case AttemptSucceeded(w, value) => Claim(c, Settle(s, busy.index, Success(value)), w)
    case AttemptFailed(w, error) =>
      if busy.attempt >= c.retries then Claim(c, Settle(s, busy.index, Failure(error)), w)
      else if c.retryDelay > 0 then s.(workers := s.workers[w := Waiting(busy.index, busy.attempt)])
      else Attempt(s, w, busy.index, busy.attempt + 1)
    case DelayOver(w) => Attempt(s, w, busy.index, busy.attempt + 1)
  }

  // ---------------------------------------------------------------- invariant

  predicate Holds(w: Worker, i: nat) { Busy(w) && w.index == i }

  function Count(calls: seq<Call>, i: nat): nat {
    if calls == [] then 0 else Count(calls[..|calls| - 1], i) + if calls[|calls| - 1].index == i then 1 else 0
  }

  ghost predicate IsSettled<R, E>(settled: seq<Settlement<R, E>>, i: nat) {
    exists k :: 0 <= k < |settled| && settled[k].index == i
  }

  ghost predicate Held(workers: seq<Worker>, i: nat) {
    exists w :: 0 <= w < |workers| && Holds(workers[w], i)
  }

  ghost predicate Claimed<R, E>(c: Config, s: State<R, E>, i: nat) { i < s.next && i < c.items }

  /** Who holds what. */
  ghost predicate WorkersInv<R, E>(c: Config, s: State<R, E>) {
    && (forall w :: 0 <= w < |s.workers| && s.workers[w].Returned? ==> s.next > c.items)
    && (forall w :: 0 <= w < |s.workers| && Busy(s.workers[w]) ==>
          Claimed(c, s, s.workers[w].index) && s.workers[w].attempt <= c.retries)
    && (forall w :: 0 <= w < |s.workers| && s.workers[w].Waiting? ==> s.workers[w].attempt < c.retries)
    && (forall v, w :: 0 <= v < w < |s.workers| && Busy(s.workers[w]) ==> !Holds(s.workers[v], s.workers[w].index))
  }

  /** Every claimed item is either held or settled, once. */
  ghost predicate SettledInv<R, E>(c: Config, s: State<R, E>) {
    && (forall k :: 0 <= k < |s.settled| ==> Claimed(c, s, s.settled[k].index))
    && (forall j, k :: 0 <= j < k < |s.settled| ==> s.settled[j].index != s.settled[k].index)
    && (forall w :: 0 <= w < |s.workers| && Busy(s.workers[w]) ==> !IsSettled(s.settled, s.workers[w].index))
    && (forall i {:trigger Claimed(c, s, i)} :: Claimed(c, s, i) ==> IsSettled(s.settled, i) || Held(s.workers, i))
  }

  /** One call for every attempt, and no attempt beyond the retries. */
  ghost predicate CallsInv<R, E>(c: Config, s: State<R, E>) {
    && (forall w :: 0 <= w < |s.workers| && Busy(s.workers[w]) ==>
          Count(s.calls, s.workers[w].index) == s.workers[w].attempt + 1)
    && (forall i :: Count(s.calls, i) <= c.retries + 1)
    && (forall i :: i >= s.next ==> Count(s.calls, i) == 0)
    && (forall k :: 0 <= k < |s.settled| ==> Count(s.calls, s.settled[k].index) >= 1)
    && (forall k :: 0 <= k < |s.settled| && s.settled[k].result.Failure? ==>
          Count(s.calls, s.settled[k].index) == c.retries + 1)
    && Consecutive(s.calls)
  }

  /** The attempts at each item are numbered 0, 1, 2, ... in order of time. */
  ghost predicate Consecutive(calls: seq<Call>) {
    calls == [] ||
    var last := calls[|calls| - 1];
    Consecutive(calls[..|calls| - 1]) && last.attempt == Count(calls[..|calls| - 1], last.index)
  }

  function ValuesOf<R, E>(n: nat, settled: seq<Settlement<R, E>>): (values: seq<Option<R>>)
    ensures |values| == n
  {
    if settled == [] then seq(n, _ => None)
    else
      var values, last := ValuesOf(n, settled[..|settled| - 1]), settled[|settled| - 1];
      if last.result.Success? && last.index < n then values[last.index := last.result.value] else values
  }

  function ErrorsOf<R, E>(settled: seq<Settlement<R, E>>): seq<E> {
    if settled == [] then []
    else
      var last := settled[|settled| - 1].result;
      ErrorsOf(settled[..|settled| - 1]) + if last.Failure? then [last.error] else []
  }

  function Successes<R, E>(settled: seq<Settlement<R, E>>): nat {
    if settled == [] then 0
    else Successes(settled[..|settled| - 1]) + if settled[|settled| - 1].result.Success? then 1 else 0
  }

  /** The shared variables are what the settled items make them. */
  ghost predicate ResultsInv<R, E>(c: Config, s: State<R, E>) {
    && s.values == ValuesOf(c.items, s.settled)
    && s.failures == ErrorsOf(s.settled)
    && s.completed == Successes(s.settled)
    && s.failed == |s.failures|
  }

  ghost predicate Inv<R, E>(c: Config, s: State<R, E>) {
    WorkersInv(c, s) && SettledInv(c, s) && CallsInv(c, s) && ResultsInv(c, s)
  }

  lemma InvIsInRange<R, E>(c: Config, s: State<R, E>)
    requires Inv(c, s)
    ensures InRange(s)
  {}

  lemma CountOneMore(calls: seq<Call>, x: Call, i: nat)
    ensures Count(calls + [x], i) == Count(calls, i) + if x.index == i then 1 else 0
  {
    assert (calls + [x])[..|calls|] == calls;
  }

  lemma CountsAfter(calls: seq<Call>, x: Call)
    ensures forall i :: Count(calls + [x], i) == Count(calls, i) + if x.index == i then 1 else 0
    ensures Consecutive(calls + [x]) <==> Consecutive(calls) && x.attempt == Count(calls, x.index)
  {
    assert (calls + [x])[..|calls|] == calls;
    forall i ensures Count(calls + [x], i) == Count(calls, i) + if x.index == i then 1 else 0 {
      CountOneMore(calls, x, i);
    }
  }

  // ---------------------------------------------------------------- another attempt at the same item

  /** Worker w stays on its item with a later attempt, or waits before it. */
  ghost predicate Retried<R, E>(c: Config, s: State<R, E>, w: nat, t: State<R, E>) {
    && w < |s.workers| && Busy(s.workers[w])
    && var b := s.workers[w];
       && b.attempt < c.retries
       && (|| t == s.(workers := s.workers[w := Waiting(b.index, b.attempt)])
           || t == Attempt(s, w, b.index, b.attempt + 1))
  }

  lemma HeldWhenIndexStays(workers: seq<Worker>, w: nat, x: Worker, i: nat)
    requires w < |workers| && Busy(workers[w]) && Holds(x, workers[w].index)
    ensures Held(workers[w := x], i) <==> Held(workers, i)
  {
    if Held(workers, i) {
      var v :| 0 <= v < |workers| && Holds(workers[v], i);
      assert Holds(workers[w := x][v], i);
    }
    if Held(workers[w := x], i) {
      var v :| 0 <= v < |workers| && Holds(workers[w := x][v], i);
      assert Holds(workers[v], i);
    }
  }

  lemma RetryKeepsWorkers<R, E>(c: Config, s: State<R, E>, w: nat, t: State<R, E>)
    requires Inv(c, s) && Retried(c, s, w, t)
    ensures WorkersInv(c, t)
  {
    assert Holds(s.workers[w], s.workers[w].index);
  }

  lemma RetryKeepsResults<R, E>(c: Config, s: State<R, E>, w: nat, t: State<R, E>)
    requires Inv(c, s) && Retried(c, s, w, t)
    ensures ResultsInv(c, t)
  {}

  lemma RetryKeepsSettled<R, E>(c: Config, s: State<R, E>, w: nat, t: State<R, E>)
    requires Inv(c, s) && Retried(c, s, w, t)
    ensures SettledInv(c, t)
  {
    forall i | Claimed(c, t, i) ensures IsSettled(t.settled, i) || Held(t.workers, i) {
      assert Claimed(c, s, i);
      HeldWhenIndexStays(s.workers, w, t.workers[w], i);
    }
  }

  lemma WaitKeepsCalls<R, E>(c: Config, s: State<R, E>, w: nat)
    requires Inv(c, s) && w < |s.workers| && Busy(s.workers[w])
    ensures CallsInv(c, s.(workers := s.workers[w := Waiting(s.workers[w].index, s.workers[w].attempt)]))
  {}

  lemma AttemptKeepsCalls<R, E>(c: Config, s: State<R, E>, w: nat)
    requires Inv(c, s) && w < |s.workers| && Busy(s.workers[w]) && s.workers[w].attempt < c.retries
    ensures CallsInv(c, Attempt(s, w, s.workers[w].index, s.workers[w].attempt + 1))
  {
    var b := s.workers[w];
    CountsAfter(s.calls, Call(b.index, b.attempt + 1));
    forall v | 0 <= v < |s.workers| && v != w && Busy(s.workers[v]) ensures s.workers[v].index != b.index {
      assert Holds(s.workers[w], b.index) && Holds(s.workers[v], s.workers[v].index);
    }
  }

  lemma RetryKeepsCalls<R, E>(c: Config, s: State<R, E>, w: nat, t: State<R, E>)
    requires Inv(c, s) && Retried(c, s, w, t)
    ensures CallsInv(c, t)
  {
    WaitKeepsCalls(c, s, w);
    AttemptKeepsCalls(c, s, w);
  }

  lemma RetryKeepsInv<R, E>(c: Config, s: State<R, E>, w: nat, t: State<R, E>)
    requires Inv(c, s) && Retried(c, s, w, t)
    ensures Inv(c, t)
  {
    RetryKeepsWorkers(c, s, w, t);
    RetryKeepsResults(c, s, w, t);
    RetryKeepsSettled(c, s, w, t);
    RetryKeepsCalls(c, s, w, t);
  }

  // ---------------------------------------------------------------- claiming

  /** Worker w holds nothing that is not settled. */
  ghost predicate Ready<R, E>(c: Config, s: State<R, E>, w: nat) {
    && w < |s.workers| && s.workers[w].Idle?
    && Inv(c, s)
  }

  lemma ClaimKeepsWorkers<R, E>(c: Config, s: State<R, E>, w: nat)
    requires Ready(c, s, w)
    ensures var t := Claim(c, s, w); WorkersInv(c, t) && ResultsInv(c, t)
  {}

  lemma ClaimKeepsSettled<R, E>(c: Config, s: State<R, E>, w: nat)
    requires Ready(c, s, w)
    ensures SettledInv(c, Claim(c, s, w))
  {
    var t := Claim(c, s, w);
    forall i | Claimed(c, t, i) ensures IsSettled(t.settled, i) || Held(t.workers, i) {
      if Claimed(c, s, i) {
        if Held(s.workers, i) {
          var v :| 0 <= v < |s.workers| && Holds(s.workers[v], i);
          assert Holds(t.workers[v], i);
        }
      } else {
        assert Holds(t.workers[w], i);
      }
    }
  }

  lemma ClaimKeepsCalls<R, E>(c: Config, s: State<R, E>, w: nat)
    requires Ready(c, s, w)
    ensures CallsInv(c, Claim(c, s, w))
  {
    CountsAfter(s.calls, Call(s.next, 0));
  }

  lemma ClaimKeepsInv<R, E>(c: Config, s: State<R, E>, w: nat)
    requires Ready(c, s, w)
    ensures Inv(c, Claim(c, s, w))
  {
    ClaimKeepsWorkers(c, s, w);
    ClaimKeepsSettled(c, s, w);
    ClaimKeepsCalls(c, s, w);
  }

  // ---------------------------------------------------------------- settling

  /** The state between storing a result and the next claim, the worker being free. */
  function Freed<R, E>(s: State<R, E>, w: nat, result: Result<R, E>): State<R, E>
    requires w < |s.workers| && Busy(s.workers[w]) && s.workers[w].index < |s.values|
  {
    var t := Settle(s, s.workers[w].index, result);
    t.(workers := t.workers[w := Idle])
  }

  lemma ClaimIgnoresOldWorker<R, E>(c: Config, s: State<R, E>, w: nat, result: Result<R, E>)
    requires w < |s.workers| && Busy(s.workers[w]) && s.workers[w].index < |s.values|
    ensures Claim(c, Settle(s, s.workers[w].index, result), w) == Claim(c, Freed(s, w, result), w)
  {
    assert s.workers[w := Idle][w := Returned] == s.workers[w := Returned];
    assert s.workers[w := Idle][w := Running(s.next, 0)] == s.workers[w := Running(s.next, 0)];
  }

  lemma SettledOneMore<R, E>(settled: seq<Settlement<R, E>>, x: Settlement<R, E>, i: nat)
    ensures IsSettled(settled + [x], i) <==> IsSettled(settled, i) || x.index == i
  {
    var more := settled + [x];
    assert more[|settled|] == x;
    if IsSettled(settled, i) {
      var k :| 0 <= k < |settled| && settled[k].index == i;
      assert more[k].index == i;
    }
  }

  lemma FreedKeepsResults<R, E>(c: Config, s: State<R, E>, w: nat, result: Result<R, E>)
    requires Inv(c, s) && w < |s.workers| && Busy(s.workers[w])
    ensures InRange(s) && ResultsInv(c, Freed(s, w, result))
  {
    var x := Settlement(s.workers[w].index, result);
    assert (s.settled + [x])[..|s.settled|] == s.settled;
  }

  lemma FreedKeepsWorkers<R, E>(c: Config, s: State<R, E>, w: nat, result: Result<R, E>)
    requires Inv(c, s) && w < |s.workers| && Busy(s.workers[w])
    ensures InRange(s) && WorkersInv(c, Freed(s, w, result))
  {}

  lemma FreedKeepsCalls<R, E>(c: Config, s: State<R, E>, w: nat, result: Result<R, E>)
    requires Inv(c, s) && w < |s.workers| && Busy(s.workers[w])
    requires result.Failure? ==> s.workers[w].attempt >= c.retries
    ensures InRange(s) && CallsInv(c, Freed(s, w, result))
  {}

  lemma FreedKeepsSettled<R, E>(c: Config, s: State<R, E>, w: nat, result: Result<R, E>)
    requires Inv(c, s) && w < |s.workers| && Busy(s.workers[w])
    ensures InRange(s) && SettledInv(c, Freed(s, w, result))
  {
    var t := Freed(s, w, result);
    var x := Settlement(s.workers[w].index, result);
    assert Holds(s.workers[w], x.index);
    forall k | 0 <= k < |s.settled| ensures s.settled[k].index != x.index {}
    forall v | 0 <= v < |t.workers| && Busy(t.workers[v]) ensures !IsSettled(t.settled, t.workers[v].index) {
      SettledOneMore(s.settled, x, t.workers[v].index);
      assert Holds(s.workers[v], s.workers[v].index);
    }
    forall i | Claimed(c, t, i) ensures IsSettled(t.settled, i) || Held(t.workers, i) {
      assert Claimed(c, s, i);
      SettledOneMore(s.settled, x, i);
      if Held(s.workers, i) && i != x.index {
        var v :| 0 <= v < |s.workers| && Holds(s.workers[v], i);
        assert Holds(t.workers[v], i);
      }
    }
  }

  lemma SettleKeepsInv<R, E>(c: Config, s: State<R, E>, w: nat, result: Result<R, E>)
    requires Inv(c, s) && w < |s.workers| && Busy(s.workers[w])
    requires result.Failure? ==> s.workers[w].attempt >= c.retries
    ensures InRange(s) && Inv(c, Claim(c, Settle(s, s.workers[w].index, result), w))
  {
    FreedKeepsResults(c, s, w, result);
    FreedKeepsWorkers(c, s, w, result);
    FreedKeepsCalls(c, s, w, result);
    FreedKeepsSettled(c, s, w, result);
    ClaimKeepsInv(c, Freed(s, w, result), w);
    ClaimIgnoresOldWorker(c, s, w, result);
  }

  // ---------------------------------------------------------------- every run

  lemma StepKeepsInv<R, E>(c: Config, s: State<R, E>, e: Event<R, E>)
    requires Inv(c, s)
    ensures InRange(s) && Inv(c, Step(c, s, e)) && |Step(c, s, e).workers| == |s.workers|
  {
    InvIsInRange(c, s);
    if Enabled(s, e) {
      var t := Step(c, s, e);
      if e.AttemptSucceeded? {
        SettleKeepsInv(c, s, e.worker, Success(e.value));
      } else if e.AttemptFailed? && s.workers[e.worker].attempt >= c.retries {
        SettleKeepsInv(c, s, e.worker, Failure(e.error));
      } else {
        RetryKeepsInv(c, s, e.worker, t);
      }
    }
  }

  function Run<R, E>(c: Config, s: State<R, E>, schedule: seq<Event<R, E>>): State<R, E>
    requires Inv(c, s)
    decreases |schedule|
  {
    StepKeepsInv(c, s, if schedule == [] then DelayOver(0) else schedule[0]);
    if schedule == [] then s else Run(c, Step(c, s, schedule[0]), schedule[1..])
  }

  lemma {:induction false} RunKeepsInv<R, E>(c: Config, s: State<R, E>, schedule: seq<Event<R, E>>)
    requires Inv(c, s)
    ensures Inv(c, Run(c, s, schedule)) && |Run(c, s, schedule).workers| == |s.workers|
    decreases |schedule|
  {
    if schedule != [] {
      StepKeepsInv(c, s, schedule[0]);
      RunKeepsInv(c, Step(c, s, schedule[0]), schedule[1..]);
    }
  }

  lemma FreshInv<R, E>(c: Config, concurrency: nat)
    ensures Inv(c, Fresh<R, E>(c, concurrency))
  {}

  /** The workers before w have started. */
  ghost predicate StartedUpTo<R, E>(s: State<R, E>, w: nat) {
    forall v :: 0 <= v < |s.workers| ==> (s.workers[v].Idle? <==> v >= w)
  }

  lemma ClaimStarts<R, E>(c: Config, s: State<R, E>, w: nat)
    requires w < |s.workers| && StartedUpTo(s, w)
    ensures |Claim(c, s, w).workers| == |s.workers| && StartedUpTo(Claim(c, s, w), w + 1)
  {}

  lemma {:induction false} LaunchKeepsInv<R, E>(c: Config, s: State<R, E>, w: nat)
    requires Inv(c, s) && w <= |s.workers| && StartedUpTo(s, w)
    ensures var t := LaunchFrom(c, s, w);
      Inv(c, t) && |t.workers| == |s.workers| && AllStarted(t)
    decreases |s.workers| - w
  {
    if w < |s.workers| {
      ClaimKeepsInv(c, s, w);
      ClaimStarts(c, s, w);
      LaunchKeepsInv(c, Claim(c, s, w), w + 1);
    }
  }

  ghost predicate AllStarted<R, E>(s: State<R, E>) {
    forall v :: 0 <= v < |s.workers| ==> !s.workers[v].Idle?
  }

  function Launch<R, E>(c: Config, concurrency: nat): State<R, E> { LaunchFrom(c, Fresh(c, concurrency), 0) }

  lemma LaunchIsSound<R, E>(c: Config, concurrency: nat)
    ensures var s := Launch<R, E>(c, concurrency);
      Inv(c, s) && |s.workers| == Min(concurrency, c.items) && AllStarted(s)
  {
    FreshInv<R, E>(c, concurrency);
    LaunchKeepsInv(c, Fresh<R, E>(c, concurrency), 0);
  }

  // ---------------------------------------------------------------- what a finished run has done

  ghost predicate Finished<R, E>(s: State<R, E>) {
    forall w :: 0 <= w < |s.workers| ==> s.workers[w].Returned?
  }

  /** values.filter(value => value !== undefined) */
  function Defined<R>(values: seq<Option<R>>): seq<R> {
    if values == [] then [] else (if values[0].Some? then [values[0].value] else []) + Defined(values[1..])
  }

  function Results<R, E>(s: State<R, E>): seq<R> { Defined(s.values) }

  /** How often a handler succeeded with the value undefined. */
  function Undefineds<R, E>(settled: seq<Settlement<R, E>>): nat {
    if settled == [] then 0
    else Undefineds(settled[..|settled| - 1]) + if settled[|settled| - 1].result == Success(None) then 1 else 0
  }

  ghost predicate DistinctIndices<R, E>(settled: seq<Settlement<R, E>>) {
    forall j, k :: 0 <= j < k < |settled| ==> settled[j].index != settled[k].index
  }

  function ValueOf<R, E>(result: Result<R, E>): Option<R> { if result.Success? then result.value else None }

  lemma {:induction false} UnsettledIsNone<R, E>(n: nat, settled: seq<Settlement<R, E>>, i: nat)
    requires i < n && !IsSettled(settled, i)
    ensures ValuesOf(n, settled)[i] == None
  {
    if settled != [] {
      var before := settled[..|settled| - 1];
      assert forall k :: 0 <= k < |before| ==> before[k] == settled[k];
      UnsettledIsNone(n, before, i);
    }
  }

  lemma {:induction false} SettledValue<R, E>(n: nat, settled: seq<Settlement<R, E>>, k: nat)
    requires k < |settled| && DistinctIndices(settled) && settled[k].index < n
    ensures ValuesOf(n, settled)[settled[k].index] == ValueOf(settled[k].result)
  {
    var last := |settled| - 1;
    var before := settled[..last];
    if k < last {
      SettledValue(n, before, k);
      assert settled[k].index != settled[last].index;
    } else {
      UnsettledIsNone(n, before, settled[k].index);
    }
  }

  lemma {:induction false} DefinedOneMore<R>(values: seq<Option<R>>, i: nat, v: Option<R>)
    requires i < |values| && values[i] == None
    ensures |Defined(values[i := v])| == |Defined(values)| + if v.Some? then 1 else 0
  {
    if i == 0 {
      assert values[i := v][1..] == values[1..];
    } else {
      DefinedOneMore(values[1..], i - 1, v);
      assert values[i := v][1..] == values[1..][i - 1 := v];
    }
  }

  lemma {:induction false} NothingDefined<R>(n: nat, values: seq<Option<R>>)
    requires |values| == n && forall i :: 0 <= i < n ==> values[i] == None
    ensures Defined(values) == []
  {
    if n > 0 { NothingDefined(n - 1, values[1..]); }
  }

  /** Every settled item is a result, an error or an undefined value. */
  lemma {:induction false} SettledAddUp<R, E>(n: nat, settled: seq<Settlement<R, E>>)
    requires DistinctIndices(settled) && forall k :: 0 <= k < |settled| ==> settled[k].index < n
    ensures |Defined(ValuesOf(n, settled))| + |ErrorsOf(settled)| + Undefineds(settled) == |settled|
    ensures Successes(settled) + |ErrorsOf(settled)| == |settled|
  {
    if settled == [] {
      NothingDefined(n, ValuesOf(n, settled));
    } else {
      var before, last := settled[..|settled| - 1], settled[|settled| - 1];
      SettledAddUp(n, before);
      UnsettledIsNone(n, before, last.index);
      if last.result.Success? { DefinedOneMore(ValuesOf(n, before), last.index, last.result.value); }
    }
  }

  function Below(n: nat): (s: set<nat>)
    ensures |s| == n && forall i :: i in s <==> 0 <= i < n
  {
    if n == 0 then {} else Below(n - 1) + {n - 1}
  }

  function Indices<R, E>(settled: seq<Settlement<R, E>>): (s: set<nat>)
    ensures forall i :: i in s <==> IsSettled(settled, i)
  {
    if settled == [] then {}
    else
      var before, last := settled[..|settled| - 1], settled[|settled| - 1];
      assert settled == before + [last];
      assert forall i :: IsSettled(settled, i) <==> IsSettled(before, i) || last.index == i by {
        forall i ensures IsSettled(settled, i) <==> IsSettled(before, i) || last.index == i {
          SettledOneMore(before, last, i);
        }
      }
      Indices(before) + {last.index}
  }

  lemma {:induction false} DistinctCount<R, E>(settled: seq<Settlement<R, E>>)
    requires DistinctIndices(settled)
    ensures |Indices(settled)| == |settled|
  {
    if settled != [] {
      var before, last := settled[..|settled| - 1], settled[|settled| - 1];
      DistinctCount(before);
      assert !IsSettled(before, last.index);
    }
  }

  lemma AllAreSettled<R, E>(c: Config, s: State<R, E>)
    requires Inv(c, s) && Finished(s) && (c.items > 0 ==> |s.workers| > 0)
    ensures |s.settled| == c.items && forall i :: 0 <= i < c.items ==> IsSettled(s.settled, i)
  {
    forall i | 0 <= i < c.items ensures IsSettled(s.settled, i) {
      assert s.workers[0].Returned?;
      assert Claimed(c, s, i);
    }
    forall i: nat | IsSettled(s.settled, i) ensures i < c.items {
      var k :| 0 <= k < |s.settled| && s.settled[k].index == i;
      assert Claimed(c, s, s.settled[k].index);
    }
    DistinctCount(s.settled);
    assert Indices(s.settled) == Below(c.items);
  }

  /** What the promise of process() resolves to. */
  ghost predicate ProcessedAll<R, E>(c: Config, s: State<R, E>) {
    && |s.settled| == c.items == |s.values| && DistinctIndices(s.settled)
    && (forall i :: 0 <= i < c.items ==> IsSettled(s.settled, i))
    && (forall k :: 0 <= k < |s.settled| ==>
          s.settled[k].index < c.items && s.values[s.settled[k].index] == ValueOf(s.settled[k].result))
    && s.failures == ErrorsOf(s.settled)
    && s.completed + s.failed == c.items
    && |Results(s)| + |s.failures| + Undefineds(s.settled) == c.items
  }

  lemma FinishedIsProcessed<R, E>(c: Config, s: State<R, E>)
    requires Inv(c, s) && Finished(s) && (c.items > 0 ==> |s.workers| > 0)
    ensures ProcessedAll(c, s)
  {
    AllAreSettled(c, s);
    forall k | 0 <= k < |s.settled|
      ensures s.settled[k].index < c.items && s.values[s.settled[k].index] == ValueOf(s.settled[k].result)
    {
      assert Claimed(c, s, s.settled[k].index);
      SettledValue(c.items, s.settled, k);
    }
    SettledAddUp(c.items, s.settled);
  }

  /**
   Main result: under every schedule and every pattern of failures, when all workers have
   returned every item has been settled exactly once, its value stands at its own index, and
   results, errors and undefined values add up to the items.
  */
  lemma EveryScheduleProcessesEachItem<R, E>(c: Config, concurrency: nat, schedule: seq<Event<R, E>>)
    requires concurrency >= 1
    ensures var s := Launch<R, E>(c, concurrency);
      Inv(c, s) && (Finished(Run(c, s, schedule)) ==> ProcessedAll(c, Run(c, s, schedule)))
  {
    LaunchIsSound<R, E>(c, concurrency);
    var s := Launch<R, E>(c, concurrency);
    RunKeepsInv(c, s, schedule);
    if Finished(Run(c, s, schedule)) { FinishedIsProcessed(c, Run(c, s, schedule)); }
  }

  lemma {:induction false} DefinedOfAll<R>(values: seq<Option<R>>)
    requires forall i :: 0 <= i < |values| ==> values[i].Some?
    ensures |Defined(values)| == |values| && forall i :: 0 <= i < |values| ==> values[i] == Some(Defined(values)[i])
  {
    if values != [] { DefinedOfAll(values[1..]); }
  }

  /** The results are in item order: if item i ended with the value g(i), or with none, they are the values
      among g(0), g(1), ... */
  lemma ResultsAreInItemOrder<R, E>(c: Config, s: State<R, E>, g: nat -> Option<R>)
    requires ProcessedAll(c, s)
    requires forall k :: 0 <= k < |s.settled| ==> ValueOf(s.settled[k].result) == g(s.settled[k].index)
    ensures Results(s) == Defined(seq(c.items, i requires 0 <= i < c.items => g(i)))
  {
    forall i | 0 <= i < c.items ensures s.values[i] == g(i) {
      assert IsSettled(s.settled, i);
      var k :| 0 <= k < |s.settled| && s.settled[k].index == i;
    }
    assert s.values == seq(c.items, i requires 0 <= i < c.items => g(i));
  }

  /** In particular, if every item i succeeded with f(i), they are f(0), f(1), ... and there are no errors. */
  lemma ResultsOfSuccess<R, E>(c: Config, s: State<R, E>, f: nat -> R)
    requires ProcessedAll(c, s)
    requires forall k :: 0 <= k < |s.settled| ==> s.settled[k].result == Success(Some(f(s.settled[k].index)))
    ensures |Results(s)| == c.items && s.failures == []
    ensures forall i :: 0 <= i < c.items ==> Results(s)[i] == f(i)
  {
    forall i | 0 <= i < c.items ensures s.values[i] == Some(f(i)) {
      assert IsSettled(s.settled, i);
      var k :| 0 <= k < |s.settled| && s.settled[k].index == i;
    }
    DefinedOfAll(s.values);
  }

  /** At every moment: no item has had more than retries + 1 attempts, its attempts are numbered in order,
      and an item that failed has had them all. */
  lemma AttemptsAreBounded<R, E>(c: Config, concurrency: nat, schedule: seq<Event<R, E>>, i: nat)
    ensures var s := Launch<R, E>(c, concurrency);
      && Inv(c, s)
      && var t := Run(c, s, schedule);
      && Count(t.calls, i) <= c.retries + 1 && Consecutive(t.calls)
      && (forall k :: 0 <= k < |t.settled| && t.settled[k].result.Failure? ==>
            Count(t.calls, t.settled[k].index) == c.retries + 1)
  {
    LaunchIsSound<R, E>(c, concurrency);
    RunKeepsInv(c, Launch<R, E>(c, concurrency), schedule);
  }

  // ---------------------------------------------------------------- concurrency

  function InProgress(workers: seq<Worker>): set<nat> {
    set w | 0 <= w < |workers| && Busy(workers[w]) :: workers[w].index
  }

  lemma {:induction false} InProgressBound(workers: seq<Worker>)
    ensures |InProgress(workers)| <= |workers|
  {
    if workers != [] {
      var last := |workers| - 1;
      InProgressBound(workers[..last]);
      var own := if Busy(workers[last]) then {workers[last].index} else {};
      assert InProgress(workers) == InProgress(workers[..last]) + own;
    }
  }

  /** At most `concurrency` items are in progress at any moment, and no two workers share one. */
  lemma ConcurrencyIsBounded<R, E>(c: Config, concurrency: nat, schedule: seq<Event<R, E>>)
    ensures var s := Launch<R, E>(c, concurrency);
      && Inv(c, s)
      && var t := Run(c, s, schedule);
      && |InProgress(t.workers)| <= concurrency
      && (forall v, w :: 0 <= v < w < |t.workers| && Busy(t.workers[w]) ==> !Holds(t.workers[v], t.workers[w].index))
  {
    LaunchIsSound<R, E>(c, concurrency);
    RunKeepsInv(c, Launch<R, E>(c, concurrency), schedule);
    InProgressBound(Run(c, Launch<R, E>(c, concurrency), schedule).workers);
  }

  /** Each worker starts with the item of its own number. */
  lemma {:induction false} LaunchClaims<R, E>(c: Config, s: State<R, E>, w: nat)
    requires w <= |s.workers| <= c.items && s.next == w
    requires forall v :: 0 <= v < w ==> s.workers[v] == Running(v, 0)
    ensures var t := LaunchFrom(c, s, w);
      |t.workers| == |s.workers| && forall v :: 0 <= v < |t.workers| ==> t.workers[v] == Running(v, 0)
    decreases |s.workers| - w
  {
    if w < |s.workers| { LaunchClaims(c, Claim(c, s, w), w + 1); }
  }

  /** The batch starts with as many items in progress as the concurrency and the items allow: the first ones. */
  lemma LaunchStartsAll<R, E>(c: Config, concurrency: nat)
    ensures InProgress(Launch<R, E>(c, concurrency).workers) == Below(Min(concurrency, c.items))
    ensures |InProgress(Launch<R, E>(c, concurrency).workers)| == Min(concurrency, c.items)
  {
    LaunchClaims(c, Fresh<R, E>(c, concurrency), 0);
    var workers := Launch<R, E>(c, concurrency).workers;
    forall i | i in Below(Min(concurrency, c.items)) ensures i in InProgress(workers) {
      assert workers[i].index == i;
    }
  }

  // ---------------------------------------------------------------- delays between attempts

  /** How often an attempt at item i was not the first one. */
  function LaterCalls(calls: seq<Call>, i: nat): nat {
    if calls == [] then 0
    else
      var last := calls[|calls| - 1];
      LaterCalls(calls[..|calls| - 1], i) + if last.index == i && last.attempt > 0 then 1 else 0
  }

  /** How often a worker that held item i was called after a delay. */
  function Waits<R, E>(c: Config, s: State<R, E>, schedule: seq<Event<R, E>>, i: nat): nat
    requires Inv(c, s)
    decreases |schedule|
  {
    StepKeepsInv(c, s, if schedule == [] then DelayOver(0) else schedule[0]);
    if schedule == [] then 0
    else WaitOf(s, schedule[0], i) + Waits(c, Step(c, s, schedule[0]), schedule[1..], i)
  }

  function WaitOf<R, E>(s: State<R, E>, e: Event<R, E>, i: nat): nat {
    if e.DelayOver? && Enabled(s, e) && s.workers[e.worker].index == i then 1 else 0
  }

  lemma LaterCallsAppend(calls: seq<Call>, call: Call, i: nat)
    ensures LaterCalls(calls + [call], i) == LaterCalls(calls, i) + if call.index == i && call.attempt > 0 then 1 else 0
  {
    assert (calls + [call])[..|calls|] == calls;
  }

  lemma StepAddsWaits<R, E>(c: Config, s: State<R, E>, e: Event<R, E>, i: nat)
    requires Inv(c, s) && c.retryDelay > 0
    ensures InRange(s) && LaterCalls(Step(c, s, e).calls, i) == LaterCalls(s.calls, i) + WaitOf(s, e, i)
  {
    InvIsInRange(c, s);
    if Enabled(s, e) {
      var busy := s.workers[e.worker];
      LaterCallsAppend(s.calls, Call(s.next, 0), i);
      LaterCallsAppend(s.calls, Call(busy.index, busy.attempt + 1), i);
    }
  }

  /** With a retry delay, on every schedule each attempt but the first at an item comes after a delay of its own. */
  lemma {:induction false} LaterAttemptsWait<R, E>(c: Config, s: State<R, E>, schedule: seq<Event<R, E>>, i: nat)
    requires Inv(c, s) && c.retryDelay > 0
    ensures LaterCalls(Run(c, s, schedule).calls, i) == LaterCalls(s.calls, i) + Waits(c, s, schedule, i)
    decreases |schedule|
  {
    if schedule != [] {
      StepKeepsInv(c, s, schedule[0]);
      StepAddsWaits(c, s, schedule[0], i);
      LaterAttemptsWait(c, Step(c, s, schedule[0]), schedule[1..], i);
    }
  }

  ghost predicate NobodyWaits<R, E>(s: State<R, E>) { forall w :: 0 <= w < |s.workers| ==> !s.workers[w].Waiting? }

  lemma StepNeverWaits<R, E>(c: Config, s: State<R, E>, e: Event<R, E>)
    requires Inv(c, s) && c.retryDelay == 0 && NobodyWaits(s)
    ensures InRange(s) && NobodyWaits(Step(c, s, e))
  {
    InvIsInRange(c, s);
  }

  /** Without one, no worker ever waits. */
  lemma {:induction false} NoDelayNoWait<R, E>(c: Config, s: State<R, E>, schedule: seq<Event<R, E>>)
    requires Inv(c, s) && c.retryDelay == 0 && NobodyWaits(s)
    ensures NobodyWaits(Run(c, s, schedule))
    decreases |schedule|
  {
    if schedule != [] {
      StepKeepsInv(c, s, schedule[0]);
      StepNeverWaits(c, s, schedule[0]);
      NoDelayNoWait(c, Step(c, s, schedule[0]), schedule[1..]);
    }
  }

  // ---------------------------------------------------------------- progress

  function Rank(c: Config, w: Worker): nat {
    if w.Running? && w.attempt <= c.retries then 2 * (c.retries - w.attempt) + 2
    else if w.Waiting? && w.attempt <= c.retries then 2 * (c.retries - w.attempt) + 1
    else 0
  }

  function SumRank(c: Config, workers: seq<Worker>): nat {
    if workers == [] then 0 else Rank(c, workers[0]) + SumRank(c, workers[1..])
  }

  lemma {:induction false} SumRankUpdate(c: Config, workers: seq<Worker>, w: nat, x: Worker)
    requires w < |workers|
    ensures SumRank(c, workers[w := x]) == SumRank(c, workers) - Rank(c, workers[w]) + Rank(c, x)
    ensures SumRank(c, workers) >= Rank(c, workers[w])
  {
    if w == 0 {
      assert workers[w := x][1..] == workers[1..];
    } else {
      SumRankUpdate(c, workers[1..], w - 1, x);
      assert workers[w := x][1..] == workers[1..][w - 1 := x];
    }
  }

  /** Attempts and delays that are still possible. */
  function Remaining<R, E>(c: Config, s: State<R, E>): nat {
    Times(if s.next < c.items then c.items - s.next else 0, 2 * c.retries + 2) + SumRank(c, s.workers)
  }

  function Times(n: nat, weight: nat): nat { if n == 0 then 0 else weight + Times(n - 1, weight) }

  lemma StepUpdatesWorker<R, E>(c: Config, s: State<R, E>, e: Event<R, E>)
    requires Inv(c, s) && Enabled(s, e)
    ensures InRange(s)
    ensures var t := Step(c, s, e);
      |t.workers| == |s.workers| && t.workers == s.workers[e.worker := t.workers[e.worker]]
  {}

  /** Either the worker moves on with the same item, or it leaves an attempt and takes the next item. */
  lemma EventLowersRank<R, E>(c: Config, s: State<R, E>, e: Event<R, E>)
    requires Inv(c, s) && Enabled(s, e)
    ensures InRange(s)
    ensures var t := Step(c, s, e);
      var before, after := Rank(c, s.workers[e.worker]), Rank(c, t.workers[e.worker]);
      || (t.next == s.next && after < before)
      || (t.next == s.next + 1 && 2 <= before && after == if s.next < c.items then 2 * c.retries + 2 else 0)
  {
    StepUpdatesWorker(c, s, e);
  }

  lemma LowerRankUsesUp<R, E>(c: Config, s: State<R, E>, t: State<R, E>, w: nat)
    requires w < |s.workers| == |t.workers| && t.workers == s.workers[w := t.workers[w]]
    requires var before, after := Rank(c, s.workers[w]), Rank(c, t.workers[w]);
      || (t.next == s.next && after < before)
      || (t.next == s.next + 1 && 2 <= before && after == if s.next < c.items then 2 * c.retries + 2 else 0)
    ensures Remaining(c, t) < Remaining(c, s)
  {
    SumRankUpdate(c, s.workers, w, t.workers[w]);
  }

  lemma EventUsesUp<R, E>(c: Config, s: State<R, E>, e: Event<R, E>)
    requires Inv(c, s) && Enabled(s, e)
    ensures InRange(s) && Remaining(c, Step(c, s, e)) < Remaining(c, s)
  {
    StepUpdatesWorker(c, s, e);
    EventLowersRank(c, s, e);
    LowerRankUsesUp(c, s, Step(c, s, e), e.worker);
  }

  /** No interleaving gets stuck, and every event that happens uses up a bounded resource. */
  lemma ProcessAlwaysProgresses<R, E>(c: Config, s: State<R, E>, e: Event<R, E>, error: E)
    requires Inv(c, s) && AllStarted(s)
    ensures !Finished(s) ==> exists next: Event<R, E> :: Enabled(s, next)
    ensures InRange(s)
    ensures Enabled(s, e) ==> Remaining(c, Step(c, s, e)) < Remaining(c, s)
  {
    InvIsInRange(c, s);
    if !Finished(s) {
      var w: nat :| w < |s.workers| && !s.workers[w].Returned?;
      if s.workers[w].Running? {
        assert Enabled(s, AttemptFailed(w, error));
      } else {
        assert Enabled<R, E>(s, DelayOver(w));
      }
    }
    if Enabled(s, e) { EventUsesUp(c, s, e); }
  }

  // ---------------------------------------------------------------- the imperative runner

  /** The variables that the workers of one process() call share, updated in place. */
  class Batch<R, E> {
    const config: Config
    var next: nat
    var workers: seq<Worker>
    var values: seq<Option<R>>
    var failures: seq<E>
    var completed: nat
    var failed: nat
    var calls: seq<Call>
    var settled: seq<Settlement<R, E>>

    function Snapshot(): State<R, E>
      reads this
    {
      State(next, workers, values, failures, completed, failed, calls, settled)
    }

    constructor (config: Config, concurrency: nat)
      ensures this.config == config && Snapshot() == Fresh(config, concurrency)
    {
      this.config := config;
      next, workers, values := 0, seq(Min(concurrency, config.items), _ => Idle), seq(config.items, _ => None);
      failures, completed, failed, calls, settled := [], 0, 0, [], [];
    }

    method StartAttempt(w: nat, index: nat, attempt: nat)
      requires w < |workers|
      modifies this
      ensures Snapshot() == Attempt(old(Snapshot()), w, index, attempt)
    {
      workers := workers[w := Running(index, attempt)];
      calls := calls + [Call(index, attempt)];
    }

    method TakeNext(w: nat)
      requires w < |workers|
      modifies this
      ensures Snapshot() == Claim(config, old(Snapshot()), w)
    {
      var index := next;
      next := next + 1;
      if index >= config.items {
        workers := workers[w := Returned];
      } else {
        StartAttempt(w, index, 0);
      }
    }

    method StartWorkers()
      modifies this
      ensures Snapshot() == LaunchFrom(config, old(Snapshot()), 0)
    {
      var w := 0;
      while w < |workers|
        invariant w <= |workers|
        invariant LaunchFrom(config, Snapshot(), w) == LaunchFrom(config, old(Snapshot()), 0)
      {
        TakeNext(w);
        w := w + 1;
      }
    }

    method Store(index: nat, value: Option<R>)
      requires index < |values|
      modifies this
      ensures Snapshot() == Settle(old(Snapshot()), index, Success(value))
    {
      values := values[index := value];
      completed := completed + 1;
      settled := settled + [Settlement(index, Success(value))];
    }

    method Fail(index: nat, error: E)
      requires index < |values|
      modifies this
      ensures Snapshot() == Settle(old(Snapshot()), index, Failure(error))
    {
      failures := failures + [error];
      failed := failed + 1;
      settled := settled + [Settlement(index, Failure(error))];
    }

    method IsFinished() returns (finished: bool)
      ensures finished <==> Finished(Snapshot())
    {
      finished := forall w :: 0 <= w < |workers| ==> workers[w].Returned?;
    }

    method Handle(e: Event<R, E>)
      requires Inv(config, Snapshot())
      modifies this
      ensures InRange(old(Snapshot())) && Snapshot() == Step(config, old(Snapshot()), e) && Inv(config, Snapshot())
    {
      StepKeepsInv(config, Snapshot(), e);
      if Enabled(Snapshot(), e) { Resume(e); }
    }

    /** The segment of the worker whose await the event ends. */
    method Resume(e: Event<R, E>)
      requires InRange(Snapshot()) && Enabled(Snapshot(), e)
      modifies this
      ensures Snapshot() == Step(config, old(Snapshot()), e)
    {
      var busy := workers[e.worker];
      match e
      case AttemptSucceeded(w, value) =>
        Store(busy.index, value);
        TakeNext(w);
      case AttemptFailed(w, error) =>
        if busy.attempt >= config.retries {
          Fail(busy.index, error);
          TakeNext(w);
        } else if config.retryDelay > 0 {
          workers := workers[w := Waiting(busy.index, busy.attempt)];
        } else {
          StartAttempt(w, busy.index, busy.attempt + 1);
        }
      case DelayOver(w) =>
        StartAttempt(w, busy.index, busy.attempt + 1);
    }
  }

  class TasksRunner<R, E> {
    const concurrency: nat
    const retries: nat
    const retryDelay: nat
    var completed: nat
    var failed: nat

    constructor (concurrency: int, retries: int, retryDelay: int)
      ensures this.concurrency == AtLeast(1, concurrency) && this.retries == AtLeast(0, retries)
      ensures this.retryDelay == AtLeast(0, retryDelay) && completed == failed == 0
    {
      this.concurrency, this.retries, this.retryDelay :=
          AtLeast(1, concurrency), AtLeast(0, retries), AtLeast(0, retryDelay);
      completed, failed := 0, 0;
    }

    /** None while some worker has not returned. */
    method Process(items: nat, schedule: seq<Event<R, E>>) returns (outcome: Option<(seq<R>, seq<E>)>)
      requires concurrency >= 1
      modifies this
      ensures var c := Config(items, retries, retryDelay);
        var s := Launch<R, E>(c, concurrency);
        && Inv(c, s)
        && var t := Run(c, s, schedule);
        && completed == old(completed) + t.completed && failed == old(failed) + t.failed
        && (outcome.Some? <==> Finished(t))
        && (outcome.Some? ==> ProcessedAll(c, t) && outcome.value == (Results(t), t.failures))
    {
      var c := Config(items, retries, retryDelay);
      var batch := RunBatch<R, E>(c, concurrency, schedule);
      EveryScheduleProcessesEachItem(c, concurrency, schedule);
      completed, failed := completed + batch.completed, failed + batch.failed;
      var finished := batch.IsFinished();
      outcome := if finished then Some((Defined(batch.values), batch.failures)) else None;
    }
  }

  method RunBatch<R, E>(c: Config, concurrency: nat, schedule: seq<Event<R, E>>) returns (batch: Batch<R, E>)
    ensures fresh(batch)
    ensures var s := Launch<R, E>(c, concurrency); Inv(c, s) && batch.Snapshot() == Run(c, s, schedule)
  {
    batch := new Batch<R, E>(c, concurrency);
    batch.StartWorkers();
    LaunchIsSound<R, E>(c, concurrency);
    ghost var s := batch.Snapshot();
    assert schedule[0..] == schedule;
    for i := 0 to |schedule|
      invariant fresh(batch) && batch.config == c && Inv(c, batch.Snapshot())
      invariant Run(c, batch.Snapshot(), schedule[i..]) == Run(c, s, schedule)
    {
      assert schedule[i..][1..] == schedule[i + 1..];
      batch.Handle(schedule[i]);
    }
  }
}
