/** Parallel multipart upload of one body (S3Client.putObjectMultipart). */
module MultipartUpload {
  import opened Bytes
  import opened Wrappers
  import opened MinMax
  import opened Sorting

  const MIN_PART_SIZE: int := 5 * 1024 * 1024
  const DEFAULT_CONCURRENCY: int := 4

  // JavaScript workers interleave only at awaits, so the shared variables change in atomic
  // segments: one segment per event below.  A schedule is any sequence of events; an event that
  // is not enabled leaves the state unchanged, so a schedule stands for every interleaving and
  // every pattern of failures.

  datatype Job = Job(body: Bytes, partSize: int)

  datatype Part = Part(partNumber: int, etag: string)

  datatype Worker =
    | Idle
    | Uploading(partNumber: int)
    | Returned
    | Failed(partNumber: int)

  /** The part list sent by completeMultipartUpload, and the server's answer to it. */
  datatype Phase =
    | Running
    | Completed(ordered: seq<Part>, content: Bytes)
    | CompletionRejected(ordered: seq<Part>)
    | Aborted

  /** `calls` lists the part numbers passed to uploadPart; `stored` is what the server keeps. */
  datatype State = State(
    next: int,
    workers: seq<Worker>,
    parts: seq<Part>,
    uploadedBytes: int,
    calls: seq<int>,
    stored: map<int, Bytes>,
    phase: Phase)

  datatype Event =
    | PartUploaded(worker: nat, etag: string)
    | PartFailed(worker: nat)
    | ProgressThrew(worker: nat, etag: string)
    | CompleteCall(accepted: bool)
    | AbortCall

  datatype Outcome =
    | InvalidPartSize
    | PartSizeTooSmall
    | CreateFailed
    | Launched(state: State)

  function TotalParts(job: Job): int
    requires job.partSize > 0
  {
    Max(1, (|job.body| + job.partSize - 1) / job.partSize)
  }

  /** buffer.subarray clamps both ends to the buffer. */
  function Chunk(job: Job, partNumber: int): Bytes
    requires job.partSize > 0 && partNumber >= 1
  {
    var start := (partNumber - 1) * job.partSize;
    assert start >= 0;
    job.body[Min(start, |job.body|)..Min(start + job.partSize, |job.body|)]
  }

  function Claim(job: Job, s: State, w: nat): State
    requires job.partSize > 0 && w < |s.workers|
  {
    if s.next > TotalParts(job) then
      s.(next := s.next + 1, workers := s.workers[w := Returned])
    else
      s.(next := s.next + 1, workers := s.workers[w := Uploading(s.next)], calls := s.calls + [s.next])
  }

  /** Array.from starts the workers in order; each runs up to its first await. */
  function LaunchFrom(job: Job, s: State, w: nat): State
    requires job.partSize > 0 && w <= |s.workers|
    decreases |s.workers| - w
  {
    if w == |s.workers| then s else LaunchFrom(job, Claim(job, s, w), w + 1)
  }

  function Fresh(concurrency: nat): State {
    State(1, seq(concurrency, _ => Idle), [], 0, [], map[], Running)
  }

  function Concurrency(job: Job, queueConcurrency: Option<int>): nat
    requires job.partSize > 0
  {
    Max(1, Min(if queueConcurrency.Some? then queueConcurrency.value else DEFAULT_CONCURRENCY, TotalParts(job)))
  }

  function Begin(job: Job, queueConcurrency: Option<int>, created: bool): Outcome {
    if job.partSize <= 0 then InvalidPartSize
    else if TotalParts(job) > 1 && job.partSize < MIN_PART_SIZE then PartSizeTooSmall
    else if !created then CreateFailed
    else Launched(LaunchFrom(job, Fresh(Concurrency(job, queueConcurrency)), 0))
  }

  predicate PartNumberLeq(a: Part, b: Part) { a.partNumber <= b.partNumber }

  function OrderedParts(parts: seq<Part>): seq<Part> {
    Sort((a: Part, b: Part) => PartNumberLeq(a, b), parts)
  }

  /** The object the server builds: the stored parts in the order of the list it was sent. */
  function Assemble(stored: map<int, Bytes>, ordered: seq<Part>): Bytes {
    if ordered == [] then []
    else
      var last := ordered[|ordered| - 1].partNumber;
      Assemble(stored, ordered[..|ordered| - 1]) + (if last in stored then stored[last] else [])
  }

  predicate Uploads(s: State, w: nat) {
    w < |s.workers| && s.workers[w].Uploading?
  }

  predicate Enabled(s: State, e: Event) {
    match e
    case PartUploaded(w, _) => Uploads(s, w)
    case PartFailed(w) => Uploads(s, w)
    case ProgressThrew(w, _) => Uploads(s, w)
    case CompleteCall(_) => s.phase.Running? && forall w :: 0 <= w < |s.workers| ==> s.workers[w].Returned?
    case AbortCall => s.phase.Running? && exists w :: 0 <= w < |s.workers| && s.workers[w].Failed?
  }

  /** parts.push, the byte count, and the part kept by the server. */
  function Record(job: Job, s: State, w: nat, etag: string): State
    requires job.partSize > 0 && Uploads(s, w) && s.workers[w].partNumber >= 1
  {
    var n := s.workers[w].partNumber;
    s.(parts := s.parts + [Part(n, etag)],
       uploadedBytes := s.uploadedBytes + |Chunk(job, n)|,
       stored := s.stored[n := Chunk(job, n)])
  }

  function Step(job: Job, s: State, e: Event): State
    requires job.partSize > 0 && forall w: nat :: Uploads(s, w) ==> s.workers[w].partNumber >= 1
  {
    if !Enabled(s, e) then s else
    match e
    case PartUploaded(w, etag) => Claim(job, Record(job, s, w, etag), w)
    case PartFailed(w) => s.(workers := s.workers[w := Failed(s.workers[w].partNumber)])
    case ProgressThrew(w, etag) =>
      var r := Record(job, s, w, etag);
      r.(workers := r.workers[w := Failed(s.workers[w].partNumber)])
    case CompleteCall(accepted) =>
      var ordered := OrderedParts(s.parts);
      s.(phase := if accepted then Completed(ordered, Assemble(s.stored, ordered)) else CompletionRejected(ordered))
    case AbortCall => s.(phase := Aborted)
  }

  // ---------------------------------------------------------------- invariant

  predicate Holds(w: Worker, n: int) {
    (w.Uploading? || w.Failed?) && w.partNumber == n
  }

  ghost predicate HasNumber(parts: seq<Part>, n: int) {
    exists i :: 0 <= i < |parts| && parts[i].partNumber == n
  }

  ghost predicate Recorded(s: State, n: int) {
    HasNumber(s.parts, n)
  }

  ghost predicate Held(s: State, n: int) {
    exists w :: 0 <= w < |s.workers| && Holds(s.workers[w], n)
  }

  ghost predicate Claimed(job: Job, s: State, n: int)
    requires job.partSize > 0
  {
    1 <= n < s.next && n <= TotalParts(job)
  }

  ghost predicate ClaimsInv(job: Job, s: State)
    requires job.partSize > 0
  {
    && s.next >= 1
    && |s.calls| == Min(s.next - 1, TotalParts(job))
    && (forall i :: 0 <= i < |s.calls| ==> s.calls[i] == i + 1)
    && (forall w :: 0 <= w < |s.workers| && s.workers[w].Returned? ==> s.next > TotalParts(job))
    && (forall w :: 0 <= w < |s.workers| && (s.workers[w].Uploading? || s.workers[w].Failed?) ==>
          Claimed(job, s, s.workers[w].partNumber))
    && (forall v, w :: 0 <= v < w < |s.workers| && (s.workers[w].Uploading? || s.workers[w].Failed?) ==>
          !Holds(s.workers[v], s.workers[w].partNumber))
  }

  ghost predicate PartsInv(job: Job, s: State)
    requires job.partSize > 0
  {
    && (forall i :: 0 <= i < |s.parts| ==>
          && Claimed(job, s, s.parts[i].partNumber)
          && s.parts[i].partNumber in s.stored
          && s.stored[s.parts[i].partNumber] == Chunk(job, s.parts[i].partNumber))
    && (forall i, j :: 0 <= i < j < |s.parts| ==> s.parts[i].partNumber != s.parts[j].partNumber)
    && (forall w :: 0 <= w < |s.workers| && s.workers[w].Uploading? ==> !Recorded(s, s.workers[w].partNumber))
    && (forall n {:trigger Claimed(job, s, n)} :: Claimed(job, s, n) ==> Recorded(s, n) || Held(s, n))
    && s.uploadedBytes == TotalLength(job, s.parts)
  }

  ghost predicate PhaseInv(s: State) {
    s.phase.Completed? || s.phase.CompletionRejected? ==>
      && (forall w :: 0 <= w < |s.workers| ==> s.workers[w].Returned?)
      && s.phase.ordered == OrderedParts(s.parts)
      && (s.phase.Completed? ==> s.phase.content == Assemble(s.stored, s.phase.ordered))
  }

  ghost predicate Inv(job: Job, s: State) {
    job.partSize > 0 && ClaimsInv(job, s) && PartsInv(job, s) && PhaseInv(s)
  }

  function TotalLength(job: Job, parts: seq<Part>): int
    requires job.partSize > 0 && forall i :: 0 <= i < |parts| ==> parts[i].partNumber >= 1
  {
    if parts == [] then 0 else |Chunk(job, parts[0].partNumber)| + TotalLength(job, parts[1..])
  }

  lemma {:induction false} TotalLengthAppend(job: Job, parts: seq<Part>, p: Part)
    requires job.partSize > 0 && p.partNumber >= 1 && forall i :: 0 <= i < |parts| ==> parts[i].partNumber >= 1
    ensures TotalLength(job, parts + [p]) == TotalLength(job, parts) + |Chunk(job, p.partNumber)|
  {
    if parts != [] {
      TotalLengthAppend(job, parts[1..], p);
      assert (parts + [p])[1..] == parts[1..] + [p];
    }
  }

  lemma IdleClaimKeepsInv(job: Job, s: State, w: nat)
    requires Inv(job, s) && s.phase.Running?
    requires w < |s.workers| && s.workers[w].Idle?
    ensures Inv(job, Claim(job, s, w))
  {
    var t := Claim(job, s, w);
    forall n | Claimed(job, t, n) ensures Recorded(t, n) || Held(t, n) {
      if Claimed(job, s, n) { CoverageMoves(job, s, t, w, n); } else { assert Holds(t.workers[w], n); }
    }
    assert forall n :: Recorded(t, n) == Recorded(s, n);
  }

  /** A part number stays covered when only worker w changed and w was not holding it. */
  lemma CoverageMoves(job: Job, s: State, t: State, w: nat, n: int)
    requires job.partSize > 0 && w < |s.workers| == |t.workers|
    requires forall v :: 0 <= v < |s.workers| && v != w ==> t.workers[v] == s.workers[v]
    requires s.parts <= t.parts
    requires Recorded(s, n) || Held(s, n)
    requires Holds(s.workers[w], n) ==> Holds(t.workers[w], n) || Recorded(t, n)
    ensures Recorded(t, n) || Held(t, n)
  {
    if Recorded(s, n) {
      var i :| 0 <= i < |s.parts| && s.parts[i].partNumber == n;
      assert t.parts[i].partNumber == n;
    } else {
      var v :| 0 <= v < |s.workers| && Holds(s.workers[v], n);
      if v != w { assert Holds(t.workers[v], n); }
    }
  }

  lemma RecordedAfterRecord(job: Job, s: State, w: nat, etag: string, n: int)
    requires Inv(job, s) && Uploads(s, w)
    ensures Recorded(Record(job, s, w, etag), n) <==> Recorded(s, n) || n == s.workers[w].partNumber
  {
    var t := Record(job, s, w, etag);
    assert t.parts[|s.parts|].partNumber == s.workers[w].partNumber;
    if Recorded(s, n) {
      var i :| 0 <= i < |s.parts| && s.parts[i].partNumber == n;
      assert t.parts[i].partNumber == n;
    }
  }

  /** The two ways a worker leaves a successful upload: claim the next part, or die in onProgress. */
  ghost predicate AfterRecord(job: Job, s: State, w: nat, etag: string, t: State)
    requires Inv(job, s) && Uploads(s, w)
  {
    var r := Record(job, s, w, etag);
    t == Claim(job, r, w) || t == r.(workers := r.workers[w := Failed(s.workers[w].partNumber)])
  }

  lemma RecordThenClaimKeepsClaims(job: Job, s: State, w: nat, etag: string)
    requires Inv(job, s) && Uploads(s, w)
    ensures ClaimsInv(job, Claim(job, Record(job, s, w, etag), w))
  {}

  lemma RecordThenFailKeepsClaims(job: Job, s: State, w: nat, etag: string)
    requires Inv(job, s) && Uploads(s, w)
    ensures var r := Record(job, s, w, etag);
      ClaimsInv(job, r.(workers := r.workers[w := Failed(s.workers[w].partNumber)]))
  {}

  lemma RecordingKeepsClaims(job: Job, s: State, w: nat, etag: string, t: State)
    requires Inv(job, s) && Uploads(s, w) && AfterRecord(job, s, w, etag, t)
    ensures ClaimsInv(job, t)
  {
    RecordThenClaimKeepsClaims(job, s, w, etag);
    RecordThenFailKeepsClaims(job, s, w, etag);
  }

  lemma RecordingKeepsPhase(job: Job, s: State, w: nat, etag: string, t: State)
    requires Inv(job, s) && Uploads(s, w) && AfterRecord(job, s, w, etag, t)
    ensures PhaseInv(t)
  {}

  lemma RecordingKeepsCoverage(job: Job, s: State, w: nat, etag: string, t: State, n: int)
    requires Inv(job, s) && Uploads(s, w) && AfterRecord(job, s, w, etag, t) && Claimed(job, t, n)
    ensures Recorded(t, n) || Held(t, n)
  {
    if Claimed(job, s, n) {
      RecordedAfterRecord(job, s, w, etag, n);
      CoverageMoves(job, s, t, w, n);
    } else {
      assert Holds(t.workers[w], n);
    }
  }

  lemma RecordingKeepsUploadsFresh(job: Job, s: State, w: nat, etag: string, t: State, v: nat)
    requires Inv(job, s) && Uploads(s, w) && AfterRecord(job, s, w, etag, t) && Uploads(t, v)
    ensures !Recorded(t, t.workers[v].partNumber)
  {
    RecordedAfterRecord(job, s, w, etag, t.workers[v].partNumber);
    if v != w {
      assert Holds(s.workers[v], t.workers[v].partNumber);
      assert Holds(s.workers[w], s.workers[w].partNumber);
    } else {
      assert t.workers[v].partNumber == s.next;
    }
  }

  lemma RecordingKeepsParts(job: Job, s: State, w: nat, etag: string, t: State)
    requires Inv(job, s) && Uploads(s, w) && AfterRecord(job, s, w, etag, t)
    ensures
      && (forall i :: 0 <= i < |t.parts| ==>
            && Claimed(job, t, t.parts[i].partNumber)
            && t.parts[i].partNumber in t.stored
            && t.stored[t.parts[i].partNumber] == Chunk(job, t.parts[i].partNumber))
      && (forall i, j :: 0 <= i < j < |t.parts| ==> t.parts[i].partNumber != t.parts[j].partNumber)
      && t.uploadedBytes == TotalLength(job, t.parts)
  {
    var num := s.workers[w].partNumber;
    assert !Recorded(s, num);
    TotalLengthAppend(job, s.parts, Part(num, etag));
    assert t.parts == s.parts + [Part(num, etag)];
  }

  lemma RecordingKeepsInv(job: Job, s: State, w: nat, etag: string, t: State)
    requires Inv(job, s) && Uploads(s, w) && AfterRecord(job, s, w, etag, t)
    ensures Inv(job, t)
  {
    RecordingKeepsClaims(job, s, w, etag, t);
    RecordingKeepsPhase(job, s, w, etag, t);
    RecordingKeepsParts(job, s, w, etag, t);
    forall n | Claimed(job, t, n) ensures Recorded(t, n) || Held(t, n) {
      RecordingKeepsCoverage(job, s, w, etag, t, n);
    }
    forall v | 0 <= v < |t.workers| && t.workers[v].Uploading? ensures !Recorded(t, t.workers[v].partNumber) {
      RecordingKeepsUploadsFresh(job, s, w, etag, t, v);
    }
  }

  lemma FailingKeepsInv(job: Job, s: State, w: nat)
    requires Inv(job, s) && Uploads(s, w)
    ensures Inv(job, s.(workers := s.workers[w := Failed(s.workers[w].partNumber)]))
  {
    var t := s.(workers := s.workers[w := Failed(s.workers[w].partNumber)]);
    assert forall n :: Recorded(t, n) == Recorded(s, n);
    forall n | Claimed(job, t, n) ensures Recorded(t, n) || Held(t, n) {
      assert Claimed(job, s, n);
      CoverageMoves(job, s, t, w, n);
    }
  }

  lemma ClosingKeepsInv(job: Job, s: State, phase: Phase)
    requires Inv(job, s) && PhaseInv(s.(phase := phase))
    ensures Inv(job, s.(phase := phase))
  {
    var t := s.(phase := phase);
    assert forall n :: Recorded(t, n) == Recorded(s, n) && Held(t, n) == Held(s, n);
    assert forall n :: Claimed(job, t, n) == Claimed(job, s, n);
  }

  lemma StepKeepsInv(job: Job, s: State, e: Event)
    requires Inv(job, s)
    ensures Inv(job, Step(job, s, e))
  {
    if Enabled(s, e) {
      match e
      case PartUploaded(w, etag) => RecordingKeepsInv(job, s, w, etag, Step(job, s, e));
      case ProgressThrew(w, etag) => RecordingKeepsInv(job, s, w, etag, Step(job, s, e));
      case PartFailed(w) => FailingKeepsInv(job, s, w);
      case CompleteCall(_) => ClosingKeepsInv(job, s, Step(job, s, e).phase);
      case AbortCall => ClosingKeepsInv(job, s, Aborted);
    }
  }

  lemma {:induction false} LaunchKeepsInv(job: Job, s: State, w: nat)
    requires Inv(job, s) && s.phase.Running? && w <= |s.workers|
    requires forall v :: w <= v < |s.workers| ==> s.workers[v].Idle?
    requires forall v :: 0 <= v < w ==> !s.workers[v].Idle?
    ensures
      var t := LaunchFrom(job, s, w);
      && Inv(job, t) && t.phase.Running? && |t.workers| == |s.workers|
      && (forall v :: 0 <= v < |t.workers| ==> !t.workers[v].Idle?)
    decreases |s.workers| - w
  {
    if w < |s.workers| {
      IdleClaimKeepsInv(job, s, w);
      LaunchKeepsInv(job, Claim(job, s, w), w + 1);
    }
  }

  function Run(job: Job, s: State, schedule: seq<Event>): State
    requires Inv(job, s)
    decreases |schedule|
  {
    if schedule == [] then s
    else
      StepKeepsInv(job, s, schedule[0]);
      Run(job, Step(job, s, schedule[0]), schedule[1..])
  }

  // ---------------------------------------------------------------- the parts tile the body

  lemma TotalPartsBounds(job: Job)
    requires job.partSize > 0
    ensures TotalParts(job) * job.partSize >= |job.body|
    ensures job.body != [] ==> (TotalParts(job) - 1) * job.partSize < |job.body|
    ensures job.body == [] ==> TotalParts(job) == 1
  {
    var n, p := |job.body|, job.partSize;
    var q := (n + p - 1) / p;
    assert q * p + (n + p - 1) % p == n + p - 1;
    assert (q - 1) * p == q * p - p;
    assert n > 0 ==> q >= 1;
  }

  lemma MulMonotone(a: int, b: int, p: nat)
    requires a <= b
    ensures a * p <= b * p
  {}

  lemma EarlierEnd(n: int, last: int, p: nat)
    requires n <= last
    ensures (n - 1) * p + p <= last * p
  {
    MulMonotone(n, last, p);
    assert (n - 1) * p + p == n * p;
  }

  lemma FullChunk(job: Job, n: int)
    requires job.partSize > 0 && 1 <= n < TotalParts(job)
    ensures |Chunk(job, n)| == job.partSize
  {
    TotalPartsBounds(job);
    EarlierEnd(n, TotalParts(job) - 1, job.partSize);
  }

  lemma LastChunk(job: Job)
    requires job.partSize > 0
    ensures |Chunk(job, TotalParts(job))| == |job.body| - (TotalParts(job) - 1) * job.partSize
    ensures job.body != [] ==> 1 <= |Chunk(job, TotalParts(job))| <= job.partSize
  {
    TotalPartsBounds(job);
  }

  /** Every part but the last has exactly the part size; the last one has the rest. */
  lemma ChunkSizes(job: Job, n: int)
    requires job.partSize > 0 && 1 <= n <= TotalParts(job)
    ensures |Chunk(job, n)| == if n < TotalParts(job) then job.partSize else |job.body| - (n - 1) * job.partSize
    ensures job.body != [] ==> 1 <= |Chunk(job, n)| <= job.partSize
  {
    if n < TotalParts(job) { FullChunk(job, n); } else { LastChunk(job); }
  }

  ghost predicate Numbered(parts: seq<Part>) {
    forall i :: 0 <= i < |parts| ==> parts[i].partNumber == i + 1
  }

  /** Where part n ends in the body. */
  function Cut(job: Job, n: nat): nat
    requires job.partSize > 0
  {
    assert n * job.partSize >= 0;
    Min(n * job.partSize, |job.body|)
  }

  lemma ChunkIsBetweenCuts(job: Job, n: nat)
    requires job.partSize > 0
    ensures Cut(job, n) <= Cut(job, n + 1) <= |job.body|
    ensures Chunk(job, n + 1) == job.body[Cut(job, n)..Cut(job, n + 1)]
  {
    assert (n + 1) * job.partSize == n * job.partSize + job.partSize;
  }

  /** The first n chunks in order. */
  function Joined(job: Job, n: nat): Bytes
    requires job.partSize > 0
  {
    if n == 0 then [] else Joined(job, n - 1) + Chunk(job, n)
  }

  lemma {:induction false} ChunksTileTheBody(job: Job, n: nat)
    requires job.partSize > 0
    ensures Joined(job, n) == job.body[..Cut(job, n)]
  {
    if n > 0 {
      ChunksTileTheBody(job, n - 1);
      ChunkIsBetweenCuts(job, n - 1);
    }
  }

  lemma {:induction false} AssembleJoins(job: Job, stored: map<int, Bytes>, ordered: seq<Part>)
    requires job.partSize > 0 && Numbered(ordered)
    requires forall n :: 1 <= n <= |ordered| ==> n in stored && stored[n] == Chunk(job, n)
    ensures Assemble(stored, ordered) == Joined(job, |ordered|)
    ensures TotalLength(job, ordered) == |Joined(job, |ordered|)|
  {
    if ordered != [] {
      var k := |ordered| - 1;
      AssembleJoins(job, stored, ordered[..k]);
      assert ordered == ordered[..k] + [ordered[k]];
      TotalLengthAppend(job, ordered[..k], ordered[k]);
    }
  }

  lemma AllChunksAreTheBody(job: Job)
    requires job.partSize > 0
    ensures TotalParts(job) >= 1 && Joined(job, TotalParts(job)) == job.body
  {
    ChunksTileTheBody(job, TotalParts(job));
    TotalPartsBounds(job);
  }

  /** Strictly ascending numbers from 1..n that miss none of them are 1, 2, ..., n. */
  lemma {:induction false} AscendingCover(parts: seq<Part>, n: nat)
    requires forall i, j :: 0 <= i < j < |parts| ==> parts[i].partNumber < parts[j].partNumber
    requires forall i :: 0 <= i < |parts| ==> 1 <= parts[i].partNumber <= n
    requires forall m :: 1 <= m <= n ==> HasNumber(parts, m)
    ensures |parts| == n && Numbered(parts)
  {
    assert parts != [] ==> 1 <= parts[0].partNumber <= n;
    if n > 0 {
      assert HasNumber(parts, n);
      var i :| 0 <= i < |parts| && parts[i].partNumber == n;
      var last := |parts| - 1;
      assert parts[last].partNumber <= n;
      forall m | 1 <= m <= n - 1 ensures HasNumber(parts[..last], m) {
        assert HasNumber(parts, m);
        var j :| 0 <= j < |parts| && parts[j].partNumber == m;
        assert parts[..last][j].partNumber == m;
      }
      AscendingCover(parts[..last], n - 1);
    }
  }

  lemma {:induction false} SortKeepsTotalLength(job: Job, parts: seq<Part>)
    requires job.partSize > 0 && forall p :: p in parts ==> p.partNumber >= 1
    ensures forall p :: p in OrderedParts(parts) ==> p.partNumber >= 1
    ensures TotalLength(job, OrderedParts(parts)) == TotalLength(job, parts)
  {
    SortPermutes((a: Part, b: Part) => PartNumberLeq(a, b), parts);
    if parts != [] {
      SortKeepsTotalLength(job, parts[1..]);
      InsertAddsLength(job, parts[0], OrderedParts(parts[1..]));
    }
  }

  lemma {:induction false} InsertAddsLength(job: Job, p: Part, s: seq<Part>)
    requires job.partSize > 0 && p.partNumber >= 1 && forall q :: q in s ==> q.partNumber >= 1
    ensures
      var t := Insert((a: Part, b: Part) => PartNumberLeq(a, b), p, s);
      && (forall q :: q in t ==> q.partNumber >= 1)
      && TotalLength(job, t) == |Chunk(job, p.partNumber)| + TotalLength(job, s)
  {
    if s != [] && !PartNumberLeq(p, s[0]) {
      InsertAddsLength(job, p, s[1..]);
    }
  }

  lemma OrderedPartsAscend(parts: seq<Part>)
    requires forall i, j :: 0 <= i < j < |parts| ==> parts[i].partNumber != parts[j].partNumber
    ensures
      var ordered := OrderedParts(parts);
      forall i, j :: 0 <= i < j < |ordered| ==> ordered[i].partNumber < ordered[j].partNumber
  {
    var leq := (a: Part, b: Part) => PartNumberLeq(a, b);
    var ordered := OrderedParts(parts);
    SortSorts(leq, parts);
    SortPermutes(leq, parts);
    SortKeepsDistinct(leq, parts);
    forall i, j | 0 <= i < j < |ordered| ensures ordered[i].partNumber < ordered[j].partNumber {
      assert leq(ordered[i], ordered[j]);
      assert ordered[i] in parts && ordered[j] in parts && ordered[i] != ordered[j];
    }
  }

  /** When all workers have returned, exactly the numbers 1..totalParts are recorded. */
  lemma AllPartsRecorded(job: Job, s: State, m: int)
    requires Inv(job, s)
    requires |s.workers| > 0 && forall w :: 0 <= w < |s.workers| ==> s.workers[w].Returned?
    ensures HasNumber(s.parts, m) <==> 1 <= m <= TotalParts(job)
  {
    assert s.workers[0].Returned?;
    if 1 <= m <= TotalParts(job) {
      assert Claimed(job, s, m);
      assert !Held(s, m);
    }
    if HasNumber(s.parts, m) {
      var i :| 0 <= i < |s.parts| && s.parts[i].partNumber == m;
      assert Claimed(job, s, s.parts[i].partNumber);
    }
  }

  lemma SameNumbers(a: seq<Part>, b: seq<Part>, m: int)
    requires forall p :: p in a <==> p in b
    ensures HasNumber(a, m) <==> HasNumber(b, m)
  {
    if HasNumber(a, m) {
      var i :| 0 <= i < |a| && a[i].partNumber == m;
      assert a[i] in b;
    }
    if HasNumber(b, m) {
      var i :| 0 <= i < |b| && b[i].partNumber == m;
      assert b[i] in a;
    }
  }

  lemma OrderedPartsAreNumbered(job: Job, s: State)
    requires Inv(job, s)
    requires |s.workers| > 0 && forall w :: 0 <= w < |s.workers| ==> s.workers[w].Returned?
    ensures Numbered(OrderedParts(s.parts)) && |OrderedParts(s.parts)| == TotalParts(job)
    ensures multiset(OrderedParts(s.parts)) == multiset(s.parts)
  {
    var ordered := OrderedParts(s.parts);
    OrderedPartsAscend(s.parts);
    SortPermutes((a: Part, b: Part) => PartNumberLeq(a, b), s.parts);
    forall m ensures HasNumber(ordered, m) <==> 1 <= m <= TotalParts(job) {
      AllPartsRecorded(job, s, m);
      SameNumbers(ordered, s.parts, m);
    }
    forall i | 0 <= i < |ordered| ensures 1 <= ordered[i].partNumber <= TotalParts(job) {
      assert HasNumber(ordered, ordered[i].partNumber);
    }
    AscendingCover(ordered, TotalParts(job));
  }

  /** What a sent completeMultipartUpload tells us about the whole upload. */
  ghost predicate ExactUpload(job: Job, s: State, ordered: seq<Part>)
    requires job.partSize > 0
  {
    && |ordered| == TotalParts(job) && Numbered(ordered)
    && multiset(ordered) == multiset(s.parts)
    && |s.calls| == TotalParts(job) && (forall i :: 0 <= i < |s.calls| ==> s.calls[i] == i + 1)
    && (forall n :: 1 <= n <= TotalParts(job) ==> n in s.stored && s.stored[n] == Chunk(job, n))
    && (forall w :: 0 <= w < |s.workers| ==> s.workers[w].Returned?)
    && s.uploadedBytes == |job.body|
    && Assemble(s.stored, ordered) == job.body
  }

  lemma AllPartsStored(job: Job, s: State, n: int)
    requires Inv(job, s) && 1 <= n <= TotalParts(job)
    requires |s.workers| > 0 && forall w :: 0 <= w < |s.workers| ==> s.workers[w].Returned?
    ensures n in s.stored && s.stored[n] == Chunk(job, n)
  {
    assert s.workers[0].Returned?;
    assert Claimed(job, s, n);
    assert HasNumber(s.parts, n);
  }

  lemma OrderedPartsAssembleTheBody(job: Job, s: State)
    requires Inv(job, s) && |s.workers| > 0
    requires forall w :: 0 <= w < |s.workers| ==> s.workers[w].Returned?
    ensures forall n :: 1 <= n <= TotalParts(job) ==> n in s.stored && s.stored[n] == Chunk(job, n)
    ensures s.uploadedBytes == |job.body| && Assemble(s.stored, OrderedParts(s.parts)) == job.body
  {
    OrderedPartsAreNumbered(job, s);
    forall n | 1 <= n <= TotalParts(job) ensures n in s.stored && s.stored[n] == Chunk(job, n) {
      AllPartsStored(job, s, n);
    }
    AssembleJoins(job, s.stored, OrderedParts(s.parts));
    AllChunksAreTheBody(job);
    SortKeepsTotalLength(job, s.parts);
  }

  lemma CompletionIsExact(job: Job, s: State)
    requires Inv(job, s) && |s.workers| > 0
    requires s.phase.Completed? || s.phase.CompletionRejected?
    ensures ExactUpload(job, s, s.phase.ordered)
    ensures s.phase.Completed? ==> s.phase.content == job.body
  {
    OrderedPartsAreNumbered(job, s);
    OrderedPartsAssembleTheBody(job, s);
    assert s.workers[0].Returned?;
  }

  // ---------------------------------------------------------------- whole runs

  lemma {:induction false} RunKeepsInv(job: Job, s: State, schedule: seq<Event>)
    requires Inv(job, s)
    ensures Inv(job, Run(job, s, schedule)) && |Run(job, s, schedule).workers| == |s.workers|
    decreases |schedule|
  {
    if schedule != [] {
      StepKeepsInv(job, s, schedule[0]);
      RunKeepsInv(job, Step(job, s, schedule[0]), schedule[1..]);
    }
  }

  lemma LaunchIsSound(job: Job, queueConcurrency: Option<int>)
    requires Begin(job, queueConcurrency, true).Launched?
    ensures
      var s := Begin(job, queueConcurrency, true).state;
      && Inv(job, s) && s.phase.Running?
      && |s.workers| == Concurrency(job, queueConcurrency) >= 1
      && (forall v :: 0 <= v < |s.workers| ==> !s.workers[v].Idle?)
  {
    LaunchKeepsInv(job, Fresh(Concurrency(job, queueConcurrency)), 0);
  }

  /**
   Main result: under every schedule and every pattern of failures, when the completion call is
   made every part 1..totalParts has been uploaded exactly once, the list is in part order, and
   the object the server assembles is the body.
  */
  lemma EveryScheduleUploadsTheBody(job: Job, queueConcurrency: Option<int>, schedule: seq<Event>)
    requires Begin(job, queueConcurrency, true).Launched?
    ensures
      var s := Begin(job, queueConcurrency, true).state;
      && Inv(job, s)
      && var t := Run(job, s, schedule);
      && (t.phase.Completed? || t.phase.CompletionRejected? ==> ExactUpload(job, t, t.phase.ordered))
      && (t.phase.Completed? ==> t.phase.content == job.body)
      && (t.phase.Aborted? ==> exists w :: 0 <= w < |t.workers| && t.workers[w].Failed?)
  {
    LaunchIsSound(job, queueConcurrency);
    var s := Begin(job, queueConcurrency, true).state;
    RunKeepsInv(job, s, schedule);
    var t := Run(job, s, schedule);
    if t.phase.Completed? || t.phase.CompletionRejected? { CompletionIsExact(job, t); }
    AbortNeedsFailure(job, s, schedule);
  }

  lemma {:induction false} AbortNeedsFailure(job: Job, s: State, schedule: seq<Event>)
    requires Inv(job, s)
    requires s.phase.Aborted? ==> exists w :: 0 <= w < |s.workers| && s.workers[w].Failed?
    ensures
      var t := Run(job, s, schedule);
      t.phase.Aborted? ==> exists w :: 0 <= w < |t.workers| && t.workers[w].Failed?
    decreases |schedule|
  {
    if schedule != [] {
      StepKeepsInv(job, s, schedule[0]);
      var t := Step(job, s, schedule[0]);
      if t.phase.Aborted? {
        var w :| 0 <= w < |s.workers| && s.workers[w].Failed?;
        assert t.workers[w].Failed?;
      }
      AbortNeedsFailure(job, t, schedule[1..]);
    }
  }

  /** Once a part has failed, no continuation ever calls completeMultipartUpload. */
  lemma {:induction false} FailureBlocksCompletion(job: Job, s: State, w: nat, schedule: seq<Event>)
    requires Inv(job, s) && w < |s.workers| && s.workers[w].Failed?
    ensures !Run(job, s, schedule).phase.Completed? && !Run(job, s, schedule).phase.CompletionRejected?
    decreases |schedule|
  {
    if schedule != [] {
      StepKeepsInv(job, s, schedule[0]);
      FailureBlocksCompletion(job, Step(job, s, schedule[0]), w, schedule[1..]);
    }
  }

  // ---------------------------------------------------------------- termination

  function InFlight(workers: seq<Worker>): nat {
    if workers == [] then 0 else (if workers[0].Uploading? then 1 else 0) + InFlight(workers[1..])
  }

  lemma {:induction false} InFlightUpdate(workers: seq<Worker>, w: nat, x: Worker)
    requires w < |workers|
    ensures InFlight(workers[w := x]) ==
            InFlight(workers) - (if workers[w].Uploading? then 1 else 0) + (if x.Uploading? then 1 else 0)
    ensures InFlight(workers) <= |workers|
  {
    if w == 0 {
      assert workers[w := x][1..] == workers[1..];
      if |workers| > 1 { InFlightUpdate(workers[1..], 0, workers[1]); }
    } else {
      InFlightUpdate(workers[1..], w - 1, x);
      assert workers[w := x][1..] == workers[1..][w - 1 := x];
    }
  }

  /** Parts not yet claimed, uploads in flight, and the final call. */
  function Remaining(job: Job, s: State): nat
    requires job.partSize > 0
  {
    Max(0, TotalParts(job) + 1 - s.next) + InFlight(s.workers) + (if s.phase.Running? then 1 else 0)
  }

  ghost predicate Settled(s: State) {
    !s.phase.Running? && forall w :: 0 <= w < |s.workers| ==> !s.workers[w].Uploading?
  }

  /** How a run ends: by the abort exactly when a worker failed, otherwise by the completion call. */
  lemma AbortedIffFailed(job: Job, queueConcurrency: Option<int>, schedule: seq<Event>)
    requires Begin(job, queueConcurrency, true).Launched?
    ensures
      var s := Begin(job, queueConcurrency, true).state;
      && Inv(job, s)
      && var t := Run(job, s, schedule);
      Settled(t) ==> (t.phase.Aborted? <==> exists w :: 0 <= w < |t.workers| && t.workers[w].Failed?)
  {
    EveryScheduleUploadsTheBody(job, queueConcurrency, schedule);
    var s := Begin(job, queueConcurrency, true).state;
    RunKeepsInv(job, s, schedule);
  }

  /** No interleaving gets stuck, and every event that happens uses up a bounded resource. */
  lemma UploadAlwaysProgresses(job: Job, s: State, e: Event)
    requires Inv(job, s) && forall w :: 0 <= w < |s.workers| ==> !s.workers[w].Idle?
    ensures !Settled(s) ==> exists next: Event :: Enabled(s, next)
    ensures Enabled(s, e) ==> Remaining(job, Step(job, s, e)) < Remaining(job, s)
  {
    if !Settled(s) {
      if w: nat :| w < |s.workers| && s.workers[w].Uploading? {
        assert Enabled(s, PartFailed(w));
      } else if w: nat :| w < |s.workers| && s.workers[w].Failed? {
        assert Enabled(s, AbortCall);
      } else {
        assert Enabled(s, CompleteCall(true));
      }
    }
    if Enabled(s, e) && (e.PartUploaded? || e.PartFailed? || e.ProgressThrew?) {
      InFlightUpdate(s.workers, e.worker, Step(job, s, e).workers[e.worker]);
    }
  }

  /** At most queueConcurrency uploads are in flight at any moment. */
  lemma ConcurrencyIsBounded(job: Job, queueConcurrency: Option<int>, schedule: seq<Event>)
    requires Begin(job, queueConcurrency, true).Launched?
    ensures
      var s := Begin(job, queueConcurrency, true).state;
      Inv(job, s) && InFlight(Run(job, s, schedule).workers) <= Concurrency(job, queueConcurrency)
  {
    LaunchIsSound(job, queueConcurrency);
    var s := Begin(job, queueConcurrency, true).state;
    RunKeepsInv(job, s, schedule);
    var t := Run(job, s, schedule);
    InFlightUpdate(t.workers, 0, t.workers[0]);
  }

  // ---------------------------------------------------------------- how many uploads are in flight

  /** While parts are left, each worker starts with an upload. */
  lemma {:induction false} LaunchUploads(job: Job, s: State, w: nat)
    requires job.partSize > 0 && w <= |s.workers| && s.next + (|s.workers| - w) <= TotalParts(job) + 1
    requires forall v :: 0 <= v < w ==> s.workers[v].Uploading?
    ensures var t := LaunchFrom(job, s, w);
      |t.workers| == |s.workers| && forall v :: 0 <= v < |t.workers| ==> t.workers[v].Uploading?
    decreases |s.workers| - w
  {
    if w < |s.workers| { LaunchUploads(job, Claim(job, s, w), w + 1); }
  }

  lemma {:induction false} InFlightOfAll(workers: seq<Worker>)
    requires forall v :: 0 <= v < |workers| ==> workers[v].Uploading?
    ensures InFlight(workers) == |workers|
  {
    if workers != [] { InFlightOfAll(workers[1..]); }
  }

  /** Main result: the upload starts with as many parts in flight as queueConcurrency (by default 4, and never
      below 1) and the number of parts allow, and on no schedule are there ever more. */
  lemma InFlightNeverExceeds(job: Job, queueConcurrency: Option<int>, schedule: seq<Event>)
    requires Begin(job, queueConcurrency, true).Launched?
    ensures
      var s := Begin(job, queueConcurrency, true).state;
      var wanted := if queueConcurrency.Some? then queueConcurrency.value else 4;
      && Inv(job, s)
      && InFlight(s.workers) == (if wanted < 1 then 1 else if wanted < TotalParts(job) then wanted else TotalParts(job))
      && InFlight(Run(job, s, schedule).workers) <= InFlight(s.workers)
  {
    var concurrency := Concurrency(job, queueConcurrency);
    var s := Begin(job, queueConcurrency, true).state;
    LaunchUploads(job, Fresh(concurrency), 0);
    InFlightOfAll(s.workers);
    ConcurrencyIsBounded(job, queueConcurrency, schedule);
  }

  /** What is refused: a part size that is not positive, and one below 5 MiB for a body that is larger than it. */
  lemma RefusedIff(job: Job, queueConcurrency: Option<int>, created: bool)
    ensures Begin(job, queueConcurrency, created).InvalidPartSize? <==> job.partSize <= 0
    ensures Begin(job, queueConcurrency, created).PartSizeTooSmall? <==>
            0 < job.partSize < 5242880 && |job.body| > job.partSize
    ensures Begin(job, queueConcurrency, created).Launched? ==> created
  {
    if job.partSize > 0 {
      TotalPartsBounds(job);
      if TotalParts(job) > 1 { MulMonotone(1, TotalParts(job) - 1, job.partSize); }
    }
  }

  // ---------------------------------------------------------------- the imperative upload

  /** The variables the workers of one putObjectMultipart call share, updated in place. */
  class Upload {
    const job: Job
    var nextPartNumber: int
    var workers: seq<Worker>
    var parts: seq<Part>
    var uploadedBytes: int
    var calls: seq<int>
    var stored: map<int, Bytes>
    var phase: Phase

    function Snapshot(): State
      reads this
    {
      State(nextPartNumber, workers, parts, uploadedBytes, calls, stored, phase)
    }

    constructor (job: Job, concurrency: nat)
      ensures this.job == job && Snapshot() == Fresh(concurrency)
    {
      this.job := job;
      nextPartNumber, workers, parts, uploadedBytes := 1, seq(concurrency, _ => Idle), [], 0;
      calls, stored, phase := [], map[], Running;
    }

    method TakeNextPart(w: nat)
      requires job.partSize > 0 && w < |workers|
      modifies this
      ensures Snapshot() == Claim(job, old(Snapshot()), w)
    {
      var partNumber := nextPartNumber;
      nextPartNumber := nextPartNumber + 1;
      if partNumber > TotalParts(job) {
        workers := workers[w := Returned];
      } else {
        workers := workers[w := Uploading(partNumber)];
        calls := calls + [partNumber];
      }
    }

    method StartWorkers()
      requires job.partSize > 0
      modifies this
      ensures Snapshot() == LaunchFrom(job, old(Snapshot()), 0)
    {
      var w := 0;
      while w < |workers|
        invariant w <= |workers|
        invariant LaunchFrom(job, Snapshot(), w) == LaunchFrom(job, old(Snapshot()), 0)
      {
        TakeNextPart(w);
        w := w + 1;
      }
    }

    method FinishPart(w: nat, etag: string)
      requires Inv(job, Snapshot()) && Uploads(Snapshot(), w)
      modifies this
      ensures Snapshot() == Record(job, old(Snapshot()), w, etag)
    {
      var partNumber := workers[w].partNumber;
      var chunk := Chunk(job, partNumber);
      parts := parts + [Part(partNumber, etag)];
      uploadedBytes := uploadedBytes + |chunk|;
      stored := stored[partNumber := chunk];
    }

    method Handle(e: Event)
      requires Inv(job, Snapshot())
      modifies this
      ensures Snapshot() == Step(job, old(Snapshot()), e) && Inv(job, Snapshot())
    {
      StepKeepsInv(job, Snapshot(), e);
      if !Enabled(Snapshot(), e) { return; }
      match e
      case PartUploaded(w, etag) =>
        FinishPart(w, etag);
        TakeNextPart(w);
      case PartFailed(w) =>
        workers := workers[w := Failed(workers[w].partNumber)];
      case ProgressThrew(w, etag) =>
        FinishPart(w, etag);
        workers := workers[w := Failed(workers[w].partNumber)];
      case CompleteCall(accepted) =>
        var ordered := OrderedParts(parts);
        phase := if accepted then Completed(ordered, Assemble(stored, ordered)) else CompletionRejected(ordered);
      case AbortCall =>
        phase := Aborted;
    }
  }

  method PutObjectMultipart(job: Job, queueConcurrency: Option<int>, created: bool, schedule: seq<Event>)
    returns (outcome: Outcome)
    ensures outcome.Launched? <==> Begin(job, queueConcurrency, created).Launched?
    ensures !outcome.Launched? ==> outcome == Begin(job, queueConcurrency, created)
    ensures outcome.Launched? ==>
      var s := Begin(job, queueConcurrency, created).state;
      Inv(job, s) && outcome.state == Run(job, s, schedule)
  {
    if job.partSize <= 0 { return InvalidPartSize; }
    if TotalParts(job) > 1 && job.partSize < MIN_PART_SIZE { return PartSizeTooSmall; }
    if !created { return CreateFailed; }
    var upload := new Upload(job, Concurrency(job, queueConcurrency));
    upload.StartWorkers();
    LaunchIsSound(job, queueConcurrency);
    ghost var s := upload.Snapshot();
    for i := 0 to |schedule|
      invariant upload.job == job && Inv(job, upload.Snapshot())
      invariant Run(job, upload.Snapshot(), schedule[i..]) == Run(job, s, schedule)
    {
      assert schedule[i..][1..] == schedule[i + 1..];
      upload.Handle(schedule[i]);
    }
    outcome := Launched(upload.Snapshot());
  }
}
