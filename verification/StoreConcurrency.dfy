/** Conditional writes over every interleaving of clients. */
module StoreConcurrency {
  import opened Bytes
  import opened Wrappers
  import opened OrderedMap
  import opened MemoryStore
  import opened StoreContents
  import ETags

  /** The digest as these results need it: injective, never empty, without commas (hexadecimal). */
  ghost predicate GoodDigest(c: Config) {
    && (forall a: Bytes, b: Bytes :: c.digest(a) == c.digest(b) ==> a == b)
    && (forall a: Bytes :: c.digest(a) != "" && ETags.Plain(c.digest(a)))
  }

  /** The header with which a client repeats the tag of a body that it read. */
  function TagOf(c: Config, body: Bytes): string { ETags.Format(c.digest(body)) }

  // ---------------------------------------------------------------- one conditional put

  function BodyAt(s: Store, key: string): Option<Bytes> {
    var found := Find(s.objects, key);
    if found.Some? then Some(found.value.body) else None
  }

  /** If-Match with a list of strong and weak tags holds exactly when the stored body's tag is listed. */
  lemma IfMatchListHolds(c: Config, s: Store, key: string, l: seq<ETags.Listed>)
    requires GoodDigest(c) && WellFormed(c, s.objects) && l != [] && ETags.AllPlain(l)
    ensures IfMatchHolds(Find(s.objects, key), ETags.PrintList(l)) <==>
            Has(s.objects, key) && c.digest(Find(s.objects, key).value.body) in ETags.Tags(l)
  {
    ETags.NormalizePrinted(l);
    if Has(s.objects, key) { FoundIsFaithful(c, s.objects, key); }
  }

  /** If-None-Match with such a list holds exactly when it does not name the stored body's tag; with "*" exactly
      when nothing is stored. */
  lemma IfNoneMatchListHolds(c: Config, s: Store, key: string, l: seq<ETags.Listed>)
    requires GoodDigest(c) && WellFormed(c, s.objects) && l != [] && ETags.AllPlain(l)
    ensures IfNoneMatchHolds(Find(s.objects, key), ETags.PrintList(l)) <==>
            !(Has(s.objects, key) && c.digest(Find(s.objects, key).value.body) in ETags.Tags(l))
    ensures IfNoneMatchHolds(Find(s.objects, key), "*") <==> !Has(s.objects, key)
  {
    ETags.PrintedListIsNoStar(l);
    IfMatchListHolds(c, s, key, l);
  }

  lemma TagMatchesItsBody(c: Config, s: Store, key: string, read: Bytes)
    requires GoodDigest(c) && WellFormed(c, s.objects)
    ensures IfMatchHolds(Find(s.objects, key), TagOf(c, read)) <==> BodyAt(s, key) == Some(read)
  {
    ETags.NormalizeFormatted(c.digest(read));
    if Has(s.objects, key) { FoundIsFaithful(c, s.objects, key); }
  }

  /** The tag that get and head return is the tag of the body that was read. */
  lemma ReadReturnsTheTag(c: Config, s: Store, key: string)
    requires WellFormed(c, s.objects) && Has(s.objects, key)
    ensures HeadOf(Read(s, key).1.value).etag == TagOf(c, BodyAt(s, key).value)
  {
    FoundIsFaithful(c, s.objects, key);
  }

  /** Main result, one write: a put with the tag of an earlier read succeeds exactly when the stored body at
      that moment is the body that was read. */
  lemma PutIfMatchSucceedsIff(c: Config, earlier: Store, s: Store, key: string, req: PutRequest, now: string)
    requires GoodDigest(c) && WellFormed(c, earlier.objects) && WellFormed(c, s.objects) && Has(earlier.objects, key)
    requires Violation(c, req.body, req.metadata).None? && req.ifNoneMatch.None?
    requires req.ifMatch == Some(HeadOf(Read(earlier, key).1.value).etag)
    ensures Put(c, s, key, req, now).1.Done? <==> BodyAt(s, key) == BodyAt(earlier, key)
  {
    ReadReturnsTheTag(c, earlier, key);
    TagMatchesItsBody(c, s, key, BodyAt(earlier, key).value);
  }

  // ---------------------------------------------------------------- one step and one key

  /** The body that the event stores under the key, if it stores one; a restore stores what it brings. */
  function WriteOf(c: Config, s: Store, e: Event, key: string): Option<Bytes>
    requires Permitted(c, e)
  {
    match e
    case PutEvent(k, put, now) => if k == key && Put(c, s, k, put, now).1.Done? then Some(put.body) else None
    case CopyEvent(from, to, copy, now) =>
      if to == key && Copy(c, s, from, to, copy, now).1.Done? then BodyAt(s, from) else None
    case RestoreEvent(_) => BodyAt(Step(c, s, e), key)
    case _ => None
  }

  /** One step stores its own body, leaves the old body, or loses the key. */
  lemma StepOnKey(c: Config, s: Store, e: Event, key: string)
    requires UniqueKeys(s.objects) && Permitted(c, e)
    ensures var r := BodyAt(Step(c, s, e), key);
      var w := WriteOf(c, s, e, key);
      if w.Some? then r == w else r.None? || r == BodyAt(s, key)
  {
    match e
    case PutEvent(k, put, now) => WriteOnKey(c, s, k, NewObject(c, put, now), key);
    case ReadEvent(k) => TouchOnKey(s, k, key);
    case CopyEvent(from, to, copy, now) =>
      if Has(s.objects, from) {
        WriteOnKey(c, s, to, NewObject(c, CopyAsPut(Find(s.objects, from).value, copy), now), key);
      }
    case DeleteEvent(k) => FindInRemove(s.objects, k, key);
    case _ =>
  }

  // ---------------------------------------------------------------- the chain of writes

  /** The body that the run found under the key, then the bodies stored there, in order. */
  function Versions(c: Config, s: Store, events: seq<Event>, key: string, first: Bytes): (v: seq<Bytes>)
    requires AllPermitted(c, events)
    ensures v != []
  {
    if events == [] then [first]
    else
      var before := events[..|events| - 1];
      var w := WriteOf(c, Run(c, s, before), events[|events| - 1], key);
      Versions(c, s, before, key, first) + if w.Some? then [w.value] else []
  }

  function Last<T>(s: seq<T>): T
    requires s != []
  {
    s[|s| - 1]
  }

  lemma {:induction false} StoredIsTheLastVersion(c: Config, s: Store, events: seq<Event>, key: string, first: Bytes)
    requires WellFormed(c, s.objects) && AllPermitted(c, events)
    requires BodyAt(s, key) == Some(first)
    ensures var b := BodyAt(Run(c, s, events), key); b.Some? ==> b.value == Last(Versions(c, s, events, key, first))
  {
    if events != [] {
      var before := events[..|events| - 1];
      StoredIsTheLastVersion(c, s, before, key, first);
      RunKeepsWellFormed(c, s, before);
      StepOnKey(c, Run(c, s, before), events[|events| - 1], key);
    }
  }

  /** Main result, every interleaving: whatever happened so far, a conditional put that succeeds was based on
      the very last version that was stored; so the successful conditional writes form one chain. */
  lemma SuccessfulWritesFormAChain(
      c: Config, s: Store, events: seq<Event>, key: string, first: Bytes, read: Bytes, put: PutRequest, now: string)
    requires GoodDigest(c) && WellFormed(c, s.objects) && AllPermitted(c, events)
    requires BodyAt(s, key) == Some(first)
    requires put.ifMatch == Some(TagOf(c, read)) && Put(c, Run(c, s, events), key, put, now).1.Done?
    ensures read == Last(Versions(c, s, events, key, first))
  {
    StoredIsTheLastVersion(c, s, events, key, first);
    RunKeepsWellFormed(c, s, events);
    TagMatchesItsBody(c, Run(c, s, events), key, read);
  }

  /** Every write to the key is a conditional put of f applied to the body that its client read. */
  ghost predicate Updates(c: Config, e: Event, key: string, f: Bytes -> Bytes) {
    match e
    case PutEvent(k, put, _) => k == key ==> exists read :: put.ifMatch == Some(TagOf(c, read)) && put.body == f(read)
    case CopyEvent(_, to, _, _) => to != key
    case RestoreEvent(_) => false
    case _ => true
  }

  ghost predicate AllUpdate(c: Config, events: seq<Event>, key: string, f: Bytes -> Bytes) {
    events == [] || (AllUpdate(c, events[..|events| - 1], key, f) && Updates(c, events[|events| - 1], key, f))
  }

  function Iterate(f: Bytes -> Bytes, n: nat, b: Bytes): Bytes {
    if n == 0 then b else f(Iterate(f, n - 1, b))
  }

  /** A write that succeeds applies f to the last version. */
  lemma UpdateBuildsOnTheLastVersion(
      c: Config, s: Store, events: seq<Event>, e: Event, key: string, first: Bytes, f: Bytes -> Bytes)
    requires GoodDigest(c) && WellFormed(c, s.objects) && AllPermitted(c, events)
    requires BodyAt(s, key) == Some(first) && Permitted(c, e) && Updates(c, e, key, f)
    ensures var w := WriteOf(c, Run(c, s, events), e, key);
      w.Some? ==> w.value == f(Last(Versions(c, s, events, key, first)))
  {
    if WriteOf(c, Run(c, s, events), e, key).Some? {
      assert e.PutEvent? && e.key == key;
      var read :| e.put.ifMatch == Some(TagOf(c, read)) && e.put.body == f(read);
      SuccessfulWritesFormAChain(c, s, events, key, first, read, e.put, e.now);
    }
  }

  ghost predicate Iterated(v: seq<Bytes>, f: Bytes -> Bytes, first: Bytes) {
    v != [] && Last(v) == Iterate(f, |v| - 1, first)
  }

  lemma IterateOnceMore(v: seq<Bytes>, w: Option<Bytes>, f: Bytes -> Bytes, first: Bytes)
    requires Iterated(v, f, first) && (w.Some? ==> w.value == f(Last(v)))
    ensures Iterated(v + if w.Some? then [w.value] else [], f, first)
  {}

  lemma {:induction false} LastVersionIsIterated(
      c: Config, s: Store, events: seq<Event>, key: string, first: Bytes, f: Bytes -> Bytes)
    requires GoodDigest(c) && WellFormed(c, s.objects) && AllPermitted(c, events) && AllUpdate(c, events, key, f)
    requires BodyAt(s, key) == Some(first)
    ensures Iterated(Versions(c, s, events, key, first), f, first)
  {
    if events != [] {
      var before, e := events[..|events| - 1], events[|events| - 1];
      LastVersionIsIterated(c, s, before, key, first, f);
      UpdateBuildsOnTheLastVersion(c, s, before, e, key, first, f);
      IterateOnceMore(Versions(c, s, before, key, first), WriteOf(c, Run(c, s, before), e, key), f, first);
    }
  }

  /** Main result: no update is lost.  When racing clients all read, apply f and write back conditionally, the
      stored body is f applied once for each write that succeeded. */
  lemma NoUpdateIsLost(c: Config, s: Store, events: seq<Event>, key: string, first: Bytes, f: Bytes -> Bytes)
    requires GoodDigest(c) && WellFormed(c, s.objects) && AllPermitted(c, events) && AllUpdate(c, events, key, f)
    requires BodyAt(s, key) == Some(first)
    ensures var b := BodyAt(Run(c, s, events), key);
      b.Some? ==> b.value == Iterate(f, |Versions(c, s, events, key, first)| - 1, first)
  {
    StoredIsTheLastVersion(c, s, events, key, first);
    LastVersionIsIterated(c, s, events, key, first, f);
  }

  // ---------------------------------------------------------------- racing creators

  predicate Creates(c: Config, s: Store, e: Event, key: string) {
    e.PutEvent? && e.key == key && e.put.ifNoneMatch == Some("*") && Put(c, s, key, e.put, e.now).1.Done?
  }

  function Creations(c: Config, s: Store, events: seq<Event>, key: string): nat
    requires AllPermitted(c, events)
  {
    if events == [] then 0
    else
      var before := events[..|events| - 1];
      Creations(c, s, before, key) + if Creates(c, Run(c, s, before), events[|events| - 1], key) then 1 else 0
  }

  /** How often the key went away: deleted, cleared, evicted or restored over. */
  function Disappearances(c: Config, s: Store, events: seq<Event>, key: string): nat
    requires AllPermitted(c, events)
  {
    if events == [] then 0
    else
      var before := events[..|events| - 1];
      var gone := Has(Run(c, s, before).objects, key) && !Has(Run(c, s, events).objects, key);
      Disappearances(c, s, before, key) + if gone then 1 else 0
  }

  function Present(s: Store, key: string): nat { if Has(s.objects, key) then 1 else 0 }

  lemma CreationIsFromAbsence(c: Config, s: Store, e: Event, key: string)
    requires UniqueKeys(s.objects) && Permitted(c, e) && Creates(c, s, e, key)
    ensures !Has(s.objects, key) && Has(Step(c, s, e).objects, key)
  {
    WriteOnKey(c, s, key, NewObject(c, e.put, e.now), key);
  }

  /** A put with If-None-Match "*" and no other obstacle. */
  predicate IsCreate(c: Config, put: PutRequest) {
    Violation(c, put.body, put.metadata).None? && put.ifMatch.None? && put.ifNoneMatch == Some("*")
  }

  /** Main result: each success of a racing creator needs its own absence of the key; while the key never goes
      away, at most one creator succeeds, and none when it was there from the start.  At the end of the run the
      next creator succeeds exactly when the key is absent. */
  lemma {:induction false} AtMostOneCreator(c: Config, s: Store, events: seq<Event>, key: string)
    requires WellFormed(c, s.objects) && AllPermitted(c, events)
    ensures Creations(c, s, events, key) + Present(s, key) <=
            Disappearances(c, s, events, key) + Present(Run(c, s, events), key)
    ensures forall put, now :: IsCreate(c, put) ==>
      (Put(c, Run(c, s, events), key, put, now).1.Done? <==> !Has(Run(c, s, events).objects, key))
  {
    if events != [] {
      var before, e := events[..|events| - 1], events[|events| - 1];
      AtMostOneCreator(c, s, before, key);
      RunKeepsWellFormed(c, s, before);
      if Creates(c, Run(c, s, before), e, key) { CreationIsFromAbsence(c, Run(c, s, before), e, key); }
    }
  }
}
