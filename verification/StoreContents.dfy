/** What is under a key after each operation of the store. */
module StoreContents {
  import opened Wrappers
  import opened MinMax
  import opened OrderedMap
  import opened MemoryStore
  import Utf8

  lemma WriteOnKey(c: Config, s: Store, k: string, obj: StoredObject, key: string)
    requires UniqueKeys(s.objects)
    ensures var r := Find(Write(c, s, k, obj).objects, key);
      if k == key then r == Some(obj) else r.None? || r == Find(s.objects, key)
  {
    var required := Max(Delta(s, k, obj), 0);
    FindInSuffix(s.objects, EvictCount(s.objects, s.currentBytes + required - c.maxMemoryBytes), key);
    FindInSet(Evict(c, s, required).objects, k, obj, key);
  }

  lemma TouchOnKey(s: Store, k: string, key: string)
    requires UniqueKeys(s.objects)
    ensures Find(Touch(s, k).objects, key) == Find(s.objects, key)
  {
    if Has(s.objects, k) {
      TouchIsSetAfterRemove(s, k);
      FindInRemove(s.objects, k, key);
      FindInSet(Remove(s.objects, k), k, Find(s.objects, k).value, key);
    }
  }

  /** The other keys keep their objects or lose them to an eviction. */
  ghost predicate OthersKeptOrLost(s: Store, r: Store, key: string) {
    forall other :: other != key ==> Find(r.objects, other).None? || Find(r.objects, other) == Find(s.objects, other)
  }

  ghost predicate WithinLimits(c: Config, o: StoredObject) {
    c.enforceLimits ==> MetadataSize(o.metadata) <= c.metadataLimit && |o.body| <= c.maxObjectSize
  }

  /** The type that was given, unless it is missing or empty. */
  ghost predicate TypeIs(stored: string, given: Option<string>, fallback: string) {
    && (given.Some? && given.value != "" ==> stored == given.value)
    && (given.None? || given.value == "" ==> stored == fallback)
  }

  /** A put that succeeds can be read back as it was sent, with the tag that the put returned; a head gives the
      same without the body. */
  lemma PutThenRead(c: Config, s: Store, key: string, req: PutRequest, now: string)
    requires UniqueKeys(s.objects) && Put(c, s, key, req, now).1.Done?
    ensures var (r, answer) := Put(c, s, key, req, now);
      && OthersKeptOrLost(s, r, key)
      && Read(r, key).1.Done?
      && var o := Read(r, key).1.value;
      && o.body == req.body && o.metadata == req.metadata && o.lastModified == now && o.size == |req.body|
      && o.contentEncoding == req.contentEncoding
      && TypeIs(o.contentType, req.contentType, "application/octet-stream")
      && (req.contentLength.Some? ==> o.contentLength == req.contentLength.value)
      && (req.contentLength.None? ==> o.contentLength == |req.body|)
      && HeadOf(o) == Head(req.metadata, o.contentType, |req.body|, answer.value, now, req.contentEncoding)
      && WithinLimits(c, o)
  {
    var obj := NewObject(c, req, now);
    forall k ensures var found := Find(Write(c, s, key, obj).objects, k);
      if k == key then found == Some(obj) else found.None? || found == Find(s.objects, k)
    {
      WriteOnKey(c, s, key, obj, k);
    }
  }

  /** A copy has the body of its source, and its type unless another one is given; its metadata are replaced, or
      merged with the new ones winning. */
  lemma CopyThenRead(c: Config, s: Store, from: string, to: string, req: CopyRequest, now: string, field: string)
    requires UniqueKeys(s.objects) && Copy(c, s, from, to, req, now).1.Done?
    requires req.metadata.Some? ==> UniqueKeys(req.metadata.value)
    ensures Has(s.objects, from)
    ensures var source := Find(s.objects, from).value;
      var r := Copy(c, s, from, to, req, now).0;
      && OthersKeptOrLost(s, r, to)
      && Read(r, to).1.Done?
      && var o := Read(r, to).1.value;
      && o.body == source.body && o.contentEncoding == source.contentEncoding
      && o.lastModified == now && o.size == o.contentLength == |source.body|
      && TypeIs(o.contentType, req.contentType,
                if source.contentType != "" then source.contentType else "application/octet-stream")
      && Find(o.metadata, field) ==
           (if req.metadata.Some? && (req.replace || Has(req.metadata.value, field))
               then Find(req.metadata.value, field)
            else Find(source.metadata, field))
  {
    var source := Find(s.objects, from).value;
    PutThenRead(c, s, to, CopyAsPut(source, req), now);
    if req.metadata.Some? { FindInMerge(source.metadata, req.metadata.value, field); }
  }

  /** The names and values one after the other. */
  function AllText(m: Metadata): string { if m == [] then "" else m[0].key + (m[0].value + AllText(m[1..])) }

  lemma {:induction false} Utf8OfConcat(a: string, b: string)
    ensures Utf8.Encode(a + b) == Utf8.Encode(a) + Utf8.Encode(b)
  {
    if a == "" {
      assert a + b == b;
    } else {
      Utf8OfConcat(a[1..], b);
      assert (a + b)[1..] == a[1..] + b && (a + b)[0] == a[0];
      var c := Utf8.EncodeChar(a[0]);
      assert c + (Utf8.Encode(a[1..]) + Utf8.Encode(b)) == (c + Utf8.Encode(a[1..])) + Utf8.Encode(b);
    }
  }

  /** The size that is held against the limit is that of the names and values in UTF-8. */
  lemma {:induction false} MetadataSizeIsItsText(m: Metadata)
    ensures MetadataSize(m) == |Utf8.Encode(AllText(m))|
  {
    if m != [] {
      MetadataSizeIsItsText(m[1..]);
      Utf8OfConcat(m[0].value, AllText(m[1..]));
      Utf8OfConcat(m[0].key, m[0].value + AllText(m[1..]));
    }
  }

  /** The preconditions that the request carries hold of what is stored. */
  ghost predicate PreconditionsHold(found: Option<StoredObject>, req: PutRequest) {
    && (req.ifMatch.Some? ==> IfMatchHolds(found, req.ifMatch.value))
    && (req.ifNoneMatch.Some? ==> IfNoneMatchHolds(found, req.ifNoneMatch.value))
  }

  /** When and how a put fails; then it changes nothing. */
  lemma PutFailsIff(c: Config, s: Store, key: string, req: PutRequest, now: string)
    ensures
      var (r, answer) := Put(c, s, key, req, now);
      var tooMuch := c.enforceLimits && |Utf8.Encode(AllText(req.metadata))| > c.metadataLimit;
      var tooLarge := c.enforceLimits && |req.body| > c.maxObjectSize;
      && (answer == Failed(MetadataTooLarge) <==> tooMuch)
      && (answer == Failed(ObjectTooLarge) <==> tooLarge && !tooMuch)
      && (answer == Failed(PreconditionFailed) <==>
           !tooMuch && !tooLarge && !PreconditionsHold(Find(s.objects, key), req))
      && answer != Failed(NoSuchKey) && (answer.Failed? ==> r == s)
  {
    MetadataSizeIsItsText(req.metadata);
  }

  /** A deleted key is gone, and no other key changes. */
  lemma DeleteThenRead(s: Store, key: string, other: string)
    requires UniqueKeys(s.objects)
    ensures Find(Delete(s, key).objects, other) == if other == key then None else Find(s.objects, other)
  {
    FindInRemove(s.objects, key, other);
  }

  /** Reading changes no object. */
  lemma ReadChangesNoObject(s: Store, key: string, other: string)
    requires UniqueKeys(s.objects)
    ensures Find(Read(s, key).0.objects, other) == Find(s.objects, other)
  {
    TouchOnKey(s, key, other);
  }
}
