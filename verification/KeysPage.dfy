/** Offset paging of keys by the two clients (getKeysPage). */
module KeysPage {
  import opened Wrappers
  import opened MinMax
  import opened Listing

  /** What both clients promise: Array.prototype.slice(offset, offset + amount) of all matching keys. */
  function Slice(keys: seq<string>, offset: nat, amount: nat): seq<string> {
    keys[Min(offset, |keys|)..Min(offset + amount, |keys|)]
  }

  // ---------------------------------------------------------------- MemoryClient

  lemma {:induction false} NothingIsGrouped(q: Query, keys: seq<string>)
    requires q.delimiter == ""
    ensures Ungrouped(q, keys) == keys && Labels(q, keys) == []
  {
    if keys != [] {
      NothingIsGrouped(q, keys[..|keys| - 1]);
      assert keys == keys[..|keys| - 1] + [keys[|keys| - 1]];
    }
  }

  lemma {:induction false} PlainCut(q: Query, keys: seq<string>, maxKeys: nat, i: nat)
    requires q.delimiter == "" && i <= |keys| && i <= maxKeys
    ensures CutFrom(q, keys, maxKeys, i) == Min(maxKeys, |keys|)
    decreases |keys| - i
  {
    NothingIsGrouped(q, keys[..i]);
    if i < |keys| && i < maxKeys { PlainCut(q, keys, maxKeys, i + 1); }
  }

  /** Without a delimiter the first page holds the first maxKeys keys, and a token only if that is not all. */
  lemma PlainPage(q: Query, all: seq<string>, maxKeys: nat)
    requires q.delimiter == ""
    ensures
      var page := PageOf(q, all, maxKeys);
      && page.contents == all[..Min(maxKeys, |all|)]
      && (page.nextToken.Some? ==> |page.contents| == maxKeys)
      && (page.nextToken.None? ==> page.contents == all || |page.contents| == maxKeys)
  {
    PlainCut(q, all, maxKeys, 0);
    NothingIsGrouped(q, all[..Min(maxKeys, |all|)]);
    if |all| <= maxKeys { assert all[..|all|] == all; }
  }

  lemma SliceOfPrefix(all: seq<string>, offset: nat, amount: nat)
    ensures Slice(all[..Min(offset + amount, |all|)], offset, amount) == Slice(all, offset, amount)
  {}

  /** A request to the store; what the first one answers is all that matters here. */
  method ListObjects(stored: seq<string>, q: Query, maxKeys: nat, token: string)
      returns (contents: seq<string>, nextToken: Option<string>)
    requires q.delimiter == ""
    ensures token == "" ==>
      var all := Matching(stored, q, "");
      && contents == all[..Min(maxKeys, |all|)]
      && (nextToken.Some? ==> |contents| == maxKeys)
      && (nextToken.None? ==> contents == all || |contents| == maxKeys)
  {
    PlainPage(q, Matching(stored, q, ""), maxKeys);
    var response := Listing.List(stored, q, maxKeys, token, "");
    contents := if response.Some? then response.value.contents else [];
    nextToken := if response.Some? then response.value.nextToken else None;
  }

  method MemoryKeysPage(stored: seq<string>, prefix: string, offset: nat, amount: nat) returns (keys: seq<string>)
    ensures keys == Slice(Matching(stored, Query(prefix, ""), ""), offset, amount)
  {
    var q := Query(prefix, "");
    ghost var all := Matching(stored, q, "");
    keys := [];
    if offset > 0 {
      var contents, _ := ListObjects(stored, q, offset + amount, "");
      keys := Slice(contents, offset, amount);
      SliceOfPrefix(all, offset, amount);
    } else {
      var truncated, continuationToken := true, "";
      while truncated
        invariant truncated ==> keys == [] && continuationToken == ""
        invariant !truncated ==> |keys| < amount && keys == all
        decreases truncated
      {
        var remaining := amount - |keys|;
        if remaining <= 0 { break; }
        var contents, nextToken := ListObjects(stored, q, remaining, continuationToken);
        keys := keys + contents;
        truncated := nextToken.Some?;
        continuationToken := if truncated then nextToken.value else "";
        if |keys| >= amount {
          keys := keys[..amount];
          break;
        }
      }
    }
  }

  // ---------------------------------------------------------------- S3Client

  const MAX_PAGE: nat := 1000

  /** A bucket listing: its sorted matching keys, and tokens that stand for positions in them. */
  datatype Server = Server(keys: seq<string>, tokenAt: nat -> string, position: string -> nat)

  ghost predicate Sound(server: Server) {
    forall p: nat :: server.tokenAt(p) != "" && server.position(server.tokenAt(p)) == p
  }

  datatype Response = Response(contents: seq<string>, isTruncated: bool, nextToken: string)

  function Start(server: Server, token: string): nat {
    if token == "" then 0 else server.position(token)
  }

  /** A page is filled up to min(maxKeys, 1000, what is left). */
  function Serve(server: Server, token: string, maxKeys: nat): Response {
    var from := Min(Start(server, token), |server.keys|);
    var to := Min(from + Min(maxKeys, MAX_PAGE), |server.keys|);
    Response(server.keys[from..to], to < |server.keys|, if to < |server.keys| then server.tokenAt(to) else "")
  }

  /** The keys read so far, from the start position on. */
  predicate IsRun(all: seq<string>, from: nat, keys: seq<string>) {
    from + |keys| <= |all| && keys == all[from..from + |keys|]
  }

  /** What a request whose token stands for position k answers. */
  method Request(server: Server, token: string, maxKeys: nat, ghost k: nat) returns (res: Response)
    requires Sound(server) && Start(server, token) == k && (k == 0 || k < |server.keys|)
    ensures var to := Min(k + Min(maxKeys, MAX_PAGE), |server.keys|);
      && IsRun(server.keys, k, res.contents) && k + |res.contents| == to
      && (res.isTruncated <==> to < |server.keys|)
      && (res.isTruncated ==> res.nextToken != "" && server.position(res.nextToken) == to)
      && (!res.isTruncated ==> res.nextToken == "")
  {
    res := Serve(server, token, maxKeys);
  }

  /** getContinuationTokenAfterOffset: the token that stands for exactly this offset, or "" past the end. */
  method TokenAfterOffset(server: Server, offset: nat) returns (token: string)
    requires Sound(server)
    ensures offset == 0 || offset >= |server.keys| ==> token == ""
    ensures 0 < offset < |server.keys| ==> token != "" && server.position(token) == offset
  {
    token := "";
    if offset == 0 { return; }
    var truncated, skipped := true, 0;
    while truncated
      invariant truncated ==> Start(server, token) == skipped < offset && (skipped == 0 <==> token == "")
      invariant truncated && skipped > 0 ==> skipped < |server.keys| && offset >= MAX_PAGE
      invariant !truncated ==> token == "" && offset >= |server.keys|
      decreases offset - skipped, truncated
    {
      var maxKeys :=
        if offset < 1000 then offset
        else if offset - skipped > 1000 then 1000
        else offset - skipped;
      var res := Request(server, token, maxKeys, skipped);
      skipped := skipped + |res.contents|;
      truncated := res.isTruncated;
      token := res.nextToken;
      if skipped >= offset { break; }
    }
  }

  /** The paging loop, from a token that stands for position `from`. */
  method CollectPages(server: Server, amount: nat, startToken: string, ghost from: nat) returns (keys: seq<string>)
    requires Sound(server) && Start(server, startToken) == from && (from == 0 || from < |server.keys|)
    ensures IsRun(server.keys, from, keys)
    ensures |keys| == amount || (|keys| < amount && from + |keys| == |server.keys|)
  {
    keys := [];
    var truncated, token := true, startToken;
    while truncated
      invariant IsRun(server.keys, from, keys)
      invariant truncated ==> Start(server, token) == from + |keys|
      invariant truncated ==> keys == [] || (|keys| < amount && from + |keys| < |server.keys|)
      invariant !truncated ==> from + |keys| == |server.keys| && |keys| < amount
      decreases |server.keys| - |keys|, truncated
    {
      var res := Request(server, token, MAX_PAGE, from + |keys|);
      RunGrows(server.keys, from, keys, res.contents);
      keys := keys + res.contents;
      truncated := res.isTruncated;
      token := res.nextToken;
      if |keys| >= amount {
        RunIsCut(server.keys, from, keys, amount);
        keys := keys[..amount];
        break;
      }
    }
  }

  method S3KeysPage(server: Server, offset: nat, amount: nat) returns (keys: seq<string>)
    requires Sound(server)
    ensures keys == Slice(server.keys, offset, amount)
  {
    var token := "";
    if offset > 0 {
      token := TokenAfterOffset(server, offset);
      if token == "" { return []; }
    }
    keys := CollectPages(server, amount, token, offset);
    RunIsSlice(server.keys, offset, amount, keys);
  }

  lemma RunGrows(all: seq<string>, from: nat, keys: seq<string>, more: seq<string>)
    requires IsRun(all, from, keys) && IsRun(all, from + |keys|, more)
    ensures IsRun(all, from, keys + more)
  {}

  lemma RunIsCut(all: seq<string>, from: nat, keys: seq<string>, n: nat)
    requires IsRun(all, from, keys) && n <= |keys|
    ensures IsRun(all, from, keys[..n])
  {}

  lemma RunIsSlice(all: seq<string>, offset: nat, amount: nat, keys: seq<string>)
    requires IsRun(all, offset, keys)
    requires |keys| == amount || (|keys| < amount && offset + |keys| == |all|)
    ensures keys == Slice(all, offset, amount)
  {}
}
