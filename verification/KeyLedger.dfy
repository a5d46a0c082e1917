/** Permanent keys over every history. */
module KeyLedger {

  function Elements(keys: seq<string>): set<string> {
    set k | k in keys
  }

  datatype Ledger<K> = Ledger(live: map<string, K>, burned: set<K>)

  ghost predicate Injective<K>(m: map<string, K>) {
    forall a, b :: a in m && b in m && m[a] == m[b] ==> a == b
  }

  ghost predicate WellFormed<K>(l: Ledger<K>) {
    Injective(l.live) && l.live.Values !! l.burned
  }

  /** One change of the attribute set: what stays, what is new, and what is burned. */
  ghost predicate Evolves<K>(attributes: set<string>, l: Ledger<K>, r: Ledger<K>) {
    && r.live.Keys == attributes
    && Injective(r.live)
    && (forall a :: a in attributes && a in l.live ==> r.live[a] == l.live[a])
    && (forall a :: a in attributes && a !in l.live ==> r.live[a] !in l.live.Values && r.live[a] !in l.burned)
    && r.burned == l.burned + KeysLeaving(l.live, l.live.Keys - attributes)
  }

  /** l[0], l[1], ... is the history of a ledger whose attribute set becomes sets[0], sets[1], ... */
  ghost predicate History<K>(h: seq<Ledger<K>>, sets: seq<set<string>>) {
    && |h| == |sets| + 1
    && WellFormed(h[0])
    && forall i :: 0 <= i < |sets| ==> Evolves(sets[i], h[i], h[i + 1])
  }

  lemma EvolvesKeepsWellFormed<K>(attributes: set<string>, l: Ledger<K>, r: Ledger<K>)
    requires WellFormed(l) && Evolves(attributes, l, r)
    ensures WellFormed(r)
  {
    forall k | k in r.live.Values ensures k !in r.burned {
      var a :| a in r.live && r.live[a] == k;
      if a in l.live { assert k in l.live.Values; }
    }
  }

  lemma {:induction false} HistoryIsWellFormed<K>(h: seq<Ledger<K>>, sets: seq<set<string>>, i: nat)
    requires History(h, sets) && i < |h|
    ensures WellFormed(h[i])
  {
    if i > 0 {
      HistoryIsWellFormed(h, sets, i - 1);
      EvolvesKeepsWellFormed(sets[i - 1], h[i - 1], h[i]);
    }
  }

  ghost predicate HeldThroughout<K>(h: seq<Ledger<K>>, i: nat, j: nat, a: string, k: K)
    requires i <= j < |h|
  {
    forall m :: i <= m <= j ==> a in h[m].live && h[m].live[a] == k
  }

  /** A key given to an attribute stays with it until the attribute leaves, and is burned from then on. */
  lemma {:induction false} KeyIsPermanent<K>(h: seq<Ledger<K>>, sets: seq<set<string>>, i: nat, j: nat, a: string, k: K)
    requires History(h, sets) && i <= j < |h| && a in h[i].live && h[i].live[a] == k
    ensures HeldThroughout(h, i, j, a, k) || (k in h[j].burned && k !in h[j].live.Values)
  {
    if i < j {
      KeyIsPermanent(h, sets, i, j - 1, a, k);
      HistoryIsWellFormed(h, sets, j);
      assert Evolves(sets[j - 1], h[j - 1], h[j]);
      if HeldThroughout(h, i, j - 1, a, k) && a in h[j].live {
        assert HeldThroughout(h, i, j, a, k);
      } else if HeldThroughout(h, i, j - 1, a, k) {
        assert h[j - 1].live[a] == k;
        assert k in h[j].burned;
      } else {
        assert k in h[j].burned;
      }
    }
  }

  /** A key that is burned at some time, from whatever history before, stays burned and unused. */
  lemma {:induction false} BurnedIsForever<K>(h: seq<Ledger<K>>, sets: seq<set<string>>, i: nat, j: nat, k: K)
    requires History(h, sets) && i <= j < |h| && k in h[i].burned
    ensures k in h[j].burned && k !in h[j].live.Values
  {
    HistoryIsWellFormed(h, sets, j);
    if i < j {
      BurnedIsForever(h, sets, i, j - 1, k);
      assert Evolves(sets[j - 1], h[j - 1], h[j]);
    }
  }

  /**
   Main result: over every history, two attributes that ever hold the same key are the same
   attribute, and it held the key all the time in between - so a key is not even given back to
   the attribute that once had it.
  */
  lemma KeyIsNeverReassigned<K>(h: seq<Ledger<K>>, sets: seq<set<string>>, i: nat, j: nat, a: string, b: string)
    requires History(h, sets) && i <= j < |h|
    requires a in h[i].live && b in h[j].live && h[i].live[a] == h[j].live[b]
    ensures a == b && HeldThroughout(h, i, j, a, h[i].live[a])
  {
    KeyIsPermanent(h, sets, i, j, a, h[i].live[a]);
    HistoryIsWellFormed(h, sets, j);
    assert h[j].live[b] in h[j].live.Values;
    assert h[j].live[a] == h[j].live[b];
  }

  // ---------------------------------------------------------------- the burning loop

  datatype BurnedEntry<K> = BurnedEntry(key: K, attribute: string, burnedAt: string)

  function BurnedKeys<K>(burned: seq<BurnedEntry<K>>): set<K> {
    set i | 0 <= i < |burned| :: burned[i].key
  }

  /** The keys of the attributes of `mapping` among `gone`. */
  function KeysLeaving<K>(mapping: map<string, K>, gone: set<string>): set<K> {
    set a | a in mapping && a in gone :: mapping[a]
  }

  ghost predicate IsRemoval<K>(mapping: map<string, K>, gone: set<string>, e: BurnedEntry<K>, now: string) {
    e.attribute in gone && e.attribute in mapping && e.key == mapping[e.attribute] && e.burnedAt == now
  }

  /** The burning loop appends one entry per removed key not burned before, in whatever order it meets them. */
  ghost predicate BurnsRemoved<K>(mapping: map<string, K>, gone: set<string>, before: seq<BurnedEntry<K>>,
      after: seq<BurnedEntry<K>>, now: string) {
    && before <= after
    && BurnedKeys(after) == BurnedKeys(before) + KeysLeaving(mapping, gone)
    && (forall i :: |before| <= i < |after| ==>
          IsRemoval(mapping, gone, after[i], now) && after[i].key !in BurnedKeys(before))
    && (forall i, j :: |before| <= i < j < |after| ==> after[i].key != after[j].key)
  }

  /** Something is burned only for an attribute that leaves. */
  lemma LeaverOfBurn<K>(mapping: map<string, K>, gone: set<string>, before: seq<BurnedEntry<K>>,
      after: seq<BurnedEntry<K>>, now: string) returns (a: string)
    requires BurnsRemoved(mapping, gone, before, after, now) && |before| < |after|
    ensures a in gone
  {
    a := after[|before|].attribute;
  }

  lemma BurnedKeysAppend<K>(burned: seq<BurnedEntry<K>>, b: BurnedEntry<K>)
    ensures BurnedKeys(burned + [b]) == BurnedKeys(burned) + {b.key}
  {
    var after := burned + [b];
    forall x | x in BurnedKeys(burned) + {b.key} ensures x in BurnedKeys(after) {
      if x in BurnedKeys(burned) {
        var i :| 0 <= i < |burned| && burned[i].key == x;
        assert after[i].key == x;
      } else {
        assert after[|burned|].key == x;
      }
    }
  }

  method BurnRemoved<K(==)>(mapping: map<string, K>, burned: seq<BurnedEntry<K>>, keys: seq<string>, now: string)
    returns (kept: map<string, K>, after: seq<BurnedEntry<K>>, changed: bool)
    ensures kept == map a | a in mapping && a in keys :: mapping[a]
    ensures BurnsRemoved(mapping, mapping.Keys - Elements(keys), burned, after, now)
    ensures changed <==> after != burned
  {
    kept, after, changed := mapping, burned, false;
    ghost var gone := {};
    var todo := mapping.Keys;
    while todo != {}
      invariant todo <= mapping.Keys && gone == mapping.Keys - todo - Elements(keys)
      invariant kept == map a | a in mapping && (a in todo || a in keys) :: mapping[a]
      invariant BurnsRemoved(mapping, gone, burned, after, now)
      invariant changed <==> |after| > |burned|
    {
      var attr :| attr in todo;
      todo := todo - {attr};
      if attr !in keys {
        var entry := BurnedEntry(mapping[attr], attr, now);
        BurnOneMore(mapping, gone, burned, after, entry, now);
        gone := gone + {attr};
        if entry.key !in BurnedKeys(after) {
          after := after + [entry];
          changed := true;
        }
        kept := kept - {attr};
      }
    }
    assert gone == mapping.Keys - Elements(keys);
  }

  lemma BurnOneMore<K>(mapping: map<string, K>, gone: set<string>, before: seq<BurnedEntry<K>>,
      after: seq<BurnedEntry<K>>, e: BurnedEntry<K>, now: string)
    requires BurnsRemoved(mapping, gone, before, after, now) && IsRemoval(mapping, gone + {e.attribute}, e, now)
    ensures var longer := if e.key in BurnedKeys(after) then after else after + [e];
      BurnsRemoved(mapping, gone + {e.attribute}, before, longer, now)
  {
    BurnedKeysAppend(after, e);
    assert KeysLeaving(mapping, gone + {e.attribute}) == KeysLeaving(mapping, gone) + {e.key};
    forall i | 0 <= i < |after| ensures after[i].key in BurnedKeys(after) {}
    if e.key in BurnedKeys(after) {
      assert BurnedKeys(after) + {e.key} == BurnedKeys(after);
    }
  }
}
