/**
  Prefix iterators over the byte store. A cursor is live: moving it past a key looks for the
  next key in the store as it is at that moment.
 */
module Cursor {
  import opened Machine
  import opened Keys
  import opened Index

  predicate Follows(after: Option<Bytes>, k: Bytes)
  {
    after.None? || Before(after.value, k)
  }

  /** `r` is the first key under `prefix` and strictly after `after`, without the prefix. */
  ghost predicate Sought(store: Store, prefix: Bytes, after: Option<Bytes>, r: Option<Bytes>)
  {
    match r
    case None => forall k :: prefix + k in store ==> !Follows(after, k)
    case Some(f) =>
      && prefix + f in store && Follows(after, f)
      && forall k :: prefix + k in store && Follows(after, k) ==> k == f || Before(f, k)
  }

  /** The keys under `prefix`, without it, that a cursor at `after` has not passed. */
  ghost function KeysUnder(store: Store, prefix: Bytes, after: Option<Bytes>): set<Bytes>
  {
    set k | k in store && prefix <= k && Follows(after, k[|prefix|..]) :: k[|prefix|..]
  }

  lemma InKeysUnder(store: Store, prefix: Bytes, after: Option<Bytes>, k: Bytes)
    ensures k in KeysUnder(store, prefix, after) <==> prefix + k in store && Follows(after, k)
  {
    assert (prefix + k)[|prefix|..] == k;
    if k in KeysUnder(store, prefix, after) {
      var full :| full in store && prefix <= full && Follows(after, full[|prefix|..]) && full[|prefix|..] == k;
      assert full == prefix + k;
    }
  }

  lemma SoughtExists(store: Store, prefix: Bytes, after: Option<Bytes>)
    ensures exists r :: Sought(store, prefix, after, r)
  {
    hide Follows, KeysUnder;
    var keys := KeysUnder(store, prefix, after);
    forall k ensures k in keys <==> prefix + k in store && Follows(after, k) {
      InKeysUnder(store, prefix, after, k);
    }
    if keys == {} {
      assert Sought(store, prefix, after, None);
    } else {
      var f := FirstKeyExists(keys);
      assert Sought(store, prefix, after, Some(f));
    }
  }

  lemma SoughtUnique(store: Store, prefix: Bytes, after: Option<Bytes>, r: Option<Bytes>, r': Option<Bytes>)
    requires Sought(store, prefix, after, r) && Sought(store, prefix, after, r')
    ensures r == r'
  {
    if r.Some? && r'.Some? && r != r' {
      BeforeTransitive(r.value, r'.value, r.value);
      BeforeIrreflexive(r.value);
    }
  }

  /** Where a cursor moves to: the one key `Sought` describes. */
  ghost function FirstAfter(store: Store, prefix: Bytes, after: Option<Bytes>): (r: Option<Bytes>)
    ensures Sought(store, prefix, after, r)
  {
    SoughtExists(store, prefix, after);
    var r :| Sought(store, prefix, after, r);
    r
  }

  /** Visiting a key leaves fewer keys ahead, as long as nothing is inserted under the prefix. */
  lemma CursorAdvances(store: Store, store': Store, prefix: Bytes, after: Option<Bytes>, at: Bytes)
    requires Sought(store, prefix, after, Some(at))
    requires forall k :: prefix + k in store' ==> prefix + k in store
    ensures KeysUnder(store', prefix, Some(at)) < KeysUnder(store, prefix, after)
  {
    hide KeysUnder;
    BeforeIrreflexive(at);
    InKeysUnder(store, prefix, after, at);
    InKeysUnder(store', prefix, Some(at), at);
    forall k | k in KeysUnder(store', prefix, Some(at)) ensures k in KeysUnder(store, prefix, after) {
      InKeysUnder(store', prefix, Some(at), k);
      InKeysUnder(store, prefix, after, k);
      if after.Some? { BeforeTransitive(after.value, at, k); }
    }
  }

  // ---- All the keys under a prefix ----

  /** The keys a cursor at `after` meets in a store that does not change. */
  ghost function KeyList(store: Store, prefix: Bytes, after: Option<Bytes>): seq<Bytes>
    decreases |KeysUnder(store, prefix, after)|
  {
    match FirstAfter(store, prefix, after)
    case None => []
    case Some(k) =>
      CursorAdvances(store, store, prefix, after, k);
      FewerKeys(KeysUnder(store, prefix, Some(k)), KeysUnder(store, prefix, after));
      [k] + KeyList(store, prefix, Some(k))
  }

  lemma FewerKeys(a: set<Bytes>, b: set<Bytes>)
    requires a < b
    ensures |a| < |b|
  {
    assert b == a + (b - a);
    assert b - a != {};
  }

  predicate Increasing(keys: seq<Bytes>)
  {
    forall i, j :: 0 <= i < j < |keys| ==> Before(keys[i], keys[j])
  }

  lemma IncreasingCons(k: Bytes, keys: seq<Bytes>)
    requires Increasing(keys) && forall j :: j in keys ==> Before(k, j)
    ensures Increasing([k] + keys)
  {
  }

  /** It lists exactly the keys under the prefix that follow, each once, in order. */
  lemma {:induction false} KeyListExact(store: Store, prefix: Bytes, after: Option<Bytes>)
    ensures forall k :: k in KeyList(store, prefix, after) <==> prefix + k in store && Follows(after, k)
    ensures Increasing(KeyList(store, prefix, after))
    decreases |KeysUnder(store, prefix, after)|
  {
    hide KeysUnder;
    var r := FirstAfter(store, prefix, after);
    if r.Some? {
      var at := r.value;
      CursorAdvances(store, store, prefix, after, at);
      FewerKeys(KeysUnder(store, prefix, Some(at)), KeysUnder(store, prefix, after));
      KeyListExact(store, prefix, Some(at));
      var rest := KeyList(store, prefix, Some(at));
      forall k
        ensures k in [at] + rest <==> prefix + k in store && Follows(after, k)
      {
        if k in rest && after.Some? { BeforeTransitive(after.value, at, k); }
      }
      IncreasingCons(at, rest);
    }
  }

  // ---- Cursors over a store that represents a map ----

  /** The part of the store under one height is exactly the due pairs. */
  lemma DueKeys(store: Store, m: Pending, h: uint64, tail: Bytes)
    requires Represents(store, m)
    ensures HeightPrefix(h) + tail in store <==> exists p :: p in Due(m, h) && Tail(p) == tail
  {
    hide SignerValue, HeightValue;
    var k := HeightPrefix(h) + tail;
    if k in store {
      assert Owned(m, k);
      var p :| p in m && (k == SignerKey(p) || k == HeightKey(m[p].height, p));
      assert k[0] == BY_HEIGHT && SignerKey(p)[0] == BY_SIGNER;
      HeightKeyHasPrefix(m[p].height, p, h);
      assert HeightPrefix(h) <= k;
      assert tail == k[9..] && Tail(p) == HeightKey(m[p].height, p)[9..];
      assert p in Due(m, h);
    }
    if p :| p in Due(m, h) && Tail(p) == tail {
      assert HoldsBoth(store, p, m[p]);
    }
  }

  /** When everything due follows `after`, the cursor moves to the first due pair, or past the end. */
  lemma CursorOnDue(store: Store, m: Pending, h: uint64, after: Option<Bytes>)
    requires Represents(store, m) && forall p :: p in m ==> Standard(p)
    requires forall p :: p in Due(m, h) ==> Follows(after, Tail(p))
    ensures FirstAfter(store, HeightPrefix(h), after)
         == if Due(m, h) == {} then None else Some(Tail(First(Due(m, h))))
  {
    hide Represents, HeightPrefix, Standard, Follows;
    var r := FirstAfter(store, HeightPrefix(h), after);
    if r.None? {
      forall p | p in Due(m, h) ensures false {
        DueKeys(store, m, h, Tail(p));
      }
    } else {
      DueKeys(store, m, h, r.value);
      var p :| p in Due(m, h) && Tail(p) == r.value;
      forall q | q in Due(m, h) ensures q == p || PairBefore(p, q) {
        DueKeys(store, m, h, Tail(q));
        if Tail(q) == Tail(p) { StandardTails(p, q); }
      }
      FirstUnique(Due(m, h), p);
    }
  }

  lemma StandardTails(p: Pair, q: Pair)
    requires Standard(p) && Standard(q) && Tail(p) == Tail(q)
    ensures p == q
  {
    TailInjective(p, q);
  }
}
