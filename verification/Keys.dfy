/**
  The two key families of the schedule store, and the way the two iterators take keys apart.
 */
module Keys {
  import opened Machine

  const BY_HEIGHT: byte := 1
  const BY_SIGNER: byte := 2

  /** A signer and the contract it schedules; at most one call is pending for a pair. */
  datatype Pair = Pair(signer: Bytes, contract: Bytes)

  function Tail(p: Pair): Bytes
  {
    p.signer + p.contract
  }

  function HeightPrefix(h: uint64): (r: Bytes)
    ensures |r| == 9
  {
    [BY_HEIGHT] + Uint64ToBigEndian(h)
  }

  function HeightKey(h: uint64, p: Pair): Bytes
  {
    HeightPrefix(h) + Tail(p)
  }

  function SignerKey(p: Pair): Bytes
  {
    [BY_SIGNER] + Tail(p)
  }

  // ---- Injectivity ----

  /** The address lengths the iterators assume. */
  predicate Standard(p: Pair)
  {
    |p.signer| == 20 && |p.contract| <= 32
  }

  lemma TailInjective(p: Pair, q: Pair)
    requires |p.signer| == |q.signer| && Tail(p) == Tail(q)
    ensures p == q
  {
    assert p.signer == Tail(p)[..|p.signer|] && q.signer == Tail(q)[..|p.signer|];
    assert p.contract == Tail(p)[|p.signer|..] && q.contract == Tail(q)[|p.signer|..];
  }

  lemma SignerKeyInjective(p: Pair, q: Pair)
    requires |p.signer| == |q.signer| && SignerKey(p) == SignerKey(q)
    ensures p == q
  {
    assert Tail(p) == SignerKey(p)[1..] && Tail(q) == SignerKey(q)[1..];
    TailInjective(p, q);
  }

  lemma HeightKeyInjective(h: uint64, p: Pair, h': uint64, q: Pair)
    requires |p.signer| == |q.signer| && HeightKey(h, p) == HeightKey(h', q)
    ensures h == h' && p == q
  {
    assert Uint64ToBigEndian(h) == HeightKey(h, p)[1..9] && Uint64ToBigEndian(h') == HeightKey(h', q)[1..9];
    assert Tail(p) == HeightKey(h, p)[9..] && Tail(q) == HeightKey(h', q)[9..];
    HeightInjective(h, h');
    TailInjective(p, q);
  }

  lemma FamiliesDisjoint(h: uint64, p: Pair, q: Pair)
    ensures HeightKey(h, p) != SignerKey(q)
  {
    assert HeightKey(h, p)[0] != SignerKey(q)[0];
  }

  lemma HeightKeyHasPrefix(h: uint64, p: Pair, h': uint64)
    ensures HeightPrefix(h') <= HeightKey(h, p) <==> h == h'
  {
    assert HeightKey(h, p)[..9] == HeightPrefix(h);
    if HeightPrefix(h') <= HeightKey(h, p) {
      assert HeightPrefix(h') == HeightPrefix(h);
      assert Uint64ToBigEndian(h) == HeightPrefix(h)[1..] && Uint64ToBigEndian(h') == HeightPrefix(h')[1..];
      HeightInjective(h, h');
    }
  }

  /** Keys of the by-height family are ordered by height, then by signer, then by contract. */
  lemma HeightKeyOrder(h: uint64, p: Pair, h': uint64, q: Pair)
    requires |p.signer| == |q.signer|
    ensures Before(HeightKey(h, p), HeightKey(h', q)) <==>
              || h < h'
              || (h == h' && (Before(p.signer, q.signer) || (p.signer == q.signer && Before(p.contract, q.contract))))
  {
    var a, b := Uint64ToBigEndian(h), Uint64ToBigEndian(h');
    BeforeConcat(HeightPrefix(h), Tail(p), HeightPrefix(h'), Tail(q));
    BeforeConcat([BY_HEIGHT], a, [BY_HEIGHT], b);
    BeforeIrreflexive([BY_HEIGHT]);
    HeightOrder(h, h');
    BeforeConcat(p.signer, p.contract, q.signer, q.contract);
    assert a == HeightPrefix(h)[1..] && b == HeightPrefix(h')[1..];
    if a == b { HeightInjective(h, h'); }
  }

  // ---- Taking keys apart ----

  /** bytes.TrimPrefix. */
  function TrimPrefix(s: Bytes, prefix: Bytes): Bytes
  {
    if prefix <= s then s[|prefix|..] else s
  }

  /** bytes.Buffer.Next: at most `n` bytes. */
  function Next(s: Bytes, n: nat): (r: Bytes)
    ensures |r| <= n
  {
    if n <= |s| then s[..n] else s
  }

  function Rest(s: Bytes, n: nat): Bytes
  {
    if n <= |s| then s[n..] else []
  }

  function TakePair(s: Bytes): Pair
  {
    Pair(Next(s, 20), Next(Rest(s, 20), 32))
  }

  /** The per-height scan: the prefix store has already removed the prefix that is trimmed again. */
  function DecodeDueKey(h: uint64, key: Bytes): Pair
  {
    TakePair(TrimPrefix(key, HeightPrefix(h)))
  }

  datatype Listed = Listed(height: uint64, pair: Pair)

  /** The full scan; `None` is the panic of BigEndianToUint64 on a short height. */
  function DecodeListedKey(key: Bytes): Option<Listed>
  {
    var s := TrimPrefix(key, [BY_HEIGHT]);
    match BigEndianToUint64(Next(s, 8))
    case None => None
    case Some(h) => Some(Listed(h, TakePair(Rest(s, 8))))
  }

  /** When the two fixed-width reads recover both addresses. */
  predicate ReadsBack(p: Pair)
  {
    |p.contract| <= 32 && (|p.signer| == 20 || (|p.signer| < 20 && p.contract == []))
  }

  lemma TakePairExact(p: Pair)
    ensures TakePair(Tail(p)) == p <==> ReadsBack(p)
  {
    var s := Tail(p);
    if |p.signer| == 20 {
      assert Next(s, 20) == p.signer && Rest(s, 20) == p.contract;
    } else if |p.signer| < 20 && p.contract == [] {
      assert s == p.signer;
    }
  }

  lemma TakePairShort(s: Bytes)
    ensures |Tail(TakePair(s))| <= |s|
  {
  }

  /** The redundant second trim finds nothing to remove. */
  predicate TrimSafe(h: uint64, p: Pair)
  {
    !(HeightPrefix(h) <= Tail(p))
  }

  predicate DueDecodable(h: uint64, p: Pair)
  {
    TrimSafe(h, p) && ReadsBack(p)
  }

  /** The per-height scan recovers a pair from its key exactly when the pair is decodable. */
  lemma DueKeyExact(h: uint64, p: Pair)
    ensures DecodeDueKey(h, Tail(p)) == p <==> DueDecodable(h, p)
  {
    if TrimSafe(h, p) {
      TakePairExact(p);
    } else {
      TakePairShort(TrimPrefix(Tail(p), HeightPrefix(h)));
    }
  }

  /** For a 20-byte signer, the second trim bites only if the signer itself begins with the height prefix. */
  lemma TrimSafeForStandard(h: uint64, p: Pair)
    requires Standard(p)
    ensures TrimSafe(h, p) <==> p.signer[..9] != HeightPrefix(h)
    ensures DueDecodable(h, p) <==> TrimSafe(h, p)
  {
    assert Tail(p)[..9] == p.signer[..9];
  }

  /** A standard signer that does not begin with the bytes 01 00 is safe at every height below 2^56. */
  lemma PlainIsTrimSafe(h: uint64, p: Pair)
    requires Standard(p) && p.signer[..2] != [1, 0] && h < TWO56
    ensures TrimSafe(h, p)
  {
    Pow256Of8();
    TopByte(h, 8);
    assert HeightPrefix(h)[..2] == [1, 0];
    assert p.signer[..9][..2] == p.signer[..2];
    TrimSafeForStandard(h, p);
  }

  /** The full scan recovers height and pair exactly when the height's top byte is not the family prefix. */
  lemma ListedKeyExact(h: uint64, p: Pair)
    ensures DecodeListedKey(Uint64ToBigEndian(h) + Tail(p)) == Some(Listed(h, p)) <==> h / TWO56 != 1 && ReadsBack(p)
  {
    var key := Uint64ToBigEndian(h) + Tail(p);
    Pow256Of8();
    TopByte(h, 8);
    assert key[0] == h / TWO56;
    assert [BY_HEIGHT] <= key <==> key[..1] == [BY_HEIGHT];
    if h / TWO56 != 1 {
      assert TrimPrefix(key, [BY_HEIGHT]) == key;
      assert Next(key, 8) == Uint64ToBigEndian(h) && Rest(key, 8) == Tail(p);
      HeightRoundTrip(h);
      TakePairExact(p);
    } else {
      var s := TrimPrefix(key, [BY_HEIGHT]);
      assert s == key[1..];
      TakePairShort(Rest(s, 8));
    }
  }

  // ---- The order in which pairs of one height are visited ----

  predicate PairBefore(p: Pair, q: Pair)
  {
    Before(Tail(p), Tail(q))
  }

  /** The first of a set of pairs in key order. */
  ghost function First(s: set<Pair>): (p: Pair)
    requires s != {} && forall q :: q in s ==> Standard(q)
    ensures p in s
    ensures forall q :: q in s ==> q == p || PairBefore(p, q)
  {
    FirstExists(s);
    var p :| p in s && forall q :: q in s ==> q == p || PairBefore(p, q);
    p
  }

  /** Only one pair comes first. */
  lemma FirstUnique(s: set<Pair>, p: Pair)
    requires p in s && forall q :: q in s ==> Standard(q)
    requires forall q :: q in s ==> q == p || PairBefore(p, q)
    ensures p == First(s)
  {
    var f := First(s);
    if f != p {
      BeforeTransitive(Tail(p), Tail(f), Tail(p));
      BeforeIrreflexive(Tail(p));
    }
  }

  lemma FirstExists(s: set<Pair>)
    requires s != {} && forall q :: q in s ==> Standard(q)
    ensures exists p :: p in s && forall q :: q in s ==> q == p || PairBefore(p, q)
  {
    var tails := set q | q in s :: Tail(q);
    var any :| any in s;
    assert Tail(any) in tails;
    var k := FirstKeyExists(tails);
    var p :| p in s && Tail(p) == k;
    forall q | q in s ensures q == p || PairBefore(p, q) {
      assert Tail(q) in tails;
      if Tail(q) == k { TailInjective(p, q); }
    }
  }
}
