/**
  What the schedule store stands for: one finite map from pairs to pending calls, written
  twice, once under a by-height key and once under a by-signer key.
 */
module Index {
  import opened Machine
  import opened Varint
  import opened Wire
  import opened Messages
  import opened Keys
  import Fields

  type Store = map<Bytes, Slice>

  /**
    A pending call. `swapped` marks the state ReScheduleCall leaves behind as it is written
    (keeper.go:94-95): the height sits under the by-height key and the body under the
    by-signer key, the reverse of what AddScheduledCall stores.
   */
  datatype Entry = Entry(height: uint64, body: Body, swapped: bool)

  type Pending = map<Pair, Entry>

  function HeightBytes(h: uint64): Slice
  {
    Uint64ToBigEndian(h)
  }

  function BodyBytes(b: Body): Slice
  {
    CallRoundTrip(ScheduledCall(b));
    EncodeCall(ScheduledCall(b))
  }

  function HeightValue(e: Entry): Slice
  {
    if e.swapped then HeightBytes(e.height) else BodyBytes(e.body)
  }

  function SignerValue(e: Entry): Slice
  {
    if e.swapped then BodyBytes(e.body) else HeightBytes(e.height)
  }

  /** The body an iterator reads back from a stored value; `None` is the panic of MustUnmarshal. */
  function ReadBody(value: Slice): Option<Body>
  {
    match DecodeCall(value)
    case Err(_) => None
    case Ok(c) =>
      DecodeCallBound(value);
      Some(c.callBody)
  }

  function DecodedBody(e: Entry): Option<Body>
  {
    ReadBody(HeightValue(e))
  }

  lemma BodyBytesRoundTrip(b: Body)
    ensures DecodeCall(BodyBytes(b)) == Ok(ScheduledCall(b))
  {
    CallRoundTrip(ScheduledCall(b));
  }

  /** A well-placed entry reads back its own body. */
  lemma DecodedBodyOfGood(e: Entry)
    requires !e.swapped
    ensures DecodedBody(e) == Some(e.body)
  {
    BodyBytesRoundTrip(e.body);
  }

  /** For every height below 2^56 a swapped entry is rejected: its first tag is zero. */
  lemma SwappedRejected(h: uint64)
    requires h < TWO56
    ensures DecodeCall(HeightBytes(h)) == Err(IllegalTag)
  {
    Pow256Of8();
    TopByte(h, 8);
    var s := HeightBytes(h);
    assert s[0] == 0;
    assert ReadGroups(s, 10) == Ok(Read(0, 1));
    assert ReadTag(s) == Err(IllegalTag);
    assert ReadField(CALL_SCHEMA, s, 0) == Err(IllegalTag);
  }

  // ---- Representation ----

  predicate Holds(store: Store, k: Bytes, v: Slice)
  {
    k in store && store[k] == v
  }

  ghost predicate Owned(m: Pending, k: Bytes)
  {
    exists p :: p in m && (k == SignerKey(p) || k == HeightKey(m[p].height, p))
  }

  /** Both entries of one pending call. */
  predicate HoldsBoth(store: Store, p: Pair, e: Entry)
  {
    && |p.signer| == 20
    && Holds(store, SignerKey(p), SignerValue(e))
    && Holds(store, HeightKey(e.height, p), HeightValue(e))
  }

  /** The store holds the two entries of every pending call, and nothing else. */
  ghost predicate Represents(store: Store, m: Pending)
  {
    && (forall p :: p in m ==> HoldsBoth(store, p, m[p]))
    && (forall k :: k in store ==> Owned(m, k))
  }

  predicate Clean(m: Pending)
  {
    forall p :: p in m ==> !m[p].swapped
  }

  /** The pairs whose call is due at height `h`. */
  function Due(m: Pending, h: nat): set<Pair>
  {
    set p | p in m && m[p].height == h
  }

  /** Which keys are present, in both families. */
  lemma RepresentsLookup(store: Store, m: Pending, p: Pair, h: uint64)
    requires Represents(store, m) && |p.signer| == 20
    ensures SignerKey(p) in store <==> p in m
    ensures HeightKey(h, p) in store <==> p in m && m[p].height == h
  {
    hide SignerKey, HeightKey;
    if SignerKey(p) in store {
      var q :| q in m && (SignerKey(p) == SignerKey(q) || SignerKey(p) == HeightKey(m[q].height, q));
      FamiliesDisjoint(m[q].height, q, p);
      SignerKeyInjective(p, q);
    }
    if HeightKey(h, p) in store {
      var q :| q in m && (HeightKey(h, p) == SignerKey(q) || HeightKey(h, p) == HeightKey(m[q].height, q));
      FamiliesDisjoint(h, p, q);
      HeightKeyInjective(h, p, m[q].height, q);
    }
  }

  function Insert(store: Store, p: Pair, e: Entry): Store
  {
    store[SignerKey(p) := SignerValue(e)][HeightKey(e.height, p) := HeightValue(e)]
  }

  function Delete(store: Store, p: Pair, h: uint64): Store
  {
    store - {SignerKey(p), HeightKey(h, p)}
  }

  lemma InsertKeepsOthers(store: Store, p: Pair, e: Entry, q: Pair, f: Entry)
    requires |p.signer| == 20 && p != q && HoldsBoth(store, q, f)
    ensures HoldsBoth(Insert(store, p, e), q, f)
  {
    hide SignerKey, HeightKey, SignerValue, HeightValue;
    KeysApart(p, e.height, q, f.height);
  }

  lemma InsertHolds(store: Store, p: Pair, e: Entry)
    requires |p.signer| == 20
    ensures HoldsBoth(Insert(store, p, e), p, e)
  {
    hide SignerKey, HeightKey, SignerValue, HeightValue;
    FamiliesDisjoint(e.height, p, p);
  }

  lemma DeleteKeepsOthers(store: Store, p: Pair, h: uint64, q: Pair, f: Entry)
    requires |p.signer| == 20 && p != q && HoldsBoth(store, q, f)
    ensures HoldsBoth(Delete(store, p, h), q, f)
  {
    hide SignerKey, HeightKey, SignerValue, HeightValue;
    KeysApart(p, h, q, f.height);
  }

  lemma OwnedAfterInsert(m: Pending, p: Pair, e: Entry, k: Bytes)
    requires p !in m && (Owned(m, k) || k == SignerKey(p) || k == HeightKey(e.height, p))
    ensures Owned(m[p := e], k)
  {
    hide SignerKey, HeightKey;
    var m' := m[p := e];
    if k == SignerKey(p) || k == HeightKey(e.height, p) {
      assert p in m' && m'[p] == e;
    } else {
      var q :| q in m && (k == SignerKey(q) || k == HeightKey(m[q].height, q));
      assert q in m' && m'[q] == m[q];
    }
  }

  lemma OwnedAfterDelete(m: Pending, p: Pair, k: Bytes)
    requires p in m && Owned(m, k) && k != SignerKey(p) && k != HeightKey(m[p].height, p)
    ensures Owned(m - {p}, k)
  {
    hide SignerKey, HeightKey;
    var q :| q in m && (k == SignerKey(q) || k == HeightKey(m[q].height, q));
    assert q in m - {p} && (m - {p})[q] == m[q];
  }

  lemma RepresentsInsert(store: Store, m: Pending, p: Pair, e: Entry)
    requires Represents(store, m) && p !in m && |p.signer| == 20
    ensures Represents(Insert(store, p, e), m[p := e])
  {
    hide SignerKey, HeightKey, SignerValue, HeightValue, Owned, HoldsBoth;
    var store' := Insert(store, p, e);
    var m' := m[p := e];
    forall q | q in m' ensures HoldsBoth(store', q, m'[q]) {
      if q == p {
        InsertHolds(store, p, e);
      } else {
        InsertKeepsOthers(store, p, e, q, m[q]);
      }
    }
    forall k | k in store' ensures Owned(m', k) {
      OwnedAfterInsert(m, p, e, k);
    }
  }

  lemma RepresentsRemove(store: Store, m: Pending, p: Pair)
    requires Represents(store, m) && p in m
    ensures Represents(Delete(store, p, m[p].height), m - {p})
  {
    hide SignerKey, HeightKey, SignerValue, HeightValue, Owned, HoldsBoth;
    var store' := Delete(store, p, m[p].height);
    RepresentsSigners(store, m, p);
    forall q | q in m - {p} ensures HoldsBoth(store', q, (m - {p})[q]) {
      DeleteKeepsOthers(store, p, m[p].height, q, m[q]);
    }
    forall k | k in store' ensures Owned(m - {p}, k) {
      OwnedAfterDelete(m, p, k);
    }
  }

  /** Two different pairs share no key. */
  lemma KeysApart(p: Pair, h: uint64, q: Pair, h': uint64)
    requires |p.signer| == |q.signer|
    ensures p != q ==> SignerKey(p) != SignerKey(q) && HeightKey(h, p) != HeightKey(h', q)
    ensures SignerKey(p) != HeightKey(h', q) && SignerKey(q) != HeightKey(h, p)
  {
    hide SignerKey, HeightKey;
    FamiliesDisjoint(h', q, p);
    FamiliesDisjoint(h, p, q);
    if SignerKey(p) == SignerKey(q) { SignerKeyInjective(p, q); }
    if HeightKey(h, p) == HeightKey(h', q) { HeightKeyInjective(h, p, h', q); }
  }

  /** Removing a pair that is not pending, at any height, touches no key. */
  lemma RepresentsRemoveAbsent(store: Store, m: Pending, p: Pair, h: uint64)
    requires Represents(store, m) && p !in m && |p.signer| == 20
    ensures Delete(store, p, h) == store
  {
    hide SignerKey, HeightKey, Represents;
    RepresentsLookup(store, m, p, h);
  }

  lemma BodyBytesInjective(a: Body, b: Body)
    requires BodyBytes(a) == BodyBytes(b)
    ensures a == b
  {
    hide BodyBytes;
    BodyBytesRoundTrip(a);
    BodyBytesRoundTrip(b);
  }

  /** A store stands for at most one map of well-placed calls. */
  lemma RepresentsUnique(store: Store, m: Pending, m': Pending)
    requires Represents(store, m) && Represents(store, m') && Clean(m) && Clean(m')
    ensures m == m'
  {
    hide SignerKey, HeightKey, BodyBytes, HeightBytes;
    forall p | p in m || p in m'
      ensures p in m && p in m' && m[p] == m'[p]
    {
      var h := if p in m then m[p].height else m'[p].height;
      RepresentsLookup(store, m, p, h);
      RepresentsLookup(store, m', p, h);
      assert Holds(store, HeightKey(h, p), HeightValue(m[p]));
      assert Holds(store, HeightKey(h, p), HeightValue(m'[p]));
      BodyBytesInjective(m[p].body, m'[p].body);
    }
  }

  /** And a map has only one store: representing it pins down every key and every value. */
  lemma RepresentationDeterminesStore(store: Store, store': Store, m: Pending)
    requires Represents(store, m) && Represents(store', m)
    ensures store == store'
  {
    hide SignerKey, HeightKey, SignerValue, HeightValue;
    forall k | k in store || k in store'
      ensures k in store && k in store' && store[k] == store'[k]
    {
      assert Owned(m, k);
      var p :| p in m && (k == SignerKey(p) || k == HeightKey(m[p].height, p));
      assert HoldsBoth(store, p, m[p]) && HoldsBoth(store', p, m[p]);
    }
  }

  /**
    Visiting a due key deletes that very entry, and its by-signer twin, exactly when the
    second trim finds nothing and the two fixed-width reads cover the whole key. Otherwise
    the entry stays behind, below every later height.
   */
  lemma VisitDeletesItselfIff(store: Store, h: uint64, p: Pair)
    requires HeightKey(h, p) in store && SignerKey(p) in store
    ensures HeightKey(h, p) !in Delete(store, DecodeDueKey(h, Tail(p)), h) <==> TrimSafe(h, p) && |Tail(p)| <= 52
    ensures SignerKey(p) !in Delete(store, DecodeDueKey(h, Tail(p)), h) <==> TrimSafe(h, p) && |Tail(p)| <= 52
  {
    var q := DecodeDueKey(h, Tail(p));
    FamiliesDisjoint(h, p, q);
    FamiliesDisjoint(h, q, p);
    DecodedTail(h, p);
    assert HeightKey(h, q)[9..] == Tail(q) && HeightKey(h, p)[9..] == Tail(p);
    assert SignerKey(q)[1..] == Tail(q) && SignerKey(p)[1..] == Tail(p);
  }

  /** For every height some standard signer meets that case: its entry outlives the visit. */
  lemma StrandedSigner(h: uint64, contract: Bytes, body: Body) returns (p: Pair)
    requires |contract| <= 32
    ensures Standard(p) && p.contract == contract
    ensures var store := Insert(map[], p, Entry(h, body, false));
      && Represents(store, map[p := Entry(h, body, false)])
      && HeightKey(h, p) in Delete(store, DecodeDueKey(h, Tail(p)), h)
  {
    hide BodyBytes, HeightKey, SignerKey;
    p := Pair(HeightPrefix(h) + [0, 0, 0, 0, 0, 0, 0, 0, 0, 0, 0], contract);
    var e := Entry(h, body, false);
    assert Represents(map[], map[]);
    RepresentsInsert(map[], map[], p, e);
    InsertHolds(map[], p, e);
    assert map[][p := e] == map[p := e];
    assert HeightPrefix(h) <= Tail(p);
    VisitDeletesItselfIff(Insert(map[], p, e), h, p);
  }

  lemma DecodedTail(h: uint64, p: Pair)
    ensures Tail(DecodeDueKey(h, Tail(p))) == Tail(p) <==> TrimSafe(h, p) && |Tail(p)| <= 52
  {
    var s := TrimPrefix(Tail(p), HeightPrefix(h));
    assert Tail(TakePair(s)) == Next(s, 52);
  }

  // ---- ReScheduleCall as written ----

  /** The store after ReScheduleCall, as written, on the pair `p` pending at `oldHeight`. */
  function RescheduledAsWritten(store: Store, p: Pair, body: Body, oldHeight: uint64, newHeight: uint64): Store
  {
    Delete(store, p, oldHeight)
      [HeightKey(newHeight, p) := HeightBytes(newHeight)]
      [SignerKey(p) := BodyBytes(body)]
  }

  function RescheduledAsIntended(store: Store, p: Pair, body: Body, oldHeight: uint64, newHeight: uint64): Store
  {
    Delete(store, p, oldHeight)
      [SignerKey(p) := HeightBytes(newHeight)]
      [HeightKey(newHeight, p) := BodyBytes(body)]
  }

  lemma InsertOrder(store: Store, k: Bytes, v: Slice, k': Bytes, v': Slice)
    requires k != k'
    ensures store[k := v][k' := v'] == store[k' := v'][k := v]
  {
  }

  /** The intended assignment replaces the pending call; what is written leaves a swapped entry in its place. */
  lemma RescheduleRepresents(store: Store, m: Pending, p: Pair, body: Body, newHeight: uint64)
    requires Represents(store, m) && p in m
    ensures Represents(RescheduledAsIntended(store, p, body, m[p].height, newHeight),
                       m[p := Entry(newHeight, body, false)])
    ensures Represents(RescheduledAsWritten(store, p, body, m[p].height, newHeight),
                       m[p := Entry(newHeight, body, true)])
  {
    hide SignerKey, HeightKey, Represents;
    RepresentsRemove(store, m, p);
    var good, bad := Entry(newHeight, body, false), Entry(newHeight, body, true);
    assert |p.signer| == 20 by { RepresentsSigners(store, m, p); }
    RepresentsInsert(Delete(store, p, m[p].height), m - {p}, p, good);
    RepresentsInsert(Delete(store, p, m[p].height), m - {p}, p, bad);
    assert (m - {p})[p := good] == m[p := good];
    assert (m - {p})[p := bad] == m[p := bad];
    FamiliesDisjoint(newHeight, p, p);
    InsertOrder(Delete(store, p, m[p].height),
                HeightKey(newHeight, p), HeightBytes(newHeight), SignerKey(p), BodyBytes(body));
  }

  lemma RepresentsSigners(store: Store, m: Pending, p: Pair)
    requires Represents(store, m) && p in m
    ensures |p.signer| == 20
  {
  }

  /**
    What BlockHeightForSignerContract makes of a body stored where the height should be: zero,
    that is "nothing pending", for the empty body; a panic for one to five bytes; and for
    longer bodies a number above every height below 2^56.
   */
  lemma SwappedHeightUnreadable(body: Body)
    ensures body == [] ==> BigEndianToUint64(BodyBytes(body)) == Some(0)
    ensures 1 <= |body| <= 5 ==> BigEndianToUint64(BodyBytes(body)).None?
    ensures |body| > 5 ==> BigEndianToUint64(BodyBytes(body)).Some?
                           && BigEndianToUint64(BodyBytes(body)).value >= 10 * TWO56
  {
    hide BodyBytes;
    var s := BodyBytes(body);
    BytesIfSetShape(body);
    if body != [] {
      SovIsLength(|body|);
      ShortBody(body);
      if |body| > 5 {
        Pow256Of8();
        FromBigEndianLead(s[..8]);
      }
    }
  }

  lemma ShortBody(body: Body)
    requires body != []
    ensures |BodyBytes(body)| < 8 <==> |body| <= 5
  {
    BytesIfSetShape(body);
    if |body| < 128 {
      assert EncodeVarint(|body|) == [|body|];
    }
  }

  lemma {:induction false} FromBigEndianLead(s: Bytes)
    requires s != []
    ensures FromBigEndian(s) >= s[0] * Pow256(|s| - 1)
  {
    var n := |s| - 1;
    if n > 0 {
      FromBigEndianLead(s[..n]);
      assert s[0] * Pow256(n) == 256 * (s[0] * Pow256(n - 1));
    }
  }

  /** The one coincidence in which the two values written by ReScheduleCall are the same bytes. */
  predicate Coincidence(body: Body, newHeight: uint64)
  {
    |body| == 6 && newHeight == 0x0a06_0000_0000_0000 + FromBigEndian(body)
  }

  /**
    As written, ReScheduleCall keeps the index invariant exactly in that coincidence; in
    particular never for a height below 2^56.
   */
  lemma AsWrittenKeepsIndexIff(store: Store, m: Pending, p: Pair, body: Body, newHeight: uint64)
    requires Represents(store, m) && Clean(m) && p in m
    ensures (exists m' :: Clean(m') && Represents(RescheduledAsWritten(store, p, body, m[p].height, newHeight), m'))
            <==> Coincidence(body, newHeight)
    ensures newHeight < TWO56 ==> !Coincidence(body, newHeight)
  {
    hide SignerKey, HeightKey, Represents, BodyBytes, HeightBytes;
    var store' := RescheduledAsWritten(store, p, body, m[p].height, newHeight);
    var good := m[p := Entry(newHeight, body, false)];
    RescheduleRepresents(store, m, p, body, newHeight);
    CoincidenceIffEqual(body, newHeight);
    FamiliesDisjoint(newHeight, p, p);
    if BodyBytes(body) == HeightBytes(newHeight) {
      InsertOrder(Delete(store, p, m[p].height),
                  HeightKey(newHeight, p), HeightBytes(newHeight), SignerKey(p), BodyBytes(body));
      assert store' == RescheduledAsIntended(store, p, body, m[p].height, newHeight);
      assert Clean(good);
    }
    forall m' | Clean(m') && Represents(store', m') ensures BodyBytes(body) == HeightBytes(newHeight) {
      RepresentsSigners(store, m, p);
      RepresentsLookup(store', m', p, newHeight);
      SignerEntry(store', m', p);
    }
  }

  lemma SignerEntry(store: Store, m: Pending, p: Pair)
    requires Represents(store, m) && Clean(m) && p in m
    ensures Holds(store, SignerKey(p), HeightBytes(m[p].height))
  {
  }

  lemma CoincidenceIffEqual(body: Body, h: uint64)
    ensures BodyBytes(body) == HeightBytes(h) <==> Coincidence(body, h)
  {
    hide BodyBytes, BigEndian, FromBigEndian;
    BodyBytesShape(body);
    if |body| == 6 {
      var n := 0x0a06_0000_0000_0000 + FromBigEndian(body);
      SixBytes(body);
      if h == n {
      } else if HeightBytes(h) == BodyBytes(body) {
        HeightInjective(h, n);
      }
    }
  }

  /** The encoding of a body is eight bytes long exactly for six-byte bodies. */
  lemma BodyBytesShape(body: Body)
    ensures |BodyBytes(body)| == 8 <==> |body| == 6
    ensures |body| == 6 ==> BodyBytes(body) == [10, 6] + body
  {
    BytesIfSetShape(body);
    if body != [] {
      SovIsLength(|body|);
      if |body| >= 128 {
        assert |EncodeVarint(|body|)| >= 2;
      } else {
        assert EncodeVarint(|body|) == [|body|];
      }
    }
  }

  lemma BytesIfSetShape(body: Body)
    ensures body == [] ==> BodyBytes(body) == []
    ensures body != [] ==> BodyBytes(body) == [10] + (EncodeVarint(|body|) + body)
  {
    Fields.BytesIfSetFacts(MergeCall, ScheduledCall([]), 1, body);
  }

  lemma SixBytes(body: Bytes)
    requires |body| == 6
    ensures 0x0a06_0000_0000_0000 + FromBigEndian(body) < TWO64
    ensures BigEndian(0x0a06_0000_0000_0000 + FromBigEndian(body), 8) == [10, 6] + body
  {
    TwoBytes();
    hide FromBigEndian, BigEndian;
    FromBigEndianBound(body);
    BigEndianAppend(0x0a06, body);
  }

  lemma TwoBytes()
    ensures Pow256(6) == 0x1_0000_0000_0000
    ensures BigEndian(0x0a06, 2) == [10, 6]
  {
    assert Pow256(2) == 0x1_0000;
    assert Pow256(4) == 0x1_0000_0000;
    assert BigEndian(10, 1) == BigEndian(0, 0) + [10];
  }

  lemma {:induction false} BigEndianAppend(v: nat, s: Bytes)
    ensures BigEndian(v * Pow256(|s|) + FromBigEndian(s), 2 + |s|) == BigEndian(v, 2) + s
  {
    if s == [] {
      assert BigEndian(v, 2) + s == BigEndian(v, 2);
    } else {
      var n := |s| - 1;
      var x := v * Pow256(n) + FromBigEndian(s[..n]);
      assert v * Pow256(|s|) + FromBigEndian(s) == 256 * x + s[n] by {
        assert v * (256 * Pow256(n)) == 256 * (v * Pow256(n));
      }
      BigEndianAppend(v, s[..n]);
      assert (256 * x + s[n]) / 256 == x && (256 * x + s[n]) % 256 == s[n];
      assert s == s[..n] + [s[n]];
    }
  }
}
