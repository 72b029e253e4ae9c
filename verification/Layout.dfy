/**
  The store in literal bytes: how a height is written, where the two entries of a pending call
  lie and what they hold, how keys are ordered and taken apart.
 */
module Layout {
  import opened Machine
  import opened Varint
  import opened Messages
  import opened Keys
  import opened Index
  import opened Scheduler
  import opened Chain

  // ---- Heights ----

  /** A stored height is eight bytes, the most significant first. */
  lemma HeightLayout(h: uint64)
    ensures Uint64ToBigEndian(h)
         == [h / 0x100_0000_0000_0000, h / 0x1_0000_0000_0000 % 0x100, h / 0x100_0000_0000 % 0x100,
             h / 0x1_0000_0000 % 0x100, h / 0x100_0000 % 0x100, h / 0x1_0000 % 0x100, h / 0x100 % 0x100, h % 0x100]
  {
    var h1, h2 := h / 0x100, h / 0x1_0000;
    var h3, h4 := h / 0x100_0000, h / 0x1_0000_0000;
    var h5, h6 := h / 0x100_0000_0000, h / 0x1_0000_0000_0000;
    var h7 := h / 0x100_0000_0000_0000;
    assert BigEndian(h7, 1) == [h7] by { assert BigEndian(h7 / 256, 0) == []; }
    assert h6 / 256 == h7 && BigEndian(h6, 2) == BigEndian(h7, 1) + [h6 % 256];
    assert h5 / 256 == h6 && BigEndian(h5, 3) == BigEndian(h6, 2) + [h5 % 256];
    assert h4 / 256 == h5 && BigEndian(h4, 4) == BigEndian(h5, 3) + [h4 % 256];
    assert h3 / 256 == h4 && BigEndian(h3, 5) == BigEndian(h4, 4) + [h3 % 256];
    assert h2 / 256 == h3 && BigEndian(h2, 6) == BigEndian(h3, 5) + [h2 % 256];
    assert h1 / 256 == h2 && BigEndian(h1, 7) == BigEndian(h2, 6) + [h1 % 256];
    assert h / 256 == h1 && BigEndian(h, 8) == BigEndian(h1, 7) + [h % 256];
  }

  /** Nothing reads as zero, one to seven bytes panic, and of eight or more the first eight are read. */
  lemma HeightReading(s: Bytes)
    ensures s == [] ==> BigEndianToUint64(s) == Some(0)
    ensures 1 <= |s| <= 7 ==> BigEndianToUint64(s).None?
    ensures |s| >= 8 ==>
              BigEndianToUint64(s)
              == Some(s[0] as int * 0x100_0000_0000_0000 + s[1] as int * 0x1_0000_0000_0000
                      + s[2] as int * 0x100_0000_0000 + s[3] as int * 0x1_0000_0000 + s[4] as int * 0x100_0000
                      + s[5] as int * 0x1_0000 + s[6] as int * 0x100 + s[7])
  {
    if |s| >= 8 {
      var t := s[..8];
      Shorten(t, 1);
      Shorten(t, 2);
      Shorten(t, 3);
      Shorten(t, 4);
      Shorten(t, 5);
      Shorten(t, 6);
      Shorten(t, 7);
      Shorten(t, 8);
      assert t[..0] == [] && t[..8] == t;
    }
  }

  lemma Shorten(s: Bytes, n: nat)
    requires 0 < n <= |s|
    ensures FromBigEndian(s[..n]) == 256 * FromBigEndian(s[..n - 1]) + s[n - 1]
  {
    assert s[..n][..n - 1] == s[..n - 1];
  }

  // ---- Keys ----

  lemma KeyLayout(h: uint64, p: Pair)
    ensures HeightPrefix(h) == [1] + Uint64ToBigEndian(h)
    ensures HeightKey(h, p) == [1] + Uint64ToBigEndian(h) + p.signer + p.contract
    ensures SignerKey(p) == [2] + p.signer + p.contract
  {
    assert [1] + Uint64ToBigEndian(h) + (p.signer + p.contract) == [1] + Uint64ToBigEndian(h) + p.signer + p.contract;
    assert [2] + (p.signer + p.contract) == [2] + p.signer + p.contract;
  }

  /** `a` and `b` first differ at `i`: there `a` ends, or has the smaller byte. */
  predicate DiffersAt(a: Bytes, b: Bytes, i: nat)
  {
    i <= |a| && i < |b| && a[..i] == b[..i] && (i == |a| || a[i] < b[i])
  }

  /** The byte order of keys is that of the first difference. */
  lemma {:induction false} OrderOfKeys(a: Bytes, b: Bytes)
    ensures Before(a, b) <==> exists i: nat :: DiffersAt(a, b, i)
  {
    if Before(a, b) {
      if a == [] || a[0] < b[0] {
        assert DiffersAt(a, b, 0);
      } else {
        OrderOfKeys(a[1..], b[1..]);
        var i: nat :| DiffersAt(a[1..], b[1..], i);
        assert a[..i + 1] == [a[0]] + a[1..][..i] && b[..i + 1] == [b[0]] + b[1..][..i];
        assert DiffersAt(a, b, i + 1);
      }
    }
    if i: nat :| DiffersAt(a, b, i) {
      if i > 0 {
        assert a[0] == a[..i][0] == b[..i][0] == b[0];
        assert a[1..][..i - 1] == a[..i][1..] && b[1..][..i - 1] == b[..i][1..];
        assert DiffersAt(a[1..], b[1..], i - 1);
        OrderOfKeys(a[1..], b[1..]);
      }
    }
  }

  /** A visit reads 20 bytes of signer and at most 32 of contract, after cutting a second height prefix. */
  lemma VisitReads(h: uint64, k: Bytes)
    ensures var again := [1] + Uint64ToBigEndian(h);
      var s := if again <= k then k[9..] else k;
      var n := if |s| < 20 then |s| else 20;
      var m := if |s| < 52 then |s| else 52;
      DecodeDueKey(h, k) == Pair(s[..n], s[n..m])
  {
  }

  /** The full scan reads eight bytes of height first, after cutting a second family prefix. */
  lemma ListingReads(k: Bytes)
    ensures var s := if k != [] && k[0] == 1 then k[1..] else k;
      var a := if |s| < 8 then |s| else 8;
      var b := if |s| < 28 then |s| else 28;
      var c := if |s| < 60 then |s| else 60;
      DecodeListedKey(k) == if BigEndianToUint64(s[..a]).None? then None
                            else Some(Listed(BigEndianToUint64(s[..a]).value, Pair(s[a..b], s[b..c])))
  {
    hide BigEndianToUint64;
    assert [BY_HEIGHT] <= k <==> k != [] && k[0] == 1;
    var s := if k != [] && k[0] == 1 then k[1..] else k;
    assert s == TrimPrefix(k, [BY_HEIGHT]);
    assert Next(s, 8) == s[..if |s| < 8 then |s| else 8];
    if |s| >= 8 {
      var t := s[8..];
      assert Next(t, 20) == s[8..if |s| < 28 then |s| else 28];
      assert Next(Rest(t, 20), 32) == s[if |s| < 28 then |s| else 28..if |s| < 60 then |s| else 60];
    } else {
      assert s[..|s|] == s && s[|s|..|s|] == [];
      assert TakePair(Rest(s, 8)) == Pair([], []);
    }
  }

  // ---- Entries ----

  /** The height a pair's by-signer entry gives. */
  lemma StoredHeightLayout(store: Store, p: Pair)
    ensures var k := [2] + p.signer + p.contract;
      HeightStored(store, p) == if k in store then BigEndianToUint64(store[k]) else Some(0)
  {
    hide BigEndianToUint64;
    KeyLayout(0, p);
  }

  /** Adding a call writes its height and its body, and touches no other key. */
  lemma PlaceLayout(l: Ledger, p: Pair, body: Body, h: uint64)
    ensures Place(l, p, body, h).store
         == l.store[[2] + p.signer + p.contract := Uint64ToBigEndian(h)]
                   [[1] + Uint64ToBigEndian(h) + p.signer + p.contract := EncodeCall(ScheduledCall(body))]
    ensures Place(l, p, body, h).bank == l.bank
  {
    hide EncodeCall;
    KeyLayout(h, p);
  }

  /** Removing a call deletes its two keys, and touches no other. */
  lemma DropLayout(l: Ledger, p: Pair, h: uint64)
    ensures Drop(l, p, h).store
         == l.store - {[2] + p.signer + p.contract, [1] + Uint64ToBigEndian(h) + p.signer + p.contract}
    ensures Drop(l, p, h).bank == l.bank
  {
    KeyLayout(h, p);
  }

  /** Moving a call deletes the two old keys; as written, the two values then change places. */
  lemma MoveLayout(code: Code, l: Ledger, p: Pair, body: Body, was: uint64, h: uint64)
    ensures var cleared :=
        l.store - {[2] + p.signer + p.contract, [1] + Uint64ToBigEndian(was) + p.signer + p.contract};
      var value := EncodeCall(ScheduledCall(body));
      Move(code, l, p, body, was, h).store
      == if code.AsWritten?
         then cleared[[2] + p.signer + p.contract := value]
                     [[1] + Uint64ToBigEndian(h) + p.signer + p.contract := Uint64ToBigEndian(h)]
         else cleared[[2] + p.signer + p.contract := Uint64ToBigEndian(h)]
                     [[1] + Uint64ToBigEndian(h) + p.signer + p.contract := value]
    ensures Move(code, l, p, body, was, h).bank == l.bank
  {
    hide EncodeCall;
    KeyLayout(h, p);
    KeyLayout(was, p);
    FamiliesDisjoint(h, p, p);
    InsertOrder(Delete(l.store, p, was), HeightKey(h, p), HeightBytes(h), SignerKey(p), BodyBytes(body));
  }

  /** The two entries of one well-placed pending call, byte by byte. */
  predicate BothEntries(store: Store, p: Pair, h: uint64, body: Body)
  {
    var signerKey, heightKey := [2] + p.signer + p.contract, [1] + Uint64ToBigEndian(h) + p.signer + p.contract;
    && |p.signer| == 20
    && signerKey in store && store[signerKey] == Uint64ToBigEndian(h)
    && heightKey in store && store[heightKey] == EncodeCall(ScheduledCall(body))
  }

  /** One of the two keys of some pending call, byte by byte. */
  ghost predicate OneOfTheKeys(m: Pending, k: Bytes)
  {
    exists p :: p in m && KeyOf(m[p].height, p, k)
  }

  predicate KeyOf(h: uint64, p: Pair, k: Bytes)
  {
    k == [2] + p.signer + p.contract || k == [1] + Uint64ToBigEndian(h) + p.signer + p.contract
  }

  lemma EntriesAre(store: Store, p: Pair, e: Entry)
    requires !e.swapped
    ensures HoldsBoth(store, p, e) <==> BothEntries(store, p, e.height, e.body)
  {
    hide EncodeCall, SignerKey, HeightKey;
    KeyLayout(e.height, p);
  }

  lemma OwnedAre(m: Pending, k: Bytes)
    ensures Owned(m, k) <==> OneOfTheKeys(m, k)
  {
    hide SignerKey, HeightKey, KeyOf;
    forall p | p in m ensures KeyOf(m[p].height, p, k) <==> k == SignerKey(p) || k == HeightKey(m[p].height, p) {
      KeyOfIs(m[p].height, p, k);
    }
  }

  lemma KeyOfIs(h: uint64, p: Pair, k: Bytes)
    ensures KeyOf(h, p, k) <==> k == SignerKey(p) || k == HeightKey(h, p)
  {
    hide SignerKey, HeightKey;
    KeyLayout(h, p);
  }

  /** A store stands for well-placed calls exactly when it holds their entries, byte by byte, and no other key. */
  lemma RepresentsLayout(store: Store, m: Pending)
    requires Clean(m)
    ensures Represents(store, m) <==>
              && (forall p :: p in m ==> BothEntries(store, p, m[p].height, m[p].body))
              && (forall k :: k in store ==> OneOfTheKeys(m, k))
  {
    hide HoldsBoth, BothEntries, Owned, OneOfTheKeys;
    forall p | p in m ensures HoldsBoth(store, p, m[p]) <==> BothEntries(store, p, m[p].height, m[p].body) {
      EntriesAre(store, p, m[p]);
    }
    forall k ensures Owned(m, k) <==> OneOfTheKeys(m, k) {
      OwnedAre(m, k);
    }
  }

  /** What an iterator makes of a stored value: the body it decodes to, or a panic exactly when it does not. */
  lemma BodyReading(value: Slice)
    ensures ReadBody(value).None? <==> DecodeCall(value).Err?
    ensures ReadBody(value).Some? ==> ReadBody(value).value == DecodeCall(value).value.callBody
  {
  }

  /** A body as it is stored: behind 0x0a and its length, or nothing at all when it is empty. */
  lemma BodyLayout(body: Body)
    ensures EncodeCall(ScheduledCall(body)) == if body == [] then [] else [0x0a] + EncodeVarint(|body|) + body
  {
    CallLayout(ScheduledCall(body));
  }
}
