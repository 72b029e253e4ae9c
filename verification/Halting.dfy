/**
  What the code as written does to the chain. Over messages from plain pairs and heights below
  2^56, a by-height value is undecodable exactly when the last write under its key was made by
  ReScheduleCall, and a block halts exactly when such a value stands at its height or some
  contract makes its callback panic.
 */
module Halting {
  import opened Machine
  import opened Messages
  import opened Keys
  import opened Index
  import opened Scheduler
  import opened Runs
  import opened Theorems
  import opened Cursor
  import opened Chain
  import Panics
  import Refinement

  // ---- The last write under a key ----

  /** Whether the last entry placed for `tail` at `h` was a moved one. */
  function Last(placed: seq<Placement>, tail: Bytes, h: nat): Option<bool>
  {
    if placed == [] then None
    else
      var x := placed[|placed| - 1];
      if x.tail == tail && x.height == h then Some(x.moved) else Last(placed[..|placed| - 1], tail, h)
  }

  lemma LastExtend(placed: seq<Placement>, x: Placement, tail: Bytes, h: nat)
    ensures Last(placed + [x], tail, h)
         == if x.tail == tail && x.height == h then Some(x.moved) else Last(placed, tail, h)
  {
    assert (placed + [x])[..|placed|] == placed;
  }

  /** Heights are placed above the block that places them, so never at zero. */
  predicate AboveZero(placed: seq<Placement>)
  {
    forall x :: x in placed ==> x.height > 0
  }

  lemma {:induction false} NothingAtZero(placed: seq<Placement>, tail: Bytes)
    requires AboveZero(placed)
    ensures Last(placed, tail, 0) == None
  {
    if placed != [] {
      assert placed[|placed| - 1] in placed;
      NothingAtZero(placed[..|placed| - 1], tail);
    }
  }

  // ---- Plain tails ----

  /** What two standard addresses join to, when the signer does not begin with 01 00. */
  predicate PlainTail(t: Bytes)
  {
    20 <= |t| <= 52 && t[..2] != [1, 0]
  }

  lemma PlainPair(p: Pair)
    requires Plain(p)
    ensures PlainTail(Tail(p))
  {
    assert Tail(p)[..2] == p.signer[..2];
  }

  /** A visit below height 2^56 reads a pair with exactly the key's bytes. */
  lemma PlainReads(h: uint64, t: Bytes)
    requires PlainTail(t) && h < TWO56
    ensures Tail(DecodeDueKey(h, t)) == t
  {
    Pow256Of8();
    TopByte(h, 8);
    assert HeightPrefix(h)[..2] == [1, 0];
    assert t[..2] == t[..9][..2];
    assert Tail(TakePair(t)) == t;
  }

  lemma HeightKeysApart(h: uint64, t: Bytes, h': uint64, t': Bytes)
    ensures HeightPrefix(h) + t == HeightPrefix(h') + t' ==> h == h' && t == t'
    ensures HeightPrefix(h) + t != [BY_SIGNER] + t'
  {
    assert (HeightPrefix(h) + t)[0] == BY_HEIGHT && ([BY_SIGNER] + t')[0] == BY_SIGNER;
    if HeightPrefix(h) + t == HeightPrefix(h') + t' {
      assert Uint64ToBigEndian(h) == (HeightPrefix(h) + t)[1..9] == Uint64ToBigEndian(h');
      assert t == (HeightPrefix(h) + t)[9..] == t';
      HeightInjective(h, h');
    }
  }

  lemma SignerKeysApart(t: Bytes, t': Bytes)
    ensures [BY_SIGNER] + t == [BY_SIGNER] + t' ==> t == t'
  {
    assert t == ([BY_SIGNER] + t)[1..] && t' == ([BY_SIGNER] + t')[1..];
  }

  // ---- The invariant ----

  /** Under one by-height key: the value is undecodable exactly when the last write there moved the entry. */
  predicate EntryKept(l: Ledger, h: uint64, t: Bytes)
  {
    var k := HeightPrefix(h) + t;
    && (k in l.store ==> PlainTail(t))
    && (k in l.store && h < TWO56 ==>
          Last(l.placed, t, h).Some? && (ReadBody(l.store[k]).None? <==> Last(l.placed, t, h) == Some(true)))
    && (h < TWO56 && Last(l.placed, t, h) == Some(true) ==> k in l.store)
  }

  /** A height below 2^56 read from a by-signer entry never leads to a moved entry. */
  predicate SignerKept(l: Ledger, t: Bytes)
  {
    var k := [BY_SIGNER] + t;
    k in l.store && BigEndianToUint64(l.store[k]).Some? ==>
      var h := BigEndianToUint64(l.store[k]).value;
      0 < h < TWO56 ==> Last(l.placed, t, h) == Some(false)
  }

  ghost predicate Kept(l: Ledger)
  {
    && (forall h: uint64, t: Bytes :: EntryKept(l, h, t))
    && (forall t: Bytes :: SignerKept(l, t))
    && AboveZero(l.placed)
  }

  lemma EmptyKept(bank: Bank)
    ensures Kept(Ledger(map[], bank, []))
  {
  }

  // ---- The three changes of the store ----

  lemma PlaceEntry(l: Ledger, p: Pair, body: Body, h: uint64, h': uint64, t: Bytes)
    requires EntryKept(l, h', t) && PlainTail(Tail(p))
    ensures EntryKept(Place(l, p, body, h), h', t)
  {
    hide ReadBody, HeightPrefix, PlainTail;
    LastExtend(l.placed, Placement(Tail(p), h, false), t, h');
    HeightKeysApart(h', t, h, Tail(p));
    HeightKeysApart(h', t, h, Tail(p));
    BodyIsRead(body);
  }

  lemma BodyIsRead(body: Body)
    ensures ReadBody(BodyBytes(body)) == Some(body)
  {
    BodyBytesRoundTrip(body);
  }

  lemma PlaceSigner(l: Ledger, p: Pair, body: Body, h: uint64, t: Bytes)
    requires SignerKept(l, t)
    ensures SignerKept(Place(l, p, body, h), t)
  {
    hide BodyBytes, HeightPrefix, BigEndianToUint64;
    HeightKeysApart(h, Tail(p), h, t);
    SignerKeysApart(t, Tail(p));
    HeightRoundTrip(h);
    forall x: nat ensures Last(l.placed + [Placement(Tail(p), h, false)], t, x)
                       == if Tail(p) == t && h == x then Some(false) else Last(l.placed, t, x) {
      LastExtend(l.placed, Placement(Tail(p), h, false), t, x);
    }
  }

  lemma PlaceKeeps(l: Ledger, p: Pair, body: Body, h: uint64)
    requires Kept(l) && PlainTail(Tail(p)) && h > 0
    ensures Kept(Place(l, p, body, h))
  {
    hide EntryKept, SignerKept, PlainTail, Insert;
    forall h': uint64, t: Bytes ensures EntryKept(Place(l, p, body, h), h', t) {
      PlaceEntry(l, p, body, h, h', t);
    }
    forall t: Bytes ensures SignerKept(Place(l, p, body, h), t) {
      PlaceSigner(l, p, body, h, t);
    }
  }

  /** Deleting is harmless unless it hits a moved entry. */
  lemma DropKeeps(l: Ledger, p: Pair, h: uint64)
    requires Kept(l) && (h < TWO56 ==> Last(l.placed, Tail(p), h) != Some(true))
    ensures Kept(Drop(l, p, h))
  {
    hide ReadBody, PlainTail, BigEndianToUint64, HeightPrefix;
    forall h': uint64, t: Bytes ensures EntryKept(Drop(l, p, h), h', t) {
      assert EntryKept(l, h', t);
      HeightKeysApart(h', t, h, Tail(p));
    }
    forall t: Bytes ensures SignerKept(Drop(l, p, h), t) {
      assert SignerKept(l, t);
    }
  }

  lemma MoveEntry(l: Ledger, p: Pair, body: Body, was: uint64, h: uint64, h': uint64, t: Bytes)
    requires EntryKept(Drop(l, p, was), h', t) && PlainTail(Tail(p))
    ensures EntryKept(Move(AsWritten, l, p, body, was, h), h', t)
  {
    hide ReadBody, HeightPrefix, PlainTail, BodyBytes, HeightBytes, Delete;
    LastExtend(l.placed, Placement(Tail(p), h, true), t, h');
    HeightKeysApart(h', t, h, Tail(p));
    if h < TWO56 { MovedIsUnread(h); }
  }

  lemma MovedIsUnread(h: uint64)
    requires h < TWO56
    ensures ReadBody(HeightBytes(h)).None?
  {
    hide DecodeCall;
    SwappedRejected(h);
  }

  lemma MoveSigner(l: Ledger, p: Pair, body: Body, was: uint64, h: uint64, t: Bytes)
    requires SignerKept(Drop(l, p, was), t)
    ensures SignerKept(Move(AsWritten, l, p, body, was, h), t)
  {
    hide BodyBytes, HeightBytes, HeightPrefix, BigEndianToUint64, Delete;
    HeightKeysApart(h, Tail(p), h, t);
    SignerKeysApart(t, Tail(p));
    SwappedHeightUnreadable(body);
    forall x: nat ensures Last(l.placed + [Placement(Tail(p), h, true)], t, x)
                       == if Tail(p) == t && h == x then Some(true) else Last(l.placed, t, x) {
      LastExtend(l.placed, Placement(Tail(p), h, true), t, x);
    }
  }

  lemma MoveKeeps(code: Code, l: Ledger, p: Pair, body: Body, was: uint64, h: uint64)
    requires Kept(l) && PlainTail(Tail(p)) && h > 0
    requires was < TWO56 ==> Last(l.placed, Tail(p), was) != Some(true)
    ensures Kept(Move(code, l, p, body, was, h))
  {
    DropKeeps(l, p, was);
    if code.Intended? {
      PlaceKeeps(Drop(l, p, was), p, body, h);
    } else {
      hide EntryKept, SignerKept, PlainTail, RescheduledAsWritten;
      forall h': uint64, t: Bytes ensures EntryKept(Move(code, l, p, body, was, h), h', t) {
        MoveEntry(l, p, body, was, h, h', t);
      }
      forall t: Bytes ensures SignerKept(Move(code, l, p, body, was, h), t) {
        MoveSigner(l, p, body, was, h, t);
      }
    }
  }

  // ---- Steps keep the invariant ----

  /** The height read back for a pair never leads to a moved entry of that pair. */
  lemma StoredIsSafe(l: Ledger, p: Pair)
    requires Kept(l) && HeightStored(l.store, p).Some?
    ensures HeightStored(l.store, p).value < TWO56 ==>
              Last(l.placed, Tail(p), HeightStored(l.store, p).value) != Some(true)
  {
    hide BigEndianToUint64, EntryKept;
    assert SignerKept(l, Tail(p));
    NothingAtZero(l.placed, Tail(p));
  }

  lemma AddKeepsLedger(code: Code, params: Params, height: uint64, l: Ledger, msg: AddMsg)
    requires Kept(l) && PlainEvent(Add(msg))
    ensures Kept(AfterAdd(code, params, height, l, msg))
  {
    hide Kept, HeightStored, PlainTail;
    if AnswerAdd(params, height, l, msg).Accept? {
      var p := Pair(msg.signer.value, msg.contract.value);
      PlainPair(p);
      StoredIsSafe(l, p);
      if HeightStored(l.store, p).value != 0 {
        MoveKeeps(code, l, p, msg.body, HeightStored(l.store, p).value, msg.height);
      } else {
        PlaceKeeps(l, p, msg.body, msg.height);
      }
    }
  }

  lemma RemoveKeepsLedger(l: Ledger, msg: RemoveMsg)
    requires Kept(l)
    ensures Kept(AfterRemove(l, msg))
  {
    hide Kept, HeightStored;
    if AnswerRemove(l, msg).Accept? {
      var p := Pair(msg.signer.value, msg.contract.value);
      StoredIsSafe(l, p);
      DropKeeps(l, p, HeightStored(l.store, p).value);
    }
  }

  /** A visit places at most one fresh entry, for the pair it read, above the current height. */
  predicate PlacesFreshAbove(l: Ledger, l': Ledger, t: Bytes, height: nat)
  {
    l'.placed == l.placed ||
    (|l'.placed| == |l.placed| + 1 && l.placed == l'.placed[..|l.placed|]
     && l'.placed[|l.placed|].tail == t && !l'.placed[|l.placed|].moved && l'.placed[|l.placed|].height > height)
  }

  lemma ReactKeeps(l: Ledger, params: Params, height: uint64, p: Pair, body: Body, reply: Reply)
    requires Kept(l) && PlainTail(Tail(p)) && React(l, params, height, p, body, reply).Done?
    ensures Kept(React(l, params, height, p, body, reply).value)
    ensures PlacesFreshAbove(l, React(l, params, height, p, body, reply).value, Tail(p), height)
  {
    hide Kept, PlainTail, Callback, Insert;
    var w := Callback(World(map[], l.bank, []), params, height, p, body, reply).value;
    KeptForAnyBank(l, w.bank);
    if p in w.pending {
      InWindowExact(height, params.upperBound, w.pending[p].height);
      PlaceKeeps(l.(bank := w.bank), p, body, w.pending[p].height);
    }
  }

  lemma KeptForAnyBank(l: Ledger, bank: Bank)
    requires Kept(l)
    ensures Kept(l.(bank := bank))
  {
    hide ReadBody, PlainTail, BigEndianToUint64, HeightPrefix;
    var l' := l.(bank := bank);
    forall h: uint64, t: Bytes ensures EntryKept(l', h, t) {
      assert EntryKept(l, h, t);
    }
    forall t: Bytes ensures SignerKept(l', t) {
      assert SignerKept(l, t);
    }
  }

  lemma VisitKeeps(l: Ledger, params: Params, height: uint64, key: Bytes, reply: Reply)
    requires Kept(l) && height < TWO56 && HeightPrefix(height) + key in l.store
    requires Visit(l, params, height, key, reply).Done?
    ensures Kept(Visit(l, params, height, key, reply).value)
    ensures PlacesFreshAbove(l, Visit(l, params, height, key, reply).value, key, height)
  {
    hide React, ReadBody, PlainTail, DecodeDueKey, HeightPrefix, SignerKept;
    var p := DecodeDueKey(height, key);
    assert EntryKept(l, height, key);
    PlainReads(height, key);
    DropKeeps(l, p, height);
    ReactKeeps(Drop(l, p, height), params, height, p, ReadBody(l.store[HeightPrefix(height) + key]).value, reply);
  }

  /** Fresh placements above a height neither make nor unmake a moved entry at it or below. */
  lemma FreshAboveKeepsLast(l: Ledger, l': Ledger, t: Bytes, height: nat, t': Bytes, h: nat)
    requires PlacesFreshAbove(l, l', t, height)
    ensures h <= height ==> Last(l'.placed, t', h) == Last(l.placed, t', h)
    ensures Last(l'.placed, t', h) == Some(true) ==> Last(l.placed, t', h) == Some(true)
  {
    if l'.placed != l.placed {
      assert l'.placed == l.placed + [l'.placed[|l.placed|]];
      LastExtend(l.placed, l'.placed[|l.placed|], t', h);
    }
  }

  /** An iteration keeps the invariant, only extends the record, and makes no moved entry. */
  lemma {:induction false} IterateKeeps(l: Ledger, params: Params, height: uint64, env: Environment,
                                        after: Option<Bytes>)
    requires Kept(l) && height < TWO56 && Iterate(l, params, height, env, after).Done?
    ensures var l' := Iterate(l, params, height, env, after).value;
      && Kept(l') && l.placed <= l'.placed
      && forall t: Bytes, h: nat :: Last(l'.placed, t, h) == Some(true) ==> Last(l.placed, t, h) == Some(true)
    decreases |KeysUnder(l.store, HeightPrefix(height), after)|
  {
    hide Kept, Visit, HeightPrefix, KeysUnder;
    var r := FirstAfter(l.store, HeightPrefix(height), after);
    if r.Some? {
      var key := r.value;
      var l1 := Visit(l, params, height, key, env(key)).value;
      VisitKeeps(l, params, height, key, env(key));
      VisitAdvances(l, params, height, after, key, env(key));
      IterateKeeps(l1, params, height, env, Some(key));
      forall t: Bytes, h: nat | Last(l1.placed, t, h) == Some(true) ensures Last(l.placed, t, h) == Some(true) {
        FreshAboveKeepsLast(l, l1, key, height, t, h);
      }
    }
  }

  // ---- When a block halts ----

  /** A moved entry at the block's height makes the iteration panic, whatever the contracts answer. */
  lemma {:induction false} MovedHalts(l: Ledger, params: Params, height: uint64, env: Environment,
                                      after: Option<Bytes>, t: Bytes)
    requires Kept(l) && height < TWO56 && Last(l.placed, t, height) == Some(true) && Follows(after, t)
    ensures Iterate(l, params, height, env, after).Panic?
    decreases |KeysUnder(l.store, HeightPrefix(height), after)|
  {
    hide React, HeightPrefix, KeysUnder, ReadBody, SignerKept;
    assert EntryKept(l, height, t);
    var key := FirstAfter(l.store, HeightPrefix(height), after).value;
    VisitNeverGarbled(l, params, height, key, env(key));
    if Visit(l, params, height, key, env(key)).Done? {
      var l1 := Visit(l, params, height, key, env(key)).value;
      assert key != t;
      VisitKeeps(l, params, height, key, env(key));
      VisitAdvances(l, params, height, after, key, env(key));
      FreshAboveKeepsLast(l, l1, key, height, t, height);
      MovedHalts(l1, params, height, env, Some(key), t);
    }
  }

  lemma VisitCompletes(l: Ledger, params: Params, height: uint64, key: Bytes, reply: Reply)
    requires Kept(l) && height < TWO56 && HeightPrefix(height) + key in l.store
    requires Last(l.placed, key, height) != Some(true) && Bounded(l.bank) && Benign(reply)
    ensures Visit(l, params, height, key, reply).Done?
    ensures Bounded(Visit(l, params, height, key, reply).value.bank)
  {
    hide ReadBody, PlainTail, DecodeDueKey, HeightPrefix, SignerKept, Callback;
    assert EntryKept(l, height, key);
    var p := DecodeDueKey(height, key);
    var body := ReadBody(l.store[HeightPrefix(height) + key]).value;
    var w := World(map[], l.bank, []);
    CallbackPanicsIff(w, params, height, p, body, reply);
    ChargedExactly(w, params, height, p, body, reply);
  }

  lemma {:induction false} NoneMovedCompletes(l: Ledger, params: Params, height: uint64, env: Environment,
                                              after: Option<Bytes>)
    requires Kept(l) && height < TWO56 && Bounded(l.bank) && BenignAnswers(env)
    requires forall t: Bytes :: Last(l.placed, t, height) != Some(true)
    ensures Iterate(l, params, height, env, after).Done?
    ensures Bounded(Iterate(l, params, height, env, after).value.bank)
    decreases |KeysUnder(l.store, HeightPrefix(height), after)|
  {
    hide Visit, Kept, HeightPrefix, KeysUnder, Bounded, Benign;
    var r := FirstAfter(l.store, HeightPrefix(height), after);
    if r.Some? {
      var key := r.value;
      VisitCompletes(l, params, height, key, env(key));
      var l1 := Visit(l, params, height, key, env(key)).value;
      VisitKeeps(l, params, height, key, env(key));
      VisitAdvances(l, params, height, after, key, env(key));
      forall t: Bytes ensures Last(l1.placed, t, height) != Some(true) {
        FreshAboveKeepsLast(l, l1, key, height, t, height);
      }
      NoneMovedCompletes(l1, params, height, env, Some(key));
    }
  }

  /**
    With benign answers, a block halts the chain exactly when the last write at its height,
    for some pair, moved the entry there.
   */
  lemma BlockHaltsIff(code: Code, params: Params, b: Block, env: Environment)
    requires Kept(b.ledger) && b.height < TWO56 && Bounded(b.ledger.bank) && BenignAnswers(env)
    ensures Step(code, params, b, EndBlock(env)).Panic?
       <==> exists t: Bytes :: Last(b.ledger.placed, t, b.height) == Some(true)
    ensures Step(code, params, b, EndBlock(env)).Done? <==> !Step(code, params, b, EndBlock(env)).Panic?
  {
    hide Kept, Bounded, BenignAnswers, Iterate;
    if t: Bytes :| Last(b.ledger.placed, t, b.height) == Some(true) {
      MovedHalts(b.ledger, params, b.height, env, None, t);
    } else {
      NoneMovedCompletes(b.ledger, params, b.height, env, None);
    }
  }

  // ---- Runs ----

  lemma StepKeeps(code: Code, params: Params, b: Block, event: Event)
    requires Kept(b.ledger) && b.height < TWO56 && PlainEvent(event) && Step(code, params, b, event).Done?
    ensures Kept(Step(code, params, b, event).value.ledger)
    ensures b.ledger.placed <= Step(code, params, b, event).value.ledger.placed
  {
    hide Kept, Iterate, AnswerAdd, AnswerRemove;
    match event
    case Add(msg) => AddKeepsLedger(code, params, b.height, b.ledger, msg);
    case Remove(msg) => RemoveKeepsLedger(b.ledger, msg);
    case External(bank) => KeptForAnyBank(b.ledger, bank);
    case EndBlock(env) => IterateKeeps(b.ledger, params, b.height, env, None);
  }

  lemma {:induction false} StepsKeep(code: Code, params: Params, b: Block, events: seq<Event>)
    requires Kept(b.ledger) && b.height + |events| <= TWO56 && Steps(code, params, b, events).Done?
    requires forall e :: e in events ==> PlainEvent(e)
    ensures Kept(Steps(code, params, b, events).value.ledger)
    ensures b.ledger.placed <= Steps(code, params, b, events).value.ledger.placed
    decreases |events|
  {
    hide Kept, Step, PlainEvent;
    if events != [] {
      assert PlainEvent(events[0]);
      StepKeeps(code, params, b, events[0]);
      StepsKeep(code, params, Step(code, params, b, events[0]).value, events[1..]);
    }
  }

  /**
    In every state either version of the code reaches from an empty store, over plain pairs: an
    entry below height 2^56 is undecodable exactly when ReScheduleCall, as written, made the
    last write under its key.
   */
  lemma UndecodableIffMoved(code: Code, params: Params, bank: Bank, height: nat, events: seq<Event>, h: uint64, p: Pair)
    requires height + |events| <= TWO56 && h < TWO56
    requires forall e :: e in events ==> PlainEvent(e)
    requires Steps(code, params, Block(height, Ledger(map[], bank, [])), events).Done?
    ensures var l := Steps(code, params, Block(height, Ledger(map[], bank, [])), events).value.ledger;
      (HeightKey(h, p) in l.store && ReadBody(l.store[HeightKey(h, p)]).None?)
      <==> Last(l.placed, Tail(p), h) == Some(true)
  {
    hide Steps, SignerKept, ReadBody, HeightPrefix, PlainEvent, PlainTail;
    EmptyKept(bank);
    StepsKeep(code, params, Block(height, Ledger(map[], bank, [])), events);
    var l := Steps(code, params, Block(height, Ledger(map[], bank, [])), events).value.ledger;
    assert EntryKept(l, h, Tail(p));
  }

  lemma {:induction false} StepsHeight(code: Code, params: Params, b: Block, events: seq<Event>)
    requires b.height + |events| < TWO63 && Steps(code, params, b, events).Done?
    ensures Steps(code, params, b, events).value.height <= b.height + |events|
    decreases |events|
  {
    hide AfterAdd, AfterRemove, Iterate;
    if events != [] {
      StepsHeight(code, params, Step(code, params, b, events[0]).value, events[1..]);
    }
  }

  /** A later fresh write for `t` at `h` in the record. */
  ghost predicate PlacedAfresh(before: seq<Placement>, after: seq<Placement>, t: Bytes, h: uint64)
  {
    exists i :: |before| <= i < |after| && after[i] == Placement(t, h, false)
  }

  lemma {:induction false} UnmovedBy(before: seq<Placement>, after: seq<Placement>, t: Bytes, h: uint64)
    requires before <= after && Last(before, t, h) == Some(true) && Last(after, t, h) != Some(true)
    ensures PlacedAfresh(before, after, t, h)
    decreases |after|
  {
    assert after[..|after|] == after && before == after[..|before|];
    var n := |after| - 1;
    var x := after[n];
    assert after[..n][..|before|] == before;
    if x.tail == t && x.height == h {
      assert after[n] == Placement(t, h, false);
    } else {
      UnmovedBy(before, after[..n], t, h);
      var i :| |before| <= i < n && after[..n][i] == Placement(t, h, false);
      assert after[i] == Placement(t, h, false);
    }
  }

  /** A run gets past the height of a moved entry only if a fresh entry was written under the same key meanwhile. */
  lemma {:induction false} PastMovedOnlyIfRescued(code: Code, params: Params, b: Block, events: seq<Event>,
                                                  t: Bytes, h: uint64)
    requires Kept(b.ledger) && b.height + |events| <= TWO56 && b.height <= h < TWO56
    requires forall e :: e in events ==> PlainEvent(e)
    requires Last(b.ledger.placed, t, h) == Some(true)
    requires Steps(code, params, b, events).Done? && Steps(code, params, b, events).value.height > h
    ensures PlacedAfresh(b.ledger.placed, Steps(code, params, b, events).value.ledger.placed, t, h)
    decreases |events|
  {
    hide Kept, Step, PlainEvent, PlacedAfresh;
    var b1 := Step(code, params, b, events[0]).value;
    var b' := Steps(code, params, b, events).value;
    assert PlainEvent(events[0]);
    StepKeeps(code, params, b, events[0]);
    StepsKeep(code, params, b1, events[1..]);
    if Last(b1.ledger.placed, t, h) == Some(true) {
      StepStopsAtMoved(code, params, b, events[0], t, h);
      PastMovedOnlyIfRescued(code, params, b1, events[1..], t, h);
      LaterToo(b.ledger.placed, b1.ledger.placed, b'.ledger.placed, t, h);
    } else {
      UnmovedBy(b.ledger.placed, b1.ledger.placed, t, h);
      StillThere(b.ledger.placed, b1.ledger.placed, b'.ledger.placed, t, h);
    }
  }

  lemma StepStopsAtMoved(code: Code, params: Params, b: Block, event: Event, t: Bytes, h: uint64)
    requires Kept(b.ledger) && b.height <= h < TWO56 && Last(b.ledger.placed, t, h) == Some(true)
    requires Step(code, params, b, event).Done?
    ensures Step(code, params, b, event).value.height <= h
  {
    hide Kept, Iterate, AfterAdd, AfterRemove;
    if event.EndBlock? && b.height == h {
      MovedHalts(b.ledger, params, b.height, event.env, None, t);
    }
  }

  lemma LaterToo(a: seq<Placement>, b: seq<Placement>, c: seq<Placement>, t: Bytes, h: uint64)
    requires a <= b <= c && PlacedAfresh(b, c, t, h)
    ensures PlacedAfresh(a, c, t, h)
  {
    var i :| |b| <= i < |c| && c[i] == Placement(t, h, false);
    assert |a| <= i;
  }

  lemma StillThere(a: seq<Placement>, b: seq<Placement>, c: seq<Placement>, t: Bytes, h: uint64)
    requires a <= b <= c && PlacedAfresh(a, b, t, h)
    ensures PlacedAfresh(a, c, t, h)
  {
    var i :| |a| <= i < |b| && b[i] == Placement(t, h, false);
    assert c[i] == Placement(t, h, false);
  }

  /** Which write an accepted message makes: a moved one exactly when it reads a height other than zero. */
  lemma AddPlaces(code: Code, params: Params, height: uint64, l: Ledger, msg: AddMsg)
    requires AnswerAdd(params, height, l, msg).Accept?
    ensures var p := Pair(msg.signer.value, msg.contract.value);
      AfterAdd(code, params, height, l, msg).placed
      == l.placed + [Placement(Tail(p), msg.height, code.AsWritten? && HeightStored(l.store, p) != Some(0))]
  {
    hide HeightStored;
  }

  /** Which visits write a fresh entry at `h`: exactly those of calls that succeed and name `h`, inside the window. */
  lemma VisitPlacesIff(l: Ledger, params: Params, height: uint64, key: Bytes, reply: Reply, h: uint64)
    requires HeightPrefix(height) + key in l.store && Visit(l, params, height, key, reply).Done?
    ensures var p := DecodeDueKey(height, key);
      var l' := Visit(l, params, height, key, reply).value;
      var w := World(map[], l.bank, []);
      l'.placed == l.placed + [Placement(Tail(p), h, false)] <==>
        && MayRun(w, params, p, reply)
        && reply.exec.gas <= Balance(l.bank, p.contract) && !reply.exec.failed
        && Balance(l'.bank, p.contract) >= params.minimumBalance
        && |reply.exec.result| >= 8 && h == FromBigEndian(reply.exec.result[..8])
        && height < h <= height + params.upperBound && height + params.upperBound < TWO64
  {
    hide Callback, DecodeDueKey, ReadBody, Insert, Delete, MayRun, FromBigEndian;
    var p := DecodeDueKey(height, key);
    var body := ReadBody(l.store[HeightPrefix(height) + key]).value;
    var w := World(map[], l.bank, []);
    RequeuedIff(w, params, height, p, body, reply);
    var l' := Visit(l, params, height, key, reply).value;
    assert l'.placed == l.placed ==> |l'.placed| != |l.placed| + 1;
    var w' := Callback(w, params, height, p, body, reply).value;
    if p in w'.pending {
      assert l'.placed[|l.placed|] == Placement(Tail(p), w'.pending[p].height, false);
    }
  }

  /**
    As written, re-adding a pair whose stored height is not zero puts an undecodable entry at
    the new height, and the chain gets past that height only if a fresh entry is written under
    the same key meanwhile: by a message that reads stored height zero (AddPlaces) or by a call
    of the same pair that schedules itself there (VisitPlacesIff).
   */
  lemma ReAddHaltsAsWritten(params: Params, b: Block, msg: AddMsg, events: seq<Event>)
    requires Kept(b.ledger) && b.height + |events| <= TWO56 && PlainEvent(Add(msg)) && msg.height < TWO56
    requires forall e :: e in events ==> PlainEvent(e)
    requires AnswerAdd(params, b.height, b.ledger, msg).Accept?
    requires HeightStored(b.ledger.store, Pair(msg.signer.value, msg.contract.value)) != Some(0)
    ensures var p := Pair(msg.signer.value, msg.contract.value);
      var b1 := Block(b.height, AfterAdd(AsWritten, params, b.height, b.ledger, msg));
      var r := Steps(AsWritten, params, b1, events);
      && HeightKey(msg.height, p) in b1.ledger.store
      && ReadBody(b1.ledger.store[HeightKey(msg.height, p)]).None?
      && (r.Done? && r.value.height > msg.height ==>
            PlacedAfresh(b1.ledger.placed, r.value.ledger.placed, Tail(p), msg.height))
  {
    hide Steps, HeightStored, PlainEvent, PlacedAfresh, ReadBody, HeightPrefix, PlainTail, SignerKept, AfterAdd;
    var p := Pair(msg.signer.value, msg.contract.value);
    var b1 := Block(b.height, AfterAdd(AsWritten, params, b.height, b.ledger, msg));
    AddKeepsLedger(AsWritten, params, b.height, b.ledger, msg);
    AddPlaces(AsWritten, params, b.height, b.ledger, msg);
    LastExtend(b.ledger.placed, Placement(Tail(p), msg.height, true), Tail(p), msg.height);
    assert EntryKept(b1.ledger, msg.height, Tail(p));
    if Steps(AsWritten, params, b1, events).Done? && Steps(AsWritten, params, b1, events).value.height > msg.height {
      PastMovedOnlyIfRescued(AsWritten, params, b1, events, Tail(p), msg.height);
    }
  }

  // ---- When a run halts ----

  /** The block after `n` visits of its iteration: the next value does not decode only if it was moved there. */
  lemma {:induction false} UnreadableIsMoved(w: Panics.Walk, params: Params, height: uint64, env: Environment, n: nat)
    requires Kept(w.ledger) && height < TWO56 && Panics.UnreadableAfter(w, params, height, env, n)
    ensures exists t: Bytes :: Last(w.ledger.placed, t, height) == Some(true)
    decreases n
  {
    hide Visit, HeightPrefix, SignerKept, ReadBody;
    var key := FirstAfter(w.ledger.store, HeightPrefix(height), w.at).value;
    assert EntryKept(w.ledger, height, key);
    if n > 0 {
      var l := Visit(w.ledger, params, height, key, env(key)).value;
      VisitKeeps(w.ledger, params, height, key, env(key));
      UnreadableIsMoved(Panics.Walk(l, Some(key)), params, height, env, n - 1);
      var t: Bytes :| Last(l.placed, t, height) == Some(true);
      FreshAboveKeepsLast(w.ledger, l, key, height, t, height);
    }
  }

  ghost predicate MovedEntryDue(b: Block, event: Event)
  {
    event.EndBlock? && exists t: Bytes :: Last(b.ledger.placed, t, b.height) == Some(true)
  }

  /** In the block that ends, some visit is reached whose contract makes the callback panic. */
  ghost predicate ContractStops(params: Params, b: Block, event: Event)
    requires b.height < TWO63
  {
    && event.EndBlock?
    && exists n: nat :: Panics.ContractPanicsAfter(Panics.Walk(b.ledger, None), params, b.height, event.env, n)
  }

  lemma StuckIff(code: Code, params: Params, b: Block, event: Event)
    requires Kept(b.ledger) && b.height < TWO56
    ensures Panics.BlockHalts(params, b, event) <==> MovedEntryDue(b, event) || ContractStops(params, b, event)
  {
    hide Kept, Iterate, AfterAdd, AfterRemove, Panics.UnreadableAfter, Panics.ContractPanicsAfter;
    if event.EndBlock? {
      var w := Panics.Walk(b.ledger, None);
      Panics.IteratePanicsIff(w, params, b.height, event.env);
      if n: nat :| Panics.UnreadableAfter(w, params, b.height, event.env, n) {
        UnreadableIsMoved(w, params, b.height, event.env, n);
      }
      if t: Bytes :| Last(b.ledger.placed, t, b.height) == Some(true) {
        MovedHalts(b.ledger, params, b.height, event.env, None, t);
      }
    }
  }

  /**
    From an empty store, over messages from plain pairs and heights below 2^56, whatever the
    contracts answer: a run halts the chain exactly when it reaches the end of a block at whose
    height the last write for some pair was ReScheduleCall's as written, or in which some
    contract makes its callback panic. Any other run completes.
   */
  lemma StepsHaltIff(code: Code, params: Params, bank: Bank, height: nat, events: seq<Event>)
    requires height + |events| <= TWO56
    requires forall e :: e in events ==> PlainEvent(e)
    ensures var b := Block(height, Ledger(map[], bank, []));
      && !Steps(code, params, b, events).Garbled?
      && (Steps(code, params, b, events).Panic? <==>
            exists k: nat, b' :: Panics.ReachesAt(code, params, b, events, k, b')
                                 && (MovedEntryDue(b', events[k]) || ContractStops(params, b', events[k])))
  {
    hide Steps, Kept, PlainEvent, MovedEntryDue, ContractStops, Panics.BlockHalts;
    var b := Block(height, Ledger(map[], bank, []));
    Panics.StepsPanicIff(code, params, b, events);
    forall k: nat, b' | Panics.ReachesAt(code, params, b, events, k, b')
      ensures Panics.BlockHalts(params, b', events[k])
         <==> MovedEntryDue(b', events[k]) || ContractStops(params, b', events[k])
    {
      EmptyKept(bank);
      StepsKeep(code, params, b, events[..k]);
      StepsHeight(code, params, b, events[..k]);
      StuckIff(code, params, b', events[k]);
    }
    if k: nat :| Panics.HaltsAt(code, params, b, events, k) {
      var b' :| Panics.ReachesAt(code, params, b, events, k, b') && Panics.BlockHalts(params, b', events[k]);
      assert MovedEntryDue(b', events[k]) || ContractStops(params, b', events[k]);
    }
    if k: nat, b' :| Panics.ReachesAt(code, params, b, events, k, b')
                     && (MovedEntryDue(b', events[k]) || ContractStops(params, b', events[k])) {
      assert Panics.HaltsAt(code, params, b, events, k);
    }
  }

  /**
    In every state reached from an empty store, and whatever the contracts answer, the block
    halts exactly when, for some pair, the last write under its key at the block's height was
    made by ReScheduleCall as written, or some contract reached makes its callback panic; with
    benign answers none does.
   */
  lemma ReachedBlockHaltsIff(code: Code, params: Params, bank: Bank, height: nat, events: seq<Event>, env: Environment)
    requires height + |events| < TWO56
    requires forall e :: e in events ==> PlainEvent(e)
    requires Steps(code, params, Block(height, Ledger(map[], bank, [])), events).Done?
    ensures var b := Steps(code, params, Block(height, Ledger(map[], bank, [])), events).value;
      && b.height < TWO56
      && (Step(code, params, b, EndBlock(env)).Panic?
          <==> MovedEntryDue(b, EndBlock(env)) || ContractStops(params, b, EndBlock(env)))
      && (Bounded(b.ledger.bank) && BenignAnswers(env) && !MovedEntryDue(b, EndBlock(env)) ==>
            !ContractStops(params, b, EndBlock(env)))
  {
    hide Steps, Step, Kept, Bounded, BenignAnswers, PlainEvent, ContractStops, Panics.BlockHalts, Last;
    EmptyKept(bank);
    StepsKeep(code, params, Block(height, Ledger(map[], bank, [])), events);
    StepsHeight(code, params, Block(height, Ledger(map[], bank, [])), events);
    var b := Steps(code, params, Block(height, Ledger(map[], bank, [])), events).value;
    Panics.StepPanicsIff(code, params, b, EndBlock(env));
    StuckIff(code, params, b, EndBlock(env));
    if Bounded(b.ledger.bank) && BenignAnswers(env) {
      BlockHaltsIff(code, params, b, env);
    }
  }

  ghost predicate NoneMoved(placed: seq<Placement>)
  {
    forall t: Bytes, h: nat :: Last(placed, t, h) != Some(true)
  }

  lemma IntendedMovesNothing(params: Params, b: Block, event: Event)
    requires Kept(b.ledger) && b.height < TWO56 && NoneMoved(b.ledger.placed)
    requires Step(Intended, params, b, event).Done?
    ensures NoneMoved(Step(Intended, params, b, event).value.ledger.placed)
  {
    hide Kept, Iterate, AfterAdd, AddGuard, HeightStored, AnswerRemove;
    match event
    case Add(msg) =>
      var l := AfterAdd(Intended, params, b.height, b.ledger, msg);
      if AnswerAdd(params, b.height, b.ledger, msg).Accept? {
        AddPlaces(Intended, params, b.height, b.ledger, msg);
        var tail := Tail(Pair(msg.signer.value, msg.contract.value));
        forall t: Bytes, h: nat ensures Last(l.placed, t, h) != Some(true) {
          LastExtend(b.ledger.placed, Placement(tail, msg.height, false), t, h);
        }
      } else {
        Refused(Intended, params, b.height, b.ledger, msg);
      }
    case Remove(_) =>
    case External(_) =>
    case EndBlock(env) => IterateKeeps(b.ledger, params, b.height, env, None);
  }

  lemma Refused(code: Code, params: Params, height: uint64, l: Ledger, msg: AddMsg)
    requires !AnswerAdd(params, height, l, msg).Accept?
    ensures AfterAdd(code, params, height, l, msg) == l
  {
  }

  lemma {:induction false} IntendedNeverMoves(params: Params, b: Block, events: seq<Event>)
    requires Kept(b.ledger) && NoneMoved(b.ledger.placed) && b.height + |events| <= TWO56
    requires forall e :: e in events ==> PlainEvent(e)
    requires Steps(Intended, params, b, events).Done?
    ensures NoneMoved(Steps(Intended, params, b, events).value.ledger.placed)
    decreases |events|
  {
    hide Kept, NoneMoved, Step, PlainEvent;
    if events != [] {
      assert PlainEvent(events[0]);
      StepKeeps(Intended, params, b, events[0]);
      IntendedMovesNothing(params, b, events[0]);
      IntendedNeverMoves(params, Step(Intended, params, b, events[0]).value, events[1..]);
    }
  }

  /** Under the intended assignment only a contract can halt the chain. */
  lemma IntendedHaltsIff(params: Params, bank: Bank, height: nat, events: seq<Event>)
    requires height + |events| <= TWO56
    requires forall e :: e in events ==> PlainEvent(e)
    ensures var b := Block(height, Ledger(map[], bank, []));
      Steps(Intended, params, b, events).Panic? <==>
        exists k: nat, b' ::
          Panics.ReachesAt(Intended, params, b, events, k, b') && ContractStops(params, b', events[k])
  {
    hide Steps, Kept, PlainEvent, ContractStops;
    var b := Block(height, Ledger(map[], bank, []));
    StepsHaltIff(Intended, params, bank, height, events);
    EmptyKept(bank);
    forall k: nat, b' | Panics.ReachesAt(Intended, params, b, events, k, b')
      ensures !MovedEntryDue(b', events[k])
    {
      IntendedNeverMoves(params, b, events[..k]);
    }
  }

  // ---- The intended code, from an empty store ----

  /**
    Over messages from plain pairs and heights below 2^56 no run is garbled: it completes on the
    bytes exactly when it does on the map, and its store then stands for the pending calls.
   */
  lemma IntendedRefines(params: Params, bank: Bank, height: nat, events: seq<Event>)
    requires height + |events| <= TWO56
    requires forall e :: e in events ==> PlainEvent(e)
    ensures var x, y := Run(Intended, params, State(height, Genesis(bank)), events),
                        Steps(Intended, params, Block(height, Ledger(map[], bank, [])), events);
      && (x.Done? <==> y.Done?) && (x.Panic? <==> y.Panic?)
      && (x.Done? ==> Refinement.StandsFor(y.value, x.value))
  {
    hide Run, Steps, PlainEvent, Refinement.StandsFor;
    RunNeverGarbled(params, State(height, Genesis(bank)), events);
    Refinement.GenesisRefines(Intended, params, bank, height, events);
  }

  /** With benign answers as well, it always completes. */
  lemma IntendedCompletes(params: Params, bank: Bank, height: nat, events: seq<Event>)
    requires height + |events| <= TWO56 && Bounded(bank)
    requires forall e :: e in events ==> PlainEvent(e) && BenignEvent(e) && BenignBlock(e)
    ensures Steps(Intended, params, Block(height, Ledger(map[], bank, [])), events).Done?
  {
    hide Run, Steps, PlainEvent, BenignEvent, BenignBlock, Bounded, Refinement.StandsFor;
    RunCompletes(params, bank, height, events);
    IntendedRefines(params, bank, height, events);
  }
}
