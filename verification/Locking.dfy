/**
  What a re-add with a body of one to five bytes does for good: the pair can be neither read,
  replaced nor removed any more, so no run gets past the height it was moved to.
 */
module Locking {
  import opened Machine
  import opened Messages
  import opened Keys
  import opened Index
  import opened Scheduler
  import opened Theorems
  import opened Cursor
  import opened Chain
  import opened Refinement
  import opened Halting
  import opened Rescue

  /**
    The pair whose addresses join to `t` is locked at `h`: its stored height is unreadable, and
    its one by-height entry is the one ReScheduleCall moved there.
   */
  ghost predicate Locked(l: Ledger, t: Bytes, h: uint64)
  {
    && [BY_SIGNER] + t in l.store && BigEndianToUint64(l.store[[BY_SIGNER] + t]).None?
    && (forall h': uint64 :: HeightPrefix(h') + t in l.store ==> h' == h)
    && Last(l.placed, t, h) == Some(true)
  }

  // ---- Nothing that touches other pairs unlocks it ----

  lemma PlaceLocked(l: Ledger, p: Pair, body: Body, h: uint64, t: Bytes, at: uint64)
    requires Locked(l, t, at) && Tail(p) != t
    ensures Locked(Place(l, p, body, h), t, at)
  {
    hide HeightPrefix, BodyBytes, BigEndianToUint64;
    forall h': uint64 ensures HeightPrefix(h') + t != SignerKey(p) && HeightPrefix(h') + t != HeightKey(h, p) {
      HeightKeysApart(h', t, h, Tail(p));
    }
    HeightKeysApart(h, Tail(p), h, t);
    SignerKeysApart(t, Tail(p));
    LastExtend(l.placed, Placement(Tail(p), h, false), t, at);
  }

  lemma DropLocked(l: Ledger, p: Pair, h: uint64, t: Bytes, at: uint64)
    requires Locked(l, t, at) && Tail(p) != t
    ensures Locked(Drop(l, p, h), t, at)
  {
    hide HeightPrefix, BigEndianToUint64;
    HeightKeysApart(h, Tail(p), h, t);
    SignerKeysApart(t, Tail(p));
  }

  lemma MoveLocked(code: Code, l: Ledger, p: Pair, body: Body, was: uint64, h: uint64, t: Bytes, at: uint64)
    requires Locked(l, t, at) && Tail(p) != t
    ensures Locked(Move(code, l, p, body, was, h), t, at)
  {
    hide HeightPrefix, BodyBytes, HeightBytes, BigEndianToUint64, Delete;
    DropLocked(l, p, was, t, at);
    forall h': uint64 ensures HeightPrefix(h') + t != SignerKey(p) && HeightPrefix(h') + t != HeightKey(h, p) {
      HeightKeysApart(h', t, h, Tail(p));
    }
    HeightKeysApart(h, Tail(p), h, t);
    SignerKeysApart(t, Tail(p));
    LastExtend(l.placed, Placement(Tail(p), h, code.AsWritten?), t, at);
  }

  /** A message for the locked pair crashes; an accepted one is for another pair. */
  lemma AddLocked(code: Code, params: Params, height: uint64, l: Ledger, msg: AddMsg, t: Bytes, at: uint64)
    requires Locked(l, t, at)
    ensures Locked(AfterAdd(code, params, height, l, msg), t, at)
  {
    hide AddGuard, Place, Move, BigEndianToUint64, Last;
    if AnswerAdd(params, height, l, msg).Accept? {
      var p := Pair(msg.signer.value, msg.contract.value);
      if HeightStored(l.store, p).value != 0 {
        MoveLocked(code, l, p, msg.body, HeightStored(l.store, p).value, msg.height, t, at);
      } else {
        PlaceLocked(l, p, msg.body, msg.height, t, at);
      }
    }
  }

  lemma RemoveLocked(l: Ledger, msg: RemoveMsg, t: Bytes, at: uint64)
    requires Locked(l, t, at)
    ensures Locked(AfterRemove(l, msg), t, at)
  {
    hide RemoveGuard, Drop, BigEndianToUint64, Last;
    if AnswerRemove(l, msg).Accept? {
      var p := Pair(msg.signer.value, msg.contract.value);
      DropLocked(l, p, HeightStored(l.store, p).value, t, at);
    }
  }

  lemma VisitLocked(l: Ledger, params: Params, height: uint64, key: Bytes, reply: Reply, t: Bytes, at: uint64)
    requires Kept(l) && Locked(l, t, at) && height < TWO56 && height != at
    requires HeightPrefix(height) + key in l.store && Visit(l, params, height, key, reply).Done?
    ensures Locked(Visit(l, params, height, key, reply).value, t, at)
  {
    hide Callback, ReadBody, DecodeDueKey, HeightPrefix, PlainTail, SignerKept, Insert, Delete, Last;
    var p := DecodeDueKey(height, key);
    assert EntryKept(l, height, key);
    PlainReads(height, key);
    var l1 := Drop(l, p, height);
    DropLocked(l, p, height, t, at);
    var w := Callback(World(map[], l.bank, []), params, height, p,
                      ReadBody(l.store[HeightPrefix(height) + key]).value, reply).value;
    assert Locked(l1.(bank := w.bank), t, at);
    if p in w.pending {
      PlaceLocked(l1.(bank := w.bank), p, ReadBody(l.store[HeightPrefix(height) + key]).value,
                  w.pending[p].height, t, at);
    }
  }

  lemma {:induction false} IterateLocked(l: Ledger, params: Params, height: uint64, env: Environment,
                                         after: Option<Bytes>, t: Bytes, at: uint64)
    requires Kept(l) && Locked(l, t, at) && height < TWO56 && height != at
    requires Iterate(l, params, height, env, after).Done?
    ensures Locked(Iterate(l, params, height, env, after).value, t, at)
    decreases |KeysUnder(l.store, HeightPrefix(height), after)|
  {
    hide Kept, Locked, Visit, HeightPrefix, KeysUnder;
    var r := FirstAfter(l.store, HeightPrefix(height), after);
    if r.Some? {
      var key := r.value;
      VisitLocked(l, params, height, key, env(key), t, at);
      VisitKeeps(l, params, height, key, env(key));
      VisitAdvances(l, params, height, after, key, env(key));
      IterateLocked(Visit(l, params, height, key, env(key)).value, params, height, env, Some(key), t, at);
    }
  }

  lemma StepLocked(code: Code, params: Params, b: Block, event: Event, t: Bytes, at: uint64)
    requires Kept(b.ledger) && Locked(b.ledger, t, at) && b.height <= at < TWO56
    requires Step(code, params, b, event).Done?
    ensures Locked(Step(code, params, b, event).value.ledger, t, at)
    ensures Step(code, params, b, event).value.height <= at
  {
    hide Kept, Iterate, AfterAdd, AfterRemove, BigEndianToUint64, Last, HeightPrefix;
    StepStopsAtMoved(code, params, b, event, t, at);
    match event
    case Add(msg) => AddLocked(code, params, b.height, b.ledger, msg, t, at);
    case Remove(msg) => RemoveLocked(b.ledger, msg, t, at);
    case External(_) =>
    case EndBlock(env) => IterateLocked(b.ledger, params, b.height, env, None, t, at);
  }

  lemma {:induction false} StepsLocked(code: Code, params: Params, b: Block, events: seq<Event>, t: Bytes, at: uint64)
    requires Kept(b.ledger) && Locked(b.ledger, t, at) && b.height <= at < TWO56 && b.height + |events| <= TWO56
    requires forall e :: e in events ==> PlainEvent(e)
    requires Steps(code, params, b, events).Done?
    ensures Locked(Steps(code, params, b, events).value.ledger, t, at)
    ensures Steps(code, params, b, events).value.height <= at
    decreases |events|
  {
    hide Kept, Locked, Step, PlainEvent;
    if events != [] {
      assert PlainEvent(events[0]);
      StepKeeps(code, params, b, events[0]);
      StepLocked(code, params, b, events[0], t, at);
      StepsLocked(code, params, Step(code, params, b, events[0]).value, events[1..], t, at);
    }
  }

  // ---- The re-add that locks ----

  /** Moving the entry of a pair that has no other by-height entry, with a short body, locks the pair. */
  lemma MoveLocks(l: Ledger, p: Pair, body: Body, was: uint64, h: uint64)
    requires 1 <= |body| <= 5
    requires forall h': uint64 :: HeightKey(h', p) in l.store ==> h' == was
    ensures Locked(Move(AsWritten, l, p, body, was, h), Tail(p), h)
  {
    hide HeightPrefix, BodyBytes, HeightBytes, BigEndianToUint64;
    SwappedHeightUnreadable(body);
    LastExtend(l.placed, Placement(Tail(p), h, true), Tail(p), h);
    var l' := Move(AsWritten, l, p, body, was, h);
    forall h': uint64 | HeightPrefix(h') + Tail(p) in l'.store ensures h' == h {
      HeightKeysApart(h', Tail(p), h, Tail(p));
      assert HeightPrefix(h') + Tail(p) == HeightKey(h', p);
    }
  }

  /** An accepted message that moves a pending pair, as written, with a body of one to five bytes. */
  ghost predicate ShortReAdd(params: Params, height: uint64, l: Ledger, m: Pending, p: Pair, msg: AddMsg)
  {
    && Represents(l.store, m) && Positive(m) && p in m && !m[p].swapped && Plain(p)
    && AddFor(msg, p) && AddGuard(params, height, l.bank, msg).None?
    && 1 <= |msg.body| <= 5 && msg.height < TWO56
  }

  lemma ReAddLocks(params: Params, height: uint64, l: Ledger, m: Pending, p: Pair, msg: AddMsg)
    requires Kept(l) && ShortReAdd(params, height, l, m, p, msg)
    ensures var l' := AfterAdd(AsWritten, params, height, l, msg);
      Kept(l') && Locked(l', Tail(p), msg.height) && height < msg.height
  {
    hide Kept, Represents, Locked, Plain, RescheduledAsWritten, HeightStored, AddGuard, Positive, AfterAdd, HeightKey;
    ReAddMoves(params, height, l, m, p, msg);
    assert Pair(p.signer, p.contract) == p;
    AddKeepsLedger(AsWritten, params, height, l, msg);
    RepresentsSigners(l.store, m, p);
    forall h': uint64 | HeightKey(h', p) in l.store ensures h' == m[p].height {
      RepresentsLookup(l.store, m, p, h');
    }
    MoveLocks(l, p, msg.body, m[p].height, msg.height);
    AcceptedAbove(params, height, l.bank, msg);
  }

  lemma AcceptedAbove(params: Params, height: uint64, bank: Bank, msg: AddMsg)
    requires AddGuard(params, height, bank, msg).None?
    ensures height < msg.height
  {
  }

  /**
    Such a message locks the pair: in every run that follows, under either version of the code
    and whatever the contracts answer, the pair stays locked and no block past its new height is
    ever reached.
   */
  lemma ShortBodyLocksRun(params: Params, b: Block, m: Pending, p: Pair, msg: AddMsg, code: Code, events: seq<Event>)
    requires b.height < TWO56 && Kept(b.ledger) && ShortReAdd(params, b.height, b.ledger, m, p, msg)
    requires b.height + |events| <= TWO56 && forall e :: e in events ==> PlainEvent(e)
    ensures var r := Steps(code, params, Block(b.height, AfterAdd(AsWritten, params, b.height, b.ledger, msg)), events);
      r.Done? ==> r.value.height <= msg.height && Locked(r.value.ledger, Tail(p), msg.height)
  {
    hide Kept, Locked, Steps, Represents, Plain, AddGuard, Positive, AfterAdd, PlainEvent;
    ReAddLocks(params, b.height, b.ledger, m, p, msg);
    var b1 := Block(b.height, AfterAdd(AsWritten, params, b.height, b.ledger, msg));
    if Steps(code, params, b1, events).Done? {
      StepsLocked(code, params, b1, events, Tail(p), msg.height);
    }
  }

  /** While a pair is locked every message for it is rejected or crashes, and changes nothing. */
  lemma LockedCrashes(l: Ledger, p: Pair, h: uint64, code: Code, params: Params, height: uint64,
                      add: AddMsg, remove: RemoveMsg)
    requires Locked(l, Tail(p), h) && AddFor(add, p) && RemoveFor(remove, p)
    ensures HeightStored(l.store, p).None?
    ensures AfterAdd(code, params, height, l, add) == l && !AnswerAdd(params, height, l, add).Accept?
    ensures AfterRemove(l, remove) == l && AnswerRemove(l, remove).Crash?
  {
    hide BigEndianToUint64, HeightPrefix, Last;
    assert Pair(p.signer, p.contract) == p;
  }

  // ---- A concrete run ----

  /** The block after an owner schedules a call for height 2 and, in the same block, moves it to height 3. */
  function MovedTo3(): Block
  {
    var l0 := Ledger(map[], FUNDED, []);
    Block(1, AfterAdd(AsWritten, PARAMS, 1, AfterAdd(AsWritten, PARAMS, 1, l0, AddAt(2, [1]).add), AddAt(3, [2]).add))
  }

  /** Two messages from an empty store are enough: no later run gets the chain past height 3. */
  lemma LockExample(code: Code, events: seq<Event>)
    requires |events| < 1000 && forall e :: e in events ==> PlainEvent(e)
    ensures Steps(AsWritten, PARAMS, Block(1, Ledger(map[], FUNDED, [])), [AddAt(2, [1]), AddAt(3, [2])])
         == Done(MovedTo3())
    ensures var r := Steps(code, PARAMS, MovedTo3(), events);
      r.Done? ==> r.value.height <= 3
  {
    hide Steps, Kept, AfterAdd, Represents, Plain, AddGuard, ShortReAdd, PlainEvent, Locked;
    var p := Pair(OWNER, [7]);
    var l0 := Ledger(map[], FUNDED, []);
    var m := map[p := Entry(2, [1], false)];
    var add2, add3 := AddAt(2, [1]).add, AddAt(3, [2]).add;
    var l1 := AfterAdd(AsWritten, PARAMS, 1, l0, add2);
    GuardPasses(2, [1]);
    FirstAdd(AsWritten, l0, PARAMS, add2);
    EmptyKept(FUNDED);
    OwnerIsPlain();
    AddKeepsLedger(AsWritten, PARAMS, 1, l0, add2);
    ShortReAddTo3(l1, m);
    ShortBodyLocksRun(PARAMS, Block(1, l1), m, p, add3, code, events);
    TwoSteps(l0);
  }

  lemma ShortReAddTo3(l: Ledger, m: Pending)
    requires m == map[Pair(OWNER, [7]) := Entry(2, [1], false)] && Represents(l.store, m) && l.bank == FUNDED
    ensures ShortReAdd(PARAMS, 1, l, m, Pair(OWNER, [7]), AddAt(3, [2]).add)
  {
    hide Represents, AddGuard;
    GuardPasses(3, [2]);
    CleanAndPositive(m, Pair(OWNER, [7]));
    assert OWNER[..2][0] == 0;
  }

  lemma TwoSteps(l0: Ledger)
    requires l0 == Ledger(map[], FUNDED, [])
    ensures Steps(AsWritten, PARAMS, Block(1, l0), [AddAt(2, [1]), AddAt(3, [2])]) == Done(MovedTo3())
  {
    hide AfterAdd;
    var events := [AddAt(2, [1]), AddAt(3, [2])];
    assert events[1..][1..] == [];
    assert Steps(AsWritten, PARAMS, MovedTo3(), []) == Done(MovedTo3());
    var b1 := Block(1, AfterAdd(AsWritten, PARAMS, 1, l0, AddAt(2, [1]).add));
    assert Steps(AsWritten, PARAMS, b1, events[1..]) == Done(MovedTo3());
  }
}
