/**
  The module over the byte store itself, step by step, on every store whatever it holds:
  stored heights are read back from bytes, and the iteration takes apart whatever keys it meets.
 */
module Chain {
  import opened Machine
  import opened Messages
  import opened Keys
  import opened Index
  import opened Scheduler
  import opened Cursor

  /**
    A by-height entry was written for the pair whose addresses join to `tail`: by
    AddScheduledCall, or, when `moved`, by the assignment of keeper.go:94-95.
   */
  datatype Placement = Placement(tail: Bytes, height: uint64, moved: bool)

  datatype Ledger = Ledger(store: Store, bank: Bank, placed: seq<Placement>)

  // ---- Entries ----

  /** The height the by-signer entry gives for a pair: zero when there is none, `None` when it is unreadable. */
  function HeightStored(store: Store, p: Pair): Option<uint64>
  {
    if SignerKey(p) in store then BigEndianToUint64(store[SignerKey(p)]) else Some(0)
  }

  function Place(l: Ledger, p: Pair, body: Body, h: uint64): Ledger
  {
    Ledger(Insert(l.store, p, Entry(h, body, false)), l.bank, l.placed + [Placement(Tail(p), h, false)])
  }

  /** ReScheduleCall, with the assignment `code` selects. */
  function Move(code: Code, l: Ledger, p: Pair, body: Body, oldHeight: uint64, newHeight: uint64): Ledger
  {
    var store := if code.AsWritten? then RescheduledAsWritten(l.store, p, body, oldHeight, newHeight)
                 else RescheduledAsIntended(l.store, p, body, oldHeight, newHeight);
    Ledger(store, l.bank, l.placed + [Placement(Tail(p), newHeight, code.AsWritten?)])
  }

  function Drop(l: Ledger, p: Pair, h: uint64): Ledger
  {
    Ledger(Delete(l.store, p, h), l.bank, l.placed)
  }

  // ---- Message servers ----

  datatype Response = Accept | Reject(reason: Rejection) | Crash

  function AnswerAdd(params: Params, height: uint64, l: Ledger, msg: AddMsg): Response
  {
    var guard := AddGuard(params, height, l.bank, msg);
    if guard.Some? then Reject(guard.value)
    else if HeightStored(l.store, Pair(msg.signer.value, msg.contract.value)).None? then Crash
    else Accept
  }

  /** A rejected or crashing message changes nothing. */
  function AfterAdd(code: Code, params: Params, height: uint64, l: Ledger, msg: AddMsg): Ledger
  {
    if !AnswerAdd(params, height, l, msg).Accept? then l
    else
      var p := Pair(msg.signer.value, msg.contract.value);
      var existing := HeightStored(l.store, p).value;
      if existing != 0 then Move(code, l, p, msg.body, existing, msg.height)
      else Place(l, p, msg.body, msg.height)
  }

  function AnswerRemove(l: Ledger, msg: RemoveMsg): Response
  {
    var guard := RemoveGuard(msg);
    if guard.Some? then Reject(guard.value)
    else if HeightStored(l.store, Pair(msg.signer.value, msg.contract.value)).None? then Crash
    else Accept
  }

  function AfterRemove(l: Ledger, msg: RemoveMsg): Ledger
  {
    if !AnswerRemove(l, msg).Accept? then l
    else
      var p := Pair(msg.signer.value, msg.contract.value);
      Drop(l, p, HeightStored(l.store, p).value)
  }

  // ---- EndBlocker ----

  /** The callback sees the bank only; what it asks to have scheduled again is placed in the store. */
  function React(l: Ledger, params: Params, height: uint64, p: Pair, body: Body, reply: Reply): Outcome<Ledger>
  {
    match Callback(World(map[], l.bank, []), params, height, p, body, reply)
    case Panic => Panic
    case Garbled => Garbled
    case Done(w) =>
      var paid := l.(bank := w.bank);
      Done(if p in w.pending then Place(paid, p, body, w.pending[p].height) else paid)
  }

  /** One iteration of the loop: takes the key apart, deletes both entries of the pair it reads, runs the callback. */
  function Visit(l: Ledger, params: Params, height: uint64, key: Bytes, reply: Reply): Outcome<Ledger>
    requires HeightPrefix(height) + key in l.store
  {
    var value := l.store[HeightPrefix(height) + key];
    if ReadBody(value).None? then Panic
    else
      var p := DecodeDueKey(height, key);
      React(Drop(l, p, height), params, height, p, ReadBody(value).value, reply)
  }

  /** Only keys of later heights are inserted, so a visit adds nothing under the prefix being iterated. */
  lemma VisitAddsNothingUnder(l: Ledger, params: Params, height: uint64, key: Bytes, reply: Reply, k: Bytes)
    requires HeightPrefix(height) + key in l.store && Visit(l, params, height, key, reply).Done?
    requires HeightPrefix(height) + k in Visit(l, params, height, key, reply).value.store
    ensures HeightPrefix(height) + k in l.store
  {
    hide ReadBody, Callback, DecodeDueKey, HeightValue, SignerValue;
    var p := DecodeDueKey(height, key);
    var l' := Visit(l, params, height, key, reply).value;
    var full := HeightPrefix(height) + k;
    assert full[0] == BY_HEIGHT && SignerKey(p)[0] == BY_SIGNER;
    var body := ReadBody(l.store[HeightPrefix(height) + key]).value;
    var w := Callback(World(map[], l.bank, []), params, height, p, body, reply).value;
    if p in w.pending {
      InWindowExact(height, params.upperBound, w.pending[p].height);
      assert HeightPrefix(height) <= full;
      HeightKeyHasPrefix(w.pending[p].height, p, height);
    }
  }

  lemma VisitAdvances(l: Ledger, params: Params, height: uint64, after: Option<Bytes>, key: Bytes, reply: Reply)
    requires FirstAfter(l.store, HeightPrefix(height), after) == Some(key)
    requires Visit(l, params, height, key, reply).Done?
    ensures |KeysUnder(Visit(l, params, height, key, reply).value.store, HeightPrefix(height), Some(key))|
          < |KeysUnder(l.store, HeightPrefix(height), after)|
  {
    hide Visit, HeightPrefix, KeysUnder;
    var l' := Visit(l, params, height, key, reply).value;
    forall k | HeightPrefix(height) + k in l'.store ensures HeightPrefix(height) + k in l.store {
      VisitAddsNothingUnder(l, params, height, key, reply, k);
    }
    CursorAdvances(l.store, l'.store, HeightPrefix(height), after, key);
    FewerKeys(KeysUnder(l'.store, HeightPrefix(height), Some(key)), KeysUnder(l.store, HeightPrefix(height), after));
  }

  /** ConsumeScheduledCallsByHeight with a live cursor at `after`, on any store; it always terminates. */
  ghost function Iterate(l: Ledger, params: Params, height: uint64, env: Environment, after: Option<Bytes>)
    : Outcome<Ledger>
    decreases |KeysUnder(l.store, HeightPrefix(height), after)|
  {
    match FirstAfter(l.store, HeightPrefix(height), after)
    case None => Done(l)
    case Some(key) =>
      match Visit(l, params, height, key, env(key))
      case Panic => Panic
      case Garbled => Garbled
      case Done(l') =>
        VisitAdvances(l, params, height, after, key, env(key));
        Iterate(l', params, height, env, Some(key))
  }

  /** The keys the iteration visits, in order. */
  ghost function VisitedKeys(l: Ledger, params: Params, height: uint64, env: Environment, after: Option<Bytes>)
    : seq<Bytes>
    decreases |KeysUnder(l.store, HeightPrefix(height), after)|
  {
    match FirstAfter(l.store, HeightPrefix(height), after)
    case None => []
    case Some(key) =>
      match Visit(l, params, height, key, env(key))
      case Panic => [key]
      case Garbled => [key]
      case Done(l') =>
        VisitAdvances(l, params, height, after, key, env(key));
        [key] + VisitedKeys(l', params, height, env, Some(key))
  }

  /**
    On every store, misread keys included, each key is visited at most once, in key order, and
    was there at the start.
   */
  lemma {:induction false} IterateInOrder(l: Ledger, params: Params, height: uint64, env: Environment,
                                          after: Option<Bytes>)
    ensures Increasing(VisitedKeys(l, params, height, env, after))
    ensures forall k :: k in VisitedKeys(l, params, height, env, after) ==>
              HeightPrefix(height) + k in l.store && Follows(after, k)
    ensures !Iterate(l, params, height, env, after).Garbled?
    decreases |KeysUnder(l.store, HeightPrefix(height), after)|
  {
    hide Visit, HeightPrefix, KeysUnder, Increasing;
    NothingIncreases();
    var r := FirstAfter(l.store, HeightPrefix(height), after);
    if r.Some? {
      var key := r.value;
      OneIncreases(key);
      VisitNeverGarbled(l, params, height, key, env(key));
      if Visit(l, params, height, key, env(key)).Done? {
        var l' := Visit(l, params, height, key, env(key)).value;
        VisitAdvances(l, params, height, after, key, env(key));
        IterateInOrder(l', params, height, env, Some(key));
        var rest := VisitedKeys(l', params, height, env, Some(key));
        forall k | k in rest ensures HeightPrefix(height) + k in l.store && Follows(after, k) && Before(key, k) {
          VisitAddsNothingUnder(l, params, height, key, env(key), k);
          if after.Some? { BeforeTransitive(after.value, key, k); }
        }
        IncreasingCons(key, rest);
      }
    }
  }

  lemma NothingIncreases()
    ensures Increasing([])
  {
  }

  lemma OneIncreases(k: Bytes)
    ensures Increasing([k])
  {
  }

  lemma VisitNeverGarbled(l: Ledger, params: Params, height: uint64, key: Bytes, reply: Reply)
    requires HeightPrefix(height) + key in l.store
    ensures !Visit(l, params, height, key, reply).Garbled?
  {
    hide ReadBody;
  }

  // ---- What outlives its block ----

  /** A visit takes exactly the key it reads out of the keys under the prefix. */
  lemma VisitTakes(l: Ledger, params: Params, height: uint64, key: Bytes, reply: Reply, t: Bytes)
    requires HeightPrefix(height) + key in l.store && Visit(l, params, height, key, reply).Done?
    ensures HeightPrefix(height) + t in Visit(l, params, height, key, reply).value.store
       <==> HeightPrefix(height) + t in l.store && Tail(DecodeDueKey(height, key)) != t
  {
    hide ReadBody, Callback, DecodeDueKey, HeightValue, SignerValue;
    var p := DecodeDueKey(height, key);
    var full := HeightPrefix(height) + t;
    assert full[0] == BY_HEIGHT && SignerKey(p)[0] == BY_SIGNER;
    assert full[9..] == t && HeightKey(height, p)[9..] == Tail(p);
    var w := Callback(World(map[], l.bank, []), params, height, p,
                      ReadBody(l.store[HeightPrefix(height) + key]).value, reply).value;
    if p in w.pending {
      InWindowExact(height, params.upperBound, w.pending[p].height);
      assert HeightPrefix(height) <= full;
      HeightKeyHasPrefix(w.pending[p].height, p, height);
    }
  }

  /**
    On every store, a key under the prefix is still there after the iteration exactly when no
    key visited was read as the pair it belongs to; and then it was visited itself.
   */
  lemma {:induction false} IterateLeaves(l: Ledger, params: Params, height: uint64, env: Environment,
                                         after: Option<Bytes>, t: Bytes)
    requires Iterate(l, params, height, env, after).Done?
    ensures var visited := VisitedKeys(l, params, height, env, after);
      var left := HeightPrefix(height) + t in Iterate(l, params, height, env, after).value.store;
      && (left <==> HeightPrefix(height) + t in l.store
                    && forall k :: k in visited ==> Tail(DecodeDueKey(height, k)) != t)
      && (left && Follows(after, t) ==> t in visited)
    decreases |KeysUnder(l.store, HeightPrefix(height), after)|
  {
    hide Visit, HeightPrefix, KeysUnder, DecodeDueKey, Tail;
    var r := FirstAfter(l.store, HeightPrefix(height), after);
    if r.Some? {
      var key := r.value;
      var l' := Visit(l, params, height, key, env(key)).value;
      VisitTakes(l, params, height, key, env(key), t);
      VisitAdvances(l, params, height, after, key, env(key));
      IterateLeaves(l', params, height, env, Some(key), t);
      var rest := VisitedKeys(l', params, height, env, Some(key));
      assert forall k :: k in [key] + rest <==> k == key || k in rest;
    }
  }

  /**
    When no key due is longer than two standard addresses, a due pair still has its by-height key
    afterwards exactly when its signer begins with the height prefix, so that its own visit reads
    another pair, and no key visited was that prefix in front of its own tail.
   */
  lemma SurvivesIff(l: Ledger, params: Params, height: uint64, env: Environment, p: Pair)
    requires Standard(p) && HeightKey(height, p) in l.store && Iterate(l, params, height, env, None).Done?
    requires forall k :: HeightPrefix(height) + k in l.store ==> |k| <= 52
    ensures HeightKey(height, p) in Iterate(l, params, height, env, None).value.store
       <==> !TrimSafe(height, p) && HeightPrefix(height) + Tail(p) !in VisitedKeys(l, params, height, env, None)
  {
    hide Iterate, VisitedKeys, HeightPrefix, DecodeDueKey, TrimSafe;
    IterateLeaves(l, params, height, env, None, Tail(p));
    IterateInOrder(l, params, height, env, None);
    DecodedTail(height, p);
    forall k | |k| <= 52
      ensures Tail(DecodeDueKey(height, k)) == Tail(p) <==>
                (k == Tail(p) && TrimSafe(height, p)) || k == HeightPrefix(height) + Tail(p)
    {
      ReadsTail(height, k, Tail(p));
    }
  }

  /** Which keys a visit reads as a pair with addresses `t`. */
  lemma ReadsTail(h: uint64, k: Bytes, t: Bytes)
    requires |t| <= 52 && |k| <= 52
    ensures Tail(DecodeDueKey(h, k)) == t <==>
              (k == t && !(HeightPrefix(h) <= t)) || k == HeightPrefix(h) + t
  {
  }

  // ---- Runs ----

  datatype Block = Block(height: nat, ledger: Ledger)

  ghost function Step(code: Code, params: Params, b: Block, event: Event): (r: Outcome<Block>)
    requires b.height < TWO63 - 1
    ensures r.Done? ==> b.height <= r.value.height <= b.height + 1
  {
    match event
    case Add(msg) => Done(Block(b.height, AfterAdd(code, params, b.height, b.ledger, msg)))
    case Remove(msg) => Done(Block(b.height, AfterRemove(b.ledger, msg)))
    case External(bank) => Done(Block(b.height, b.ledger.(bank := bank)))
    case EndBlock(env) =>
      match Iterate(b.ledger, params, b.height, env, None)
      case Panic => Panic
      case Garbled => Garbled
      case Done(l) => Done(Block(b.height + 1, l))
  }

  ghost function Steps(code: Code, params: Params, b: Block, events: seq<Event>): Outcome<Block>
    requires b.height + |events| < TWO63
    decreases |events|
  {
    if events == [] then Done(b)
    else
      match Step(code, params, b, events[0])
      case Panic => Panic
      case Garbled => Garbled
      case Done(b') => Steps(code, params, b', events[1..])
  }

  /** The height moves by one at the end of each block, and never otherwise. */
  lemma {:induction false} StepsHeightExact(code: Code, params: Params, b: Block, events: seq<Event>)
    requires b.height + |events| < TWO63 && Steps(code, params, b, events).Done?
    ensures Steps(code, params, b, events).value.height == b.height + EndBlocks(events)
    decreases |events|
  {
    hide AfterAdd, AfterRemove, Iterate;
    if events != [] {
      StepsHeightExact(code, params, Step(code, params, b, events[0]).value, events[1..]);
    }
  }
}
