/**
  Wherever the store stands for a map of pending calls, the steps on bytes refine the state
  machine on that map: one visit, a whole iteration, both message servers, and runs.
 */
module Refinement {
  import opened Machine
  import opened Messages
  import opened Keys
  import opened Index
  import opened Scheduler
  import opened Cursor
  import opened Chain

  // ---- One visit ----

  /** The callback's effect on the bank and on its own pair does not depend on the other pending calls. */
  lemma CallbackAlone(w: World, params: Params, height: uint64, p: Pair, body: Body, reply: Reply)
    requires p !in w.pending
    ensures var r, alone := Callback(w, params, height, p, body, reply),
                            Callback(World(map[], w.bank, []), params, height, p, body, reply);
      && (r.Panic? <==> alone.Panic?)
      && (r.Done? ==> r.value.bank == alone.value.bank && (p in r.value.pending <==> p in alone.value.pending)
                      && r.value.pending == if p in alone.value.pending then w.pending[p := alone.value.pending[p]]
                                            else w.pending)
  {
  }

  /** Entries placed by the callback keep the store in step with the map. */
  lemma ReactRefines(l: Ledger, w: World, params: Params, height: uint64, p: Pair, body: Body, reply: Reply)
    requires Represents(l.store, w.pending) && l.bank == w.bank && p !in w.pending && |p.signer| == 20
    ensures match Callback(w, params, height, p, body, reply)
            case Done(w') => React(l, params, height, p, body, reply).Done?
              && Represents(React(l, params, height, p, body, reply).value.store, w'.pending)
              && React(l, params, height, p, body, reply).value.bank == w'.bank
            case Panic => React(l, params, height, p, body, reply).Panic?
            case Garbled => false
  {
    hide Represents, Insert;
    CallbackAlone(w, params, height, p, body, reply);
    var alone := Callback(World(map[], l.bank, []), params, height, p, body, reply);
    hide Callback;
    if alone.Done? && p in alone.value.pending {
      RepresentsInsert(l.store, w.pending, p, Entry(alone.value.pending[p].height, body, false));
      AloneEntry(w, params, height, p, body, reply);
    }
  }

  lemma AloneEntry(w: World, params: Params, height: uint64, p: Pair, body: Body, reply: Reply)
    requires Callback(World(map[], w.bank, []), params, height, p, body, reply).Done?
    requires p in Callback(World(map[], w.bank, []), params, height, p, body, reply).value.pending
    ensures var e := Callback(World(map[], w.bank, []), params, height, p, body, reply).value.pending[p];
      e == Entry(e.height, body, false)
  {
    hide Execute, Charge;
  }

  /** The cursor's key belongs to the due pair, and its value is the pair's entry. */
  lemma DueKeyRead(store: Store, m: Pending, p: Pair, h: uint64)
    requires Represents(store, m) && p in m && m[p].height == h && Standard(p) && TrimSafe(h, p)
    ensures HeightPrefix(h) + Tail(p) in store
    ensures store[HeightPrefix(h) + Tail(p)] == HeightValue(m[p])
    ensures DecodeDueKey(h, Tail(p)) == p
  {
    assert HoldsBoth(store, p, m[p]);
    DueKeyExact(h, p);
  }

  lemma VisitRefines(l: Ledger, w: World, params: Params, height: uint64, p: Pair, reply: Reply)
    requires Represents(l.store, w.pending) && l.bank == w.bank
    requires p in w.pending && w.pending[p].height == height && Standard(p) && TrimSafe(height, p)
    ensures HeightPrefix(height) + Tail(p) in l.store
    ensures var v := Visit(l, params, height, Tail(p), reply);
      match ConsumeOne(w, params, height, p, reply)
      case Done(w') => v.Done? && Represents(v.value.store, w'.pending) && v.value.bank == w'.bank
      case Panic => v.Panic?
      case Garbled => false
  {
    hide Represents, HeightPrefix, Callback, React, DecodeDueKey, ReadBody, HeightValue, Delete, TrimSafe;
    DueKeyRead(l.store, w.pending, p, height);
    if DecodedBody(w.pending[p]).Some? {
      RepresentsRemove(l.store, w.pending, p);
      var body := DecodedBody(w.pending[p]).value;
      ReactRefines(Drop(l, p, height), Consume(w, p, height), params, height, p, body, reply);
    }
  }

  // ---- A whole iteration ----

  lemma StillReadable(m: Pending, m': Pending, h: uint64)
    requires DueReadable(m, h) && Due(m', h) <= Due(m, h)
    ensures DueReadable(m', h)
  {
    forall p | p in m' && m'[p].height == h ensures TrimSafe(h, p) {
      assert p in Due(m', h);
    }
  }

  /**
    Although it deletes and inserts while its cursor is live, the iteration does exactly what
    a pass over the calls due at the start does.
   */
  lemma {:induction false} IterateRefines(l: Ledger, w: World, params: Params, height: uint64, env: Environment,
                                          after: Option<Bytes>)
    requires Represents(l.store, w.pending) && l.bank == w.bank
    requires AllStandard(w.pending) && DueReadable(w.pending, height)
    requires forall p :: p in Due(w.pending, height) ==> Follows(after, Tail(p))
    ensures var r := Iterate(l, params, height, env, after);
      match Pass(w, params, height, env)
      case Done(w') => r.Done? && Represents(r.value.store, w'.pending) && r.value.bank == w'.bank
      case Panic => r.Panic?
      case Garbled => false
    decreases |Due(w.pending, height)|
  {
    hide Represents, HeightPrefix, Visit, ConsumeOne, TrimSafe, Standard, Tail;
    var due := Due(w.pending, height);
    CursorOnDue(l.store, w.pending, height, after);
    if due != {} {
      var p := First(due);
      var key := Tail(p);
      VisitRefines(l, w, params, height, p, env(key));
      if ConsumeOne(w, params, height, p, env(key)).Done? {
        var w' := ConsumeOne(w, params, height, p, env(key)).value;
        var l' := Visit(l, params, height, key, env(key)).value;
        ConsumeOneDue(w, params, height, p, env(key));
        VisitAdvances(l, params, height, after, key, env(key));
        StillReadable(w.pending, w'.pending, height);
        forall q | q in Due(w'.pending, height) ensures Follows(Some(key), Tail(q)) {
          assert q in due && q != p;
        }
        IterateRefines(l', w', params, height, env, Some(key));
      }
    }
  }

  // ---- Messages ----

  /** No pending height is zero, the height read back for "none". */
  predicate Positive(m: Pending)
  {
    forall p :: p in m ==> m[p].height > 0
  }

  /** The height read back for a pair whose entry is well placed. */
  lemma StoredHeight(store: Store, m: Pending, p: Pair)
    requires Represents(store, m) && |p.signer| == 20 && (p in m ==> !m[p].swapped)
    ensures HeightStored(store, p) == Some(if p in m then m[p].height else 0)
  {
    hide SignerKey, HeightKey, BigEndianToUint64, BodyBytes;
    RepresentsLookup(store, m, p, 0);
    if p in m {
      assert HoldsBoth(store, p, m[p]);
      HeightRoundTrip(m[p].height);
    }
  }

  /** So it is zero exactly when nothing is pending for the pair. */
  lemma ZeroIffNotPending(store: Store, m: Pending, p: Pair)
    requires Represents(store, m) && Positive(m) && |p.signer| == 20 && (p in m ==> !m[p].swapped)
    ensures HeightStored(store, p) == Some(0) <==> p !in m
  {
    hide HeightStored;
    StoredHeight(store, m, p);
  }

  lemma AddRefines(code: Code, params: Params, height: uint64, l: Ledger, w: World, msg: AddMsg)
    requires Represents(l.store, w.pending) && l.bank == w.bank && Positive(w.pending)
    requires AddSchedule(code, params, height, w, msg).Done?
    ensures !AnswerAdd(params, height, l, msg).Crash?
    ensures var l', w' := AfterAdd(code, params, height, l, msg), AddSchedule(code, params, height, w, msg).value;
      Represents(l'.store, w'.pending) && l'.bank == w'.bank && Positive(w'.pending)
  {
    hide Represents, HeightStored, Insert, RescheduledAsWritten, RescheduledAsIntended;
    if AddGuard(params, height, w.bank, msg).None? {
      var p := Pair(msg.signer.value, msg.contract.value);
      StoredHeight(l.store, w.pending, p);
      if p in w.pending {
        RescheduleRepresents(l.store, w.pending, p, msg.body, msg.height);
      } else {
        RepresentsInsert(l.store, w.pending, p, Entry(msg.height, msg.body, false));
      }
    }
  }

  lemma RemoveRefines(l: Ledger, w: World, msg: RemoveMsg)
    requires Represents(l.store, w.pending) && l.bank == w.bank && Positive(w.pending)
    requires RemoveSchedule(w, msg).Done?
    ensures !AnswerRemove(l, msg).Crash?
    ensures var l', w' := AfterRemove(l, msg), RemoveSchedule(w, msg).value;
      Represents(l'.store, w'.pending) && l'.bank == w'.bank && Positive(w'.pending)
    ensures RemoveGuard(msg).None? && Pair(msg.signer.value, msg.contract.value) !in w.pending ==>
              AfterRemove(l, msg).store == l.store
  {
    hide Represents, HeightStored, Delete;
    if RemoveGuard(msg).None? {
      var p := Pair(msg.signer.value, msg.contract.value);
      StoredHeight(l.store, w.pending, p);
      if p in w.pending {
        RepresentsRemove(l.store, w.pending, p);
      } else {
        RepresentsRemoveAbsent(l.store, w.pending, p, 0);
      }
    }
  }

  // ---- Runs ----

  /** The store of a block stands for the pending calls of a state, over the same bank. */
  ghost predicate StandsFor(b: Block, s: State)
  {
    && b.height == s.height && b.ledger.bank == s.world.bank
    && AllStandard(s.world.pending) && Positive(s.world.pending)
    && Represents(b.ledger.store, s.world.pending)
  }

  lemma EmptyStandsFor(bank: Bank, height: nat)
    ensures StandsFor(Block(height, Ledger(map[], bank, [])), State(height, World(map[], bank, [])))
  {
  }

  lemma {:induction false} PassPositive(w: World, params: Params, height: uint64, env: Environment)
    requires AllStandard(w.pending) && Positive(w.pending) && Pass(w, params, height, env).Done?
    ensures Positive(Pass(w, params, height, env).value.pending)
    decreases |Due(w.pending, height)|
  {
    hide Callback, DecodedBody;
    var due := Due(w.pending, height);
    if due != {} {
      var p := First(due);
      ConsumeOneDue(w, params, height, p, env(Tail(p)));
      PassPositive(ConsumeOne(w, params, height, p, env(Tail(p))).value, params, height, env);
    }
  }

  /** One step of the state machine, as long as it is defined, is one step on the bytes. */
  lemma StepRefines(code: Code, params: Params, b: Block, s: State, event: Event)
    requires s.height < TWO63 - 1 && StandsFor(b, s)
    ensures match Apply(code, params, s, event)
            case Done(s') => Step(code, params, b, event).Done? && StandsFor(Step(code, params, b, event).value, s')
            case Panic => Step(code, params, b, event).Panic?
            case Garbled => true
  {
    hide Represents, AfterAdd, AfterRemove, Iterate, Pass, AddSchedule, RemoveSchedule, Standard, Positive;
    match event
    case Add(msg) =>
      AddNeverPanics(code, params, s.height, s.world, msg);
      if AddSchedule(code, params, s.height, s.world, msg).Done? {
        AddRefines(code, params, s.height, b.ledger, s.world, msg);
      }
    case Remove(msg) =>
      RemoveNeverPanics(s.world, msg);
      if RemoveSchedule(s.world, msg).Done? {
        RemoveRefines(b.ledger, s.world, msg);
      }
    case External(_) =>
    case EndBlock(env) =>
      if DueReadable(s.world.pending, s.height) {
        IterateRefines(b.ledger, s.world, params, s.height, env, None);
        if Pass(s.world, params, s.height, env).Done? {
          PassPositive(s.world, params, s.height, env);
        }
      }
  }

  lemma AddNeverPanics(code: Code, params: Params, height: uint64, w: World, msg: AddMsg)
    ensures !AddSchedule(code, params, height, w, msg).Panic?
  {
  }

  lemma RemoveNeverPanics(w: World, msg: RemoveMsg)
    ensures !RemoveSchedule(w, msg).Panic?
  {
  }

  /** In every state reached, the store stands for the pending calls of the state machine's run. */
  lemma {:induction false} StepsRefine(code: Code, params: Params, b: Block, s: State, events: seq<Event>)
    requires s.height + |events| < TWO63 && StandsFor(b, s)
    ensures match Run(code, params, s, events)
            case Done(s') => Steps(code, params, b, events).Done? && StandsFor(Steps(code, params, b, events).value, s')
            case Panic => Steps(code, params, b, events).Panic?
            case Garbled => true
    decreases |events|
  {
    hide Apply, Step, Represents;
    if events != [] {
      StepRefines(code, params, b, s, events[0]);
      if Apply(code, params, s, events[0]).Done? {
        StepsRefine(code, params, Step(code, params, b, events[0]).value,
                    Apply(code, params, s, events[0]).value, events[1..]);
      }
    }
  }

  /** From an empty store: every run that is not garbled leaves a store that stands for the run's pending calls. */
  lemma GenesisRefines(code: Code, params: Params, bank: Bank, height: nat, events: seq<Event>)
    requires height + |events| < TWO63
    ensures var r := Steps(code, params, Block(height, Ledger(map[], bank, [])), events);
      match Run(code, params, State(height, World(map[], bank, [])), events)
      case Done(s) => r.Done? && StandsFor(r.value, s)
      case Panic => r.Panic?
      case Garbled => true
  {
    hide Run, Steps, StandsFor;
    EmptyStandsFor(bank, height);
    StepsRefine(code, params, Block(height, Ledger(map[], bank, [])), State(height, World(map[], bank, [])), events);
  }

  // ---- The listing ----

  /** One element of the listing; `None` is a panic on an unreadable height or value. */
  function ListKey(store: Store, key: Bytes): Option<QueryScheduledCall>
    requires [BY_HEIGHT] + key in store
  {
    match DecodeListedKey(key)
    case None => None
    case Some(listed) =>
      match ReadBody(store[[BY_HEIGHT] + key])
      case None => None
      case Some(body) => Some(QueryScheduledCall(listed.pair.contract, body, listed.height, listed.pair.signer))
  }

  /** The listing of some keys of the by-height family, in their order; one panic spoils it. */
  function ListKeys(store: Store, keys: seq<Bytes>): Option<seq<QueryScheduledCall>>
    requires forall k :: k in keys ==> [BY_HEIGHT] + k in store
  {
    if keys == [] then Some([])
    else
      match ListKey(store, keys[0])
      case None => None
      case Some(call) =>
        match ListKeys(store, keys[1..])
        case None => None
        case Some(rest) => Some([call] + rest)
  }

  lemma {:induction false} ListKeysExact(store: Store, keys: seq<Bytes>)
    requires forall k :: k in keys ==> [BY_HEIGHT] + k in store
    ensures ListKeys(store, keys).Some? <==> forall k :: k in keys ==> ListKey(store, k).Some?
    ensures ListKeys(store, keys).Some? ==>
              && |ListKeys(store, keys).value| == |keys|
              && forall i :: 0 <= i < |keys| ==> ListKey(store, keys[i]) == Some(ListKeys(store, keys).value[i])
  {
    hide ListKey;
    if keys != [] {
      ListKeysExact(store, keys[1..]);
      assert keys == [keys[0]] + keys[1..];
    }
  }

  /** The key of a pending call in the by-height prefix store. */
  function FullKey(m: Pending, p: Pair): Bytes
    requires p in m
  {
    Uint64ToBigEndian(m[p].height) + Tail(p)
  }

  function PairOf(c: QueryScheduledCall): Pair
  {
    Pair(c.signer, c.contract)
  }

  /**
    What the full scan makes of a standard pair: its height and itself, unless the height's top
    byte is 01. That byte is then trimmed off with the family prefix, and everything that
    follows is read one byte too far on.
   */
  function ListedAs(h: uint64, p: Pair): Listed
    requires Standard(p)
  {
    if h / TWO56 != 1 then Listed(h, p)
    else
      var n := if p.contract == [] then 0 else 1;
      Listed((h - TWO56) * 256 + p.signer[0], Pair(p.signer[1..] + p.contract[..n], p.contract[n..]))
  }

  function Reading(m: Pending, p: Pair): QueryScheduledCall
    requires p in m && Standard(p) && DecodedBody(m[p]).Some?
  {
    var x := ListedAs(m[p].height, p);
    QueryScheduledCall(x.pair.contract, DecodedBody(m[p]).value, x.height, x.pair.signer)
  }

  /** Heights whose top byte is the family prefix lose it to the redundant trim. */
  predicate Listable(m: Pending)
  {
    forall p :: p in m ==> m[p].height / TWO56 != 1
  }

  /** By height, then signer, then contract. */
  predicate PairOrder(m: Pending, p: Pair, q: Pair)
    requires p in m && q in m
  {
    || m[p].height < m[q].height
    || (m[p].height == m[q].height && Before(p.signer, q.signer))
    || (m[p].height == m[q].height && p.signer == q.signer && Before(p.contract, q.contract))
  }

  /** The pending pairs, each once, in the order of height, signer and contract. */
  ghost predicate Sorted(m: Pending, order: seq<Pair>)
  {
    && (forall p :: p in order <==> p in m)
    && (forall i, j :: 0 <= i < j < |order| ==> PairOrder(m, order[i], order[j]))
  }

  /** The listing goes through the pending pairs in that order, and reads each as the scan does. */
  ghost predicate Listing(m: Pending, order: seq<Pair>, calls: seq<QueryScheduledCall>)
    requires AllStandard(m) && forall p :: p in m ==> DecodedBody(m[p]).Some?
  {
    Sorted(m, order) && |calls| == |order| && forall i :: 0 <= i < |order| ==> calls[i] == Reading(m, order[i])
  }

  lemma FamilyKey(m: Pending, p: Pair)
    requires p in m
    ensures HeightKey(m[p].height, p) == [BY_HEIGHT] + FullKey(m, p)
  {
  }

  lemma {:induction false} FromBigEndianSplit(a: byte, s: Bytes)
    ensures FromBigEndian([a] + s) == a * Pow256(|s|) + FromBigEndian(s)
  {
    if s == [] {
      assert ([a] + s)[..0] == [];
    } else {
      var n := |s| - 1;
      FromBigEndianSplit(a, s[..n]);
      assert ([a] + s)[..n + 1] == [a] + s[..n];
      assert 256 * (a * Pow256(n)) == a * Pow256(n + 1);
    }
  }

  /** The full scan of any key of a standard pair, whatever its height. */
  lemma FullKeyReads(h: uint64, p: Pair)
    requires Standard(p)
    ensures DecodeListedKey(Uint64ToBigEndian(h) + Tail(p)) == Some(ListedAs(h, p))
  {
    hide FromBigEndian, BigEndian, Pow256;
    ListedKeyExact(h, p);
    if h / TWO56 == 1 {
      var b, t := Uint64ToBigEndian(h), Tail(p);
      Pow256Of8();
      TopByte(h, 8);
      assert b == [1] + b[1..];
      HeightRoundTrip(h);
      assert b[..8] == b;
      FromBigEndianSplit(1, b[1..]);
      ShiftedRead(b, t);
      ShiftedHeight(b[1..], t[0]);
      assert t[0] == p.signer[0] && t[1..] == p.signer[1..] + p.contract;
      ShiftedPair(p);
    }
  }

  lemma ShiftedRead(b: Bytes, t: Bytes)
    requires |b| == 8 && b[0] == BY_HEIGHT && |t| > 0
    ensures var s := TrimPrefix(b + t, [BY_HEIGHT]);
      Next(s, 8) == b[1..] + [t[0]] && Rest(s, 8) == t[1..]
  {
    assert [BY_HEIGHT] <= b + t;
    assert (b + t)[1..] == b[1..] + t;
  }

  lemma ShiftedHeight(s: Bytes, x: byte)
    requires |s| == 7 && 256 * FromBigEndian(s) + x < TWO64
    ensures BigEndianToUint64(s + [x]) == Some(256 * FromBigEndian(s) + x)
  {
    assert (s + [x])[..8] == s + [x];
    assert (s + [x])[..7] == s;
  }

  lemma ShiftedPair(p: Pair)
    requires Standard(p)
    ensures var n := if p.contract == [] then 0 else 1;
      TakePair(p.signer[1..] + p.contract) == Pair(p.signer[1..] + p.contract[..n], p.contract[n..])
  {
    var n := if p.contract == [] then 0 else 1;
    var s := p.signer[1..] + p.contract;
    assert s == (p.signer[1..] + p.contract[..n]) + p.contract[n..];
  }

  /** Every key of the by-height family belongs to one pending call, and is listed as the scan reads it. */
  lemma ListedOwner(store: Store, m: Pending, key: Bytes) returns (p: Pair)
    requires Represents(store, m) && AllStandard(m) && [BY_HEIGHT] + key in store
    ensures p in m && key == FullKey(m, p)
    ensures ListKey(store, key) == if DecodedBody(m[p]).None? then None else Some(Reading(m, p))
  {
    hide SignerValue, HeightValue, FullKey, HeightKey, ReadBody, DecodeListedKey, ListedAs;
    var k := [BY_HEIGHT] + key;
    assert Owned(m, k);
    p :| p in m && (k == SignerKey(p) || k == HeightKey(m[p].height, p));
    assert k[0] == BY_HEIGHT && SignerKey(p)[0] == BY_SIGNER;
    FamilyKey(m, p);
    assert key == k[1..] == FullKey(m, p);
    assert HoldsBoth(store, p, m[p]);
    FullKeyListed(m, p);
  }

  lemma FullKeyListed(m: Pending, p: Pair)
    requires p in m && Standard(p)
    ensures DecodeListedKey(FullKey(m, p)) == Some(ListedAs(m[p].height, p))
  {
    FullKeyReads(m[p].height, p);
  }

  lemma FullKeyStored(store: Store, m: Pending, p: Pair)
    requires Represents(store, m) && p in m
    ensures [BY_HEIGHT] + FullKey(m, p) in store
  {
    hide SignerValue, HeightValue, FullKey, HeightKey, SignerKey;
    assert HoldsBoth(store, p, m[p]);
    FamilyKey(m, p);
  }

  lemma FullKeyOrder(m: Pending, p: Pair, q: Pair)
    requires AllStandard(m) && p in m && q in m
    ensures Before(FullKey(m, p), FullKey(m, q)) <==> PairOrder(m, p, q)
  {
    hide DecodedBody, FullKey, HeightKey;
    HeightKeyOrder(m[p].height, p, m[q].height, q);
    FamilyKey(m, p);
    FamilyKey(m, q);
    BeforeConcat([BY_HEIGHT], FullKey(m, p), [BY_HEIGHT], FullKey(m, q));
    BeforeIrreflexive([BY_HEIGHT]);
  }

  lemma FullKeyInjective(m: Pending, p: Pair, q: Pair)
    requires AllStandard(m) && p in m && q in m && FullKey(m, p) == FullKey(m, q)
    ensures p == q
  {
    FamilyKey(m, p);
    FamilyKey(m, q);
    HeightKeyInjective(m[p].height, p, m[q].height, q);
  }

  /** The pairs the keys of the family belong to, in the order of the keys. */
  lemma {:induction false} KeyOwners(store: Store, m: Pending, keys: seq<Bytes>) returns (order: seq<Pair>)
    requires Represents(store, m) && AllStandard(m)
    requires forall k :: k in keys ==> [BY_HEIGHT] + k in store
    ensures |order| == |keys|
    ensures forall i :: 0 <= i < |keys| ==>
              && order[i] in m && keys[i] == FullKey(m, order[i])
              && ListKey(store, keys[i]) == if DecodedBody(m[order[i]]).None? then None else Some(Reading(m, order[i]))
  {
    hide Represents, FullKey, DecodedBody, ListKey, Standard, Reading;
    if keys == [] {
      order := [];
    } else {
      var p := ListedOwner(store, m, keys[0]);
      var rest := KeyOwners(store, m, keys[1..]);
      order := [p] + rest;
    }
  }

  lemma OwnersSorted(store: Store, m: Pending, keys: seq<Bytes>, order: seq<Pair>)
    requires Represents(store, m) && AllStandard(m) && keys == KeyList(store, [BY_HEIGHT], None)
    requires |order| == |keys| && forall i :: 0 <= i < |keys| ==> order[i] in m && keys[i] == FullKey(m, order[i])
    ensures Sorted(m, order)
  {
    hide Represents, FullKey, Standard, PairOrder, KeyList;
    KeyListExact(store, [BY_HEIGHT], None);
    forall p | p in m ensures p in order {
      FullKeyStored(store, m, p);
      var i :| 0 <= i < |keys| && keys[i] == FullKey(m, p);
      FullKeyInjective(m, p, order[i]);
    }
    forall i, j | 0 <= i < j < |order| ensures PairOrder(m, order[i], order[j]) {
      assert Before(keys[i], keys[j]);
      FullKeyOrder(m, order[i], order[j]);
    }
  }

  lemma ListingSucceedsIff(store: Store, m: Pending, keys: seq<Bytes>, order: seq<Pair>)
    requires AllStandard(m) && Sorted(m, order) && |order| == |keys|
    requires forall k :: k in keys ==> [BY_HEIGHT] + k in store
    requires forall i :: 0 <= i < |keys| ==> order[i] in m
    requires forall i :: 0 <= i < |keys| ==>
               ListKey(store, keys[i]) == if DecodedBody(m[order[i]]).None? then None else Some(Reading(m, order[i]))
    ensures ListKeys(store, keys).Some? <==> forall p :: p in m ==> DecodedBody(m[p]).Some?
  {
    hide DecodedBody, ListKey, Standard, PairOrder, Reading;
    ListKeysExact(store, keys);
    if forall p :: p in m ==> DecodedBody(m[p]).Some? {
      forall k | k in keys ensures ListKey(store, k).Some? {
        var i :| 0 <= i < |keys| && keys[i] == k;
      }
    }
    if ListKeys(store, keys).Some? {
      forall p | p in m ensures DecodedBody(m[p]).Some? {
        var i :| 0 <= i < |order| && order[i] == p;
        assert keys[i] in keys;
      }
    }
  }

  /**
    Over a store that stands for a map, the listing of the whole family succeeds exactly when
    every stored value decodes. It then goes through every pending call exactly once, in the
    order of height, signer and contract, and shows each as the scan reads its key.
   */
  lemma ListingExact(store: Store, m: Pending, keys: seq<Bytes>) returns (order: seq<Pair>)
    requires Represents(store, m) && AllStandard(m)
    requires keys == KeyList(store, [BY_HEIGHT], None)
    ensures Sorted(m, order)
    ensures forall k :: k in keys ==> [BY_HEIGHT] + k in store
    ensures ListKeys(store, keys).Some? <==> forall p :: p in m ==> DecodedBody(m[p]).Some?
    ensures ListKeys(store, keys).Some? ==> Listing(m, order, ListKeys(store, keys).value)
  {
    hide Represents, FullKey, DecodedBody, ListKey, Standard, Increasing, KeyList, Sorted, Reading;
    KeyListExact(store, [BY_HEIGHT], None);
    order := KeyOwners(store, m, keys);
    OwnersSorted(store, m, keys, order);
    ListKeysExact(store, keys);
    ListingSucceedsIff(store, m, keys, order);
  }

  /** Where no height has top byte 01, each call listed is the pending call itself. */
  lemma ListingFaithful(m: Pending, order: seq<Pair>, calls: seq<QueryScheduledCall>)
    requires AllStandard(m) && Listable(m) && forall p :: p in m ==> DecodedBody(m[p]).Some?
    requires Listing(m, order, calls)
    ensures forall i :: 0 <= i < |order| ==>
              && PairOf(calls[i]) == order[i] && calls[i].height == m[order[i]].height
              && Some(calls[i].callBody) == DecodedBody(m[order[i]])
  {
    hide DecodedBody, Standard, PairOrder;
    forall i | 0 <= i < |order| ensures order[i] in m && calls[i] == Reading(m, order[i]) {
      assert order[i] in order;
    }
  }

  /** The keys under one height are the due pairs, so counting them counts the calls due. */
  lemma CountExact(store: Store, m: Pending, h: uint64, keys: seq<Bytes>)
    requires Represents(store, m) && AllStandard(m) && keys == KeyList(store, HeightPrefix(h), None)
    ensures |keys| == |Due(m, h)|
  {
    hide Represents, HeightPrefix, Standard, KeyList;
    KeyListExact(store, HeightPrefix(h), None);
    forall k ensures k in keys <==> exists p :: p in Due(m, h) && Tail(p) == k {
      DueKeys(store, m, h, k);
    }
    SameCount(keys, Due(m, h));
  }

  lemma {:induction false} SameCount(keys: seq<Bytes>, due: set<Pair>)
    requires Increasing(keys) && forall p :: p in due ==> Standard(p)
    requires forall k :: k in keys <==> exists p :: p in due && Tail(p) == k
    ensures |keys| == |due|
    decreases |keys|
  {
    hide Tail, Standard;
    if keys == [] {
      assert forall p :: p in due ==> Tail(p) in keys;
    } else {
      var rest := keys[1..];
      assert keys[0] in keys;
      var p :| p in due && Tail(p) == keys[0];
      BeforeIrreflexive(keys[0]);
      forall k ensures k in rest <==> exists q :: q in due - {p} && Tail(q) == k {
        if k in rest {
          assert k in keys && k != keys[0];
          var q :| q in due && Tail(q) == k;
          assert q in due - {p};
        }
        if q :| q in due - {p} && Tail(q) == k {
          assert k in keys;
          if k == keys[0] { StandardTails(p, q); }
        }
      }
      SameCount(rest, due - {p});
    }
  }
}
