/**
  The keeper: methods over the byte store and the bank, on every store whatever it holds.
  Each is proved against a step on bytes; what those steps mean is proved about the steps.
 */
module ScheduleKeeper {
  import opened Machine
  import opened Fields
  import opened Messages
  import opened Keys
  import opened Index
  import opened Scheduler
  import opened Cursor
  import opened Chain
  import opened Refinement
  import opened Layout
  import opened Servers

  class Keeper {
    const code: Code
    const params: Params
    var store: Store
    var bank: Bank
    /** Which by-height entries were written, and by which of the two writers. */
    ghost var placed: seq<Placement>

    ghost function View(): Ledger
      reads this
    {
      Ledger(store, bank, placed)
    }

    constructor (code: Code, params: Params, bank: Bank)
      ensures this.code == code && this.params == params
      ensures View() == Ledger(map[], bank, [])
    {
      this.code, this.params, this.store, this.bank := code, params, map[], bank;
      placed := [];
    }

    // ---- Entries ----

    /** `None` is the panic on a stored value of one to seven bytes. */
    method BlockHeightForSignerContract(p: Pair) returns (r: Option<uint64>)
      ensures r == HeightStored(store, p)
      ensures var key := [2] + p.signer + p.contract;
        r == if key in store then BigEndianToUint64(store[key]) else Some(0)
      ensures forall m: Pending :: Represents(store, m) && Positive(m) && Clean(m) && |p.signer| == 20 ==>
                r == Some(if p in m then m[p].height else 0) && (r == Some(0) <==> p !in m)
    {
      hide BigEndianToUint64, Represents, HeightStored;
      var key := SignerKey(p);
      if key in store {
        r := BigEndianToUint64(store[key]);
      } else {
        r := BigEndianToUint64([]);
        EmptyIsZero();
      }
      assert r == HeightStored(store, p) by { StoredIs(store, p); }
      StoredHeightLayout(store, p);
      forall m: Pending | Represents(store, m) && Positive(m) && Clean(m) && |p.signer| == 20
        ensures r == Some(if p in m then m[p].height else 0)
      {
        StoredHeight(store, m, p);
      }
    }

    method AddScheduledCall(p: Pair, callBody: Body, blockHeight: uint64)
      modifies this`store, this`placed
      ensures View() == Place(old(View()), p, callBody, blockHeight)
      ensures store == old(store)[[2] + p.signer + p.contract := Uint64ToBigEndian(blockHeight)]
                                 [[1] + Uint64ToBigEndian(blockHeight) + p.signer + p.contract
                                  := EncodeCall(ScheduledCall(callBody))]
    {
      PlaceLayout(View(), p, callBody, blockHeight);
      var value := MarshalCall(ScheduledCall(callBody));
      assert value == BodyBytes(callBody);
      store := store[SignerKey(p) := HeightBytes(blockHeight)];
      store := store[HeightKey(blockHeight, p) := value];
      placed := placed + [Placement(Tail(p), blockHeight, false)];
    }

    /** The two values are assigned as `code` says; everything else is common. */
    method ReScheduleCall(p: Pair, callBody: Body, oldBlockHeight: uint64, newBlockHeight: uint64)
      modifies this`store, this`placed
      ensures View() == Move(code, old(View()), p, callBody, oldBlockHeight, newBlockHeight)
      ensures var signerKey := [2] + p.signer + p.contract;
        var heightKey := [1] + Uint64ToBigEndian(newBlockHeight) + p.signer + p.contract;
        var cleared := old(store) - {signerKey, [1] + Uint64ToBigEndian(oldBlockHeight) + p.signer + p.contract};
        var height, call := Uint64ToBigEndian(newBlockHeight), EncodeCall(ScheduledCall(callBody));
        store == if code.AsWritten? then cleared[signerKey := call][heightKey := height]
                 else cleared[signerKey := height][heightKey := call]
    {
      MoveLayout(code, View(), p, callBody, oldBlockHeight, newBlockHeight);
      RemoveScheduledCallWithBlockHeight(p, oldBlockHeight);
      ghost var cleared := store;
      var value := MarshalCall(ScheduledCall(callBody));
      assert value == BodyBytes(callBody);
      FamiliesDisjoint(newBlockHeight, p, p);
      if code.AsWritten? {
        store := store[HeightKey(newBlockHeight, p) := HeightBytes(newBlockHeight)];
        store := store[SignerKey(p) := value];
      } else {
        store := store[HeightKey(newBlockHeight, p) := value];
        store := store[SignerKey(p) := HeightBytes(newBlockHeight)];
        InsertOrder(cleared, HeightKey(newBlockHeight, p), value, SignerKey(p), HeightBytes(newBlockHeight));
      }
      placed := placed + [Placement(Tail(p), newBlockHeight, code.AsWritten?)];
    }

    method RemoveScheduledCall(p: Pair) returns (panicked: bool)
      modifies this`store
      ensures panicked <==> HeightStored(old(store), p).None?
      ensures panicked ==> View() == old(View())
      ensures !panicked ==> View() == Drop(old(View()), p, HeightStored(old(store), p).value)
      ensures !panicked ==>
                store == old(store) - {[2] + p.signer + p.contract,
                  [1] + Uint64ToBigEndian(HeightStored(old(store), p).value) + p.signer + p.contract}
    {
      hide HeightStored;
      var blockHeight := BlockHeightForSignerContract(p);
      if blockHeight.None? { return true; }
      store := store - {SignerKey(p)};
      store := store - {HeightKey(blockHeight.value, p)};
      assert store == Delete(old(store), p, blockHeight.value);
      DropLayout(old(View()), p, blockHeight.value);
      return false;
    }

    method RemoveScheduledCallWithBlockHeight(p: Pair, blockHeight: uint64)
      modifies this`store
      ensures View() == Drop(old(View()), p, blockHeight)
      ensures store == old(store) - {[2] + p.signer + p.contract,
                                     [1] + Uint64ToBigEndian(blockHeight) + p.signer + p.contract}
    {
      DropLayout(View(), p, blockHeight);
      store := store - {SignerKey(p)};
      store := store - {HeightKey(blockHeight, p)};
    }

    // ---- Iteration ----

    /** The first key after `after` in the prefix store, without the prefix. */
    method Seek(prefix: Bytes, after: Option<Bytes>) returns (r: Option<Bytes>)
      ensures r == FirstAfter(store, prefix, after)
    {
      hide KeysUnder;
      var candidates := set k | k in store && prefix <= k && Follows(after, k[|prefix|..]) :: k[|prefix|..];
      assert candidates == KeysUnder(store, prefix, after) by { KeysUnderIs(store, prefix, after); }
      forall k ensures k in candidates <==> prefix + k in store && Follows(after, k) {
        InKeysUnder(store, prefix, after, k);
      }
      if candidates == {} {
        r := None;
      } else {
        ghost var least := FirstKeyExists(candidates);
        var first :| first in candidates && forall j | j in candidates :: j == first || Before(first, j);
        r := Some(first);
      }
      SoughtUnique(store, prefix, after, r, FirstAfter(store, prefix, after));
    }

    /** The number of keys under the height, on every store; over a represented map, of the calls due. */
    method CountOfScheduledCallsAtHeight(blockHeight: uint64) returns (count: nat)
      ensures count == |KeyList(store, HeightPrefix(blockHeight), None)|
      ensures forall m: Pending :: Represents(store, m) && AllStandard(m) ==> count == |Due(m, blockHeight)|
    {
      hide HeightPrefix, KeysUnder, Represents;
      var prefix := HeightPrefix(blockHeight);
      ghost var last: Option<Bytes> := None;
      var key := Seek(prefix, None);
      count := 0;
      while key.Some?
        invariant key == FirstAfter(store, prefix, last)
        invariant count + |KeyList(store, prefix, last)| == |KeyList(store, prefix, None)|
        decreases |KeyList(store, prefix, last)|
      {
        count := count + 1;
        last := key;
        key := Seek(prefix, key);
      }
      forall m: Pending | Represents(store, m) && AllStandard(m) ensures count == |Due(m, blockHeight)| {
        CountExact(store, m, blockHeight, KeyList(store, prefix, None));
      }
    }

    // ---- EndBlocker ----

    /**
      A contract runs with its balance as gas limit and may leave any bank behind. A run that
      returns is charged within its limit; it panics exactly when the VM does, or when a run
      within its gas returns one to seven bytes.
     */
    method ExecuteMsgWithGasLimit(gasLimit: uint64, exec: ExecReply) returns (r: Execution)
      modifies this`bank
      ensures bank == exec.bank
      ensures r.Panicked? <==> exec.panics || (exec.gas <= gasLimit && 1 <= |exec.result| <= 7)
      ensures r.Finished? ==> r.gas <= gasLimit && (r.gas == exec.gas || r.gas == gasLimit < exec.gas)
      ensures r.Finished? && !r.failed ==> r.gas == exec.gas && !exec.failed
      ensures r.Finished? && r.nextBlock != 0 ==>
                exec.gas <= gasLimit && |exec.result| >= 8 && r.nextBlock == FromBigEndian(exec.result[..8])
      ensures r == Execute(gasLimit, exec)
    {
      bank := exec.bank;
      if exec.panics { return Panicked; }
      if exec.gas > gasLimit { return Finished(gasLimit, 0, true); }
      var nextBlock := BigEndianToUint64(exec.result);
      if nextBlock.None? { return Panicked; }
      return Finished(exec.gas, nextBlock.value, exec.failed);
    }

    /** The closure EndBlocker passes to the iteration. */
    method ConsumeCallback(height: uint64, p: Pair, body: Body, reply: Reply) returns (panicked: bool)
      modifies this
      ensures panicked <==> React(old(View()), params, height, p, body, reply).Panic?
      ensures !panicked ==> React(old(View()), params, height, p, body, reply) == Done(View())
    {
      hide Insert, Execute;
      if !reply.owner.IsOwner? { return false; }
      var contractBalance := Balance(bank, p.contract);
      if contractBalance < params.minimumBalance { return false; }
      if contractBalance >= TWO64 { return true; }
      var run := ExecuteMsgWithGasLimit(contractBalance, reply.exec);
      if run.Panicked? { return true; }
      if reply.transferable && run.gas <= Balance(bank, p.contract) {
        bank := Collect(bank, p.contract, run.gas);
      }
      if run.failed { return false; }
      contractBalance := Balance(bank, p.contract);
      if contractBalance < params.minimumBalance { return false; }
      if run.nextBlock <= height { return false; }
      if run.nextBlock > (height + params.upperBound) % TWO64 { return false; }
      AddScheduledCall(p, body, run.nextBlock);
      return false;
    }

    /** Deletes and inserts while its cursor is live. */
    method ConsumeScheduledCallsByHeight(height: uint64, env: Environment) returns (panicked: bool)
      modifies this
      ensures panicked <==> Iterate(old(View()), params, height, env, None).Panic?
      ensures !panicked ==> Iterate(old(View()), params, height, env, None) == Done(View())
    {
      hide HeightPrefix, Visit, KeysUnder;
      ghost var after: Option<Bytes> := None;
      var key := Seek(HeightPrefix(height), None);
      while key.Some?
        invariant key == FirstAfter(store, HeightPrefix(height), after)
        invariant Iterate(old(View()), params, height, env, None) == Iterate(View(), params, height, env, after)
        decreases |KeysUnder(store, HeightPrefix(height), after)|
      {
        ghost var before := View();
        VisitNeverGarbled(before, params, height, key.value, env(key.value));
        var failed := ConsumeAt(height, key.value, env(key.value));
        if failed { return true; }
        VisitAdvances(before, params, height, after, key.value, env(key.value));
        after := key;
        key := Seek(HeightPrefix(height), key);
      }
      return false;
    }

    /** The loop body: takes the key apart, reads the call, deletes both entries, runs the callback. */
    method ConsumeAt(height: uint64, key: Bytes, reply: Reply) returns (panicked: bool)
      requires HeightPrefix(height) + key in store
      modifies this
      ensures panicked <==> Visit(old(View()), params, height, key, reply).Panic?
      ensures !panicked ==> Visit(old(View()), params, height, key, reply) == Done(View())
    {
      hide HeightPrefix, Callback, Delete, Decode, DecodeDueKey;
      var p := DecodeDueKey(height, key);
      ghost var value := store[HeightPrefix(height) + key];
      var call := UnmarshalCall(ScheduledCall([]), store[HeightPrefix(height) + key]);
      if call.Err? { return true; }
      DecodeCallBound(value);
      RemoveScheduledCallWithBlockHeight(p, height);
      panicked := ConsumeCallback(height, p, call.value.callBody, reply);
    }

    method EndBlocker(height: uint64, env: Environment) returns (panicked: bool)
      modifies this
      ensures panicked <==> Iterate(old(View()), params, height, env, None).Panic?
      ensures !panicked ==> Iterate(old(View()), params, height, env, None) == Done(View())
    {
      panicked := ConsumeScheduledCallsByHeight(height, env);
    }

    // ---- Message servers ----

    /** For every pair of addresses and whatever is stored for it. */
    method AddSchedule(height: uint64, msg: AddMsg) returns (r: Response)
      modifies this
      ensures r == AnswerAdd(params, height, old(View()), msg)
      ensures View() == AfterAdd(code, params, height, old(View()), msg)
      ensures r.Accept? <==>
                && height < msg.height <= (height + params.upperBound) % 0x1_0000_0000_0000_0000
                && msg.signer.Some? && msg.contract.Some? && msg.owner.IsOwner?
                && Balance(old(bank), msg.contract.value) >= params.minimumBalance
                && HeightStored(old(store), Pair(msg.signer.value, msg.contract.value)).Some?
      ensures !r.Accept? ==> View() == old(View())
      ensures r.Accept? && HeightStored(old(store), Pair(msg.signer.value, msg.contract.value)) == Some(0) ==>
                store == old(store)[[2] + msg.signer.value + msg.contract.value := Uint64ToBigEndian(msg.height)]
                  [[1] + Uint64ToBigEndian(msg.height) + msg.signer.value + msg.contract.value
                   := EncodeCall(ScheduledCall(msg.body))]
    {
      AddAnswered(params, height, View(), msg);
      AddEffect(code, params, height, View(), msg);
      hide HeightStored, Insert, RescheduledAsWritten, RescheduledAsIntended;
      if msg.height <= height { return Reject(InvalidHeight); }
      if msg.height > (height + params.upperBound) % TWO64 { return Reject(TooFarInFuture); }
      if msg.signer.None? { return Reject(BadAddress); }
      if msg.contract.None? { return Reject(BadAddress); }
      var owner := OwnerGuard(msg.owner);
      if owner.Some? { return Reject(owner.value); }
      var balance := Balance(bank, msg.contract.value);
      if balance < params.minimumBalance { return Reject(UnmetMinimumBalance); }
      var p := Pair(msg.signer.value, msg.contract.value);
      var existing := BlockHeightForSignerContract(p);
      if existing.None? { return Crash; }
      if existing.value != 0 {
        ReScheduleCall(p, msg.body, existing.value, msg.height);
      } else {
        AddScheduledCall(p, msg.body, msg.height);
      }
      return Accept;
    }

    method RemoveSchedule(msg: RemoveMsg) returns (r: Response)
      modifies this
      ensures r == AnswerRemove(old(View()), msg)
      ensures View() == AfterRemove(old(View()), msg)
      ensures r.Accept? <==>
                && msg.signer.Some? && msg.contract.Some? && msg.owner.IsOwner?
                && HeightStored(old(store), Pair(msg.signer.value, msg.contract.value)).Some?
      ensures !r.Accept? ==> View() == old(View())
      ensures r.Accept? ==>
                var was := HeightStored(old(store), Pair(msg.signer.value, msg.contract.value)).value;
                store == old(store) - {[2] + msg.signer.value + msg.contract.value,
                  [1] + Uint64ToBigEndian(was) + msg.signer.value + msg.contract.value}
    {
      RemoveAnswered(View(), msg);
      RemoveEffect(View(), msg);
      hide HeightStored, Delete;
      if msg.signer.None? { return Reject(BadAddress); }
      if msg.contract.None? { return Reject(BadAddress); }
      var owner := OwnerGuard(msg.owner);
      if owner.Some? { return Reject(owner.value); }
      var p := Pair(msg.signer.value, msg.contract.value);
      var panicked := RemoveScheduledCall(p);
      if panicked { return Crash; }
      return Accept;
    }

    // ---- The listing ----

    /**
      ScheduledCalls: the listing of the whole by-height family in key order, on every store;
      `None` is a panic on an unreadable height or value.
     */
    method ScheduledCalls() returns (r: Option<seq<QueryScheduledCall>>)
      ensures forall k :: k in KeyList(store, [BY_HEIGHT], None) ==> [BY_HEIGHT] + k in store
      ensures r == ListKeys(store, KeyList(store, [BY_HEIGHT], None))
      ensures forall m: Pending :: Represents(store, m) && AllStandard(m) ==> ListsWhole(m, r)
    {
      hide Represents, Decode, DecodeListedKey, Standard, ListsWhole, ListKeys, KeyList, Prepended;
      ghost var keys := KeyList(store, [BY_HEIGHT], None);
      KeyListExact(store, [BY_HEIGHT], None);
      ListingOfEach(store, keys);
      ghost var last: Option<Bytes> := None;
      var calls := [];
      var key := Seek([BY_HEIGHT], None);
      NothingPrepended(ListKeys(store, keys));
      while key.Some?
        invariant key == FirstAfter(store, [BY_HEIGHT], last)
        invariant forall k :: k in KeyList(store, [BY_HEIGHT], last) ==> [BY_HEIGHT] + k in store
        invariant ListKeys(store, keys) == Prepended(calls, ListKeys(store, KeyList(store, [BY_HEIGHT], last)))
        decreases |KeyList(store, [BY_HEIGHT], last)|
      {
        ListUnfold(store, last, key.value, calls);
        var listed := DecodeListedKey(key.value);
        if listed.None? { return None; }
        ShortContract(key.value);
        ghost var value := store[[BY_HEIGHT] + key.value];
        var call := UnmarshalCall(ScheduledCall([]), store[[BY_HEIGHT] + key.value]);
        if call.Err? { return None; }
        DecodeCallBound(value);
        var c := QueryScheduledCall(listed.value.pair.contract, call.value.callBody,
                                    listed.value.height, listed.value.pair.signer);
        assert ListKey(store, key.value) == Some(c);
        calls := calls + [c];
        last := key;
        key := Seek([BY_HEIGHT], key);
      }
      ListEnd(store, last, calls);
      return Some(calls);
    }

    // ---- Runs ----

    /** Plays any run of events on the store. */
    method Play(start: nat, events: seq<Event>) returns (panicked: bool, height: nat)
      requires start + |events| < TWO63
      modifies this
      ensures panicked <==> Steps(code, params, Block(start, old(View())), events).Panic?
      ensures !panicked ==> Steps(code, params, Block(start, old(View())), events) == Done(Block(height, View()))
      ensures !panicked ==> height == start + EndBlocks(events)
    {
      hide Iterate, AfterAdd, AfterRemove;
      height := start;
      var i := 0;
      assert events[0..] == events;
      while i < |events|
        invariant 0 <= i <= |events| && height <= start + i
        invariant Steps(code, params, Block(start, old(View())), events)
               == Steps(code, params, Block(height, View()), events[i..])
      {
        assert events[i..][0] == events[i] && events[i..][1..] == events[i + 1..];
        ghost var before := Block(height, View());
        match events[i] {
          case Add(msg) =>
            var response := AddSchedule(height, msg);
          case Remove(msg) =>
            var response := RemoveSchedule(msg);
          case External(moved) =>
            bank := moved;
          case EndBlock(env) =>
            panicked := EndBlocker(height, env);
            if panicked { return; }
            height := height + 1;
        }
        assert Chain.Step(code, params, before, events[i]) == Done(Block(height, View()));
        i := i + 1;
      }
      assert events[i..] == [];
      panicked := false;
      StepsHeightExact(code, params, Block(start, old(View())), events);
    }
  }

  // ---- Small facts the methods use ----

  lemma EmptyIsZero()
    ensures BigEndianToUint64([]) == Some(0)
  {
  }

  lemma StoredIs(store: Store, p: Pair)
    ensures HeightStored(store, p) == if SignerKey(p) in store then BigEndianToUint64(store[SignerKey(p)]) else Some(0)
  {
  }

  lemma KeysUnderIs(store: Store, prefix: Bytes, after: Option<Bytes>)
    ensures KeysUnder(store, prefix, after)
         == set k | k in store && prefix <= k && Follows(after, k[|prefix|..]) :: k[|prefix|..]
  {
  }

  lemma ShortContract(key: Bytes)
    requires DecodeListedKey(key).Some?
    ensures |DecodeListedKey(key).value.pair.signer| <= 20 && |DecodeListedKey(key).value.pair.contract| <= 32
  {
  }

  /**
    A listing of a map: it succeeds exactly when every stored value decodes, and then it goes
    through the whole map in order.
   */
  ghost predicate ListsWhole(m: Pending, r: Option<seq<QueryScheduledCall>>)
    requires AllStandard(m)
  {
    && (r.Some? <==> forall p :: p in m ==> DecodedBody(m[p]).Some?)
    && (r.Some? ==> exists order :: Listing(m, order, r.value))
  }

  lemma ListingOfEach(store: Store, keys: seq<Bytes>)
    requires keys == KeyList(store, [BY_HEIGHT], None)
    requires forall k :: k in keys ==> [BY_HEIGHT] + k in store
    ensures forall m: Pending :: Represents(store, m) && AllStandard(m) ==> ListsWhole(m, ListKeys(store, keys))
  {
    hide Represents, Standard, Listing, ListKeys, KeyList, DecodedBody;
    forall m: Pending | Represents(store, m) && AllStandard(m) ensures ListsWhole(m, ListKeys(store, keys)) {
      var order := ListingExact(store, m, keys);
    }
  }

  /** The calls listed so far in front of what is still to come. */
  function Prepended(calls: seq<QueryScheduledCall>, rest: Option<seq<QueryScheduledCall>>)
    : Option<seq<QueryScheduledCall>>
  {
    if rest.None? then None else Some(calls + rest.value)
  }

  lemma ListUnfold(store: Store, last: Option<Bytes>, key: Bytes, calls: seq<QueryScheduledCall>)
    requires FirstAfter(store, [BY_HEIGHT], last) == Some(key)
    requires forall k :: k in KeyList(store, [BY_HEIGHT], last) ==> [BY_HEIGHT] + k in store
    ensures |KeyList(store, [BY_HEIGHT], Some(key))| < |KeyList(store, [BY_HEIGHT], last)|
    ensures forall k :: k in KeyList(store, [BY_HEIGHT], Some(key)) ==> [BY_HEIGHT] + k in store
    ensures Prepended(calls, ListKeys(store, KeyList(store, [BY_HEIGHT], last)))
         == if ListKey(store, key).None? then None
            else Prepended(calls + [ListKey(store, key).value], ListKeys(store, KeyList(store, [BY_HEIGHT], Some(key))))
  {
    hide KeysUnder, ListKey;
    var ahead, rest := KeyList(store, [BY_HEIGHT], last), KeyList(store, [BY_HEIGHT], Some(key));
    assert ahead[0] == key && ahead[1..] == rest;
    if ListKey(store, key).Some? && ListKeys(store, rest).Some? {
      var c := ListKey(store, key).value;
      assert calls + ([c] + ListKeys(store, rest).value) == calls + [c] + ListKeys(store, rest).value;
    }
  }

  lemma ListEnd(store: Store, last: Option<Bytes>, calls: seq<QueryScheduledCall>)
    requires FirstAfter(store, [BY_HEIGHT], last) == None
    ensures Prepended(calls, ListKeys(store, KeyList(store, [BY_HEIGHT], last))) == Some(calls)
  {
    assert calls + [] == calls;
  }

  lemma NothingPrepended(rest: Option<seq<QueryScheduledCall>>)
    ensures Prepended([], rest) == rest
  {
    if rest.Some? {
      assert [] + rest.value == rest.value;
    }
  }
}
