/**
  What each operation answers and what it leaves behind, in terms of the message, the answers of
  the environment and the bytes of the store: both message servers and one visit of EndBlocker.
 */
module Servers {
  import opened Machine
  import opened Messages
  import opened Keys
  import opened Index
  import opened Scheduler
  import opened Runs
  import opened Chain
  import opened Refinement
  import opened Layout

  // ---- AddSchedule ----

  /**
    Each answer of AddSchedule with its exact condition: the height is checked first, then the
    addresses, the owner, the balance, and last the height stored for the pair is read.
   */
  lemma AddAnswered(params: Params, height: uint64, l: Ledger, msg: AddMsg)
    ensures var r := AnswerAdd(params, height, l, msg);
      var last := (height + params.upperBound) % 0x1_0000_0000_0000_0000;
      var inTime := height < msg.height <= last;
      var named := inTime && msg.signer.Some? && msg.contract.Some?;
      var owned := named && msg.owner.IsOwner?;
      var funded := owned && Balance(l.bank, msg.contract.value) >= params.minimumBalance;
      && (r == Reject(InvalidHeight) <==> msg.height <= height)
      && (r == Reject(TooFarInFuture) <==> height < msg.height && last < msg.height)
      && (r == Reject(BadAddress) <==> inTime && (msg.signer.None? || msg.contract.None?))
      && (r == Reject(OwnerQueryError) <==> named && (msg.owner.QueryFailed? || msg.owner.Unparsable?))
      && (r == Reject(Unauthorized) <==> named && msg.owner.NotOwner?)
      && (r == Reject(UnmetMinimumBalance) <==> owned && Balance(l.bank, msg.contract.value) < params.minimumBalance)
      && (r == Crash <==> funded && HeightStored(l.store, Pair(msg.signer.value, msg.contract.value)).None?)
      && (r == Accept <==> funded && HeightStored(l.store, Pair(msg.signer.value, msg.contract.value)).Some?)
  {
    hide HeightStored;
  }

  /**
    A message that is not accepted changes nothing. An accepted one that reads height zero
    writes the message's own height and body under the pair's two keys; any other first deletes
    the keys at the height read, and as written puts each value under the other key.
   */
  lemma AddEffect(code: Code, params: Params, height: uint64, l: Ledger, msg: AddMsg)
    ensures var l' := AfterAdd(code, params, height, l, msg);
      && (!AnswerAdd(params, height, l, msg).Accept? ==> l' == l)
      && (AnswerAdd(params, height, l, msg).Accept? ==>
            var signer, contract := msg.signer.value, msg.contract.value;
            var was := HeightStored(l.store, Pair(signer, contract)).value;
            var at, call := Uint64ToBigEndian(msg.height), EncodeCall(ScheduledCall(msg.body));
            var signerKey, heightKey := [2] + signer + contract, [1] + at + signer + contract;
            var cleared := if was == 0 then l.store
                           else l.store - {signerKey, [1] + Uint64ToBigEndian(was) + signer + contract};
            l'.bank == l.bank &&
            l'.store == if was != 0 && code.AsWritten? then cleared[signerKey := call][heightKey := at]
                        else cleared[signerKey := at][heightKey := call])
  {
    hide HeightStored, AddGuard, EncodeCall, Place, Move;
    if AnswerAdd(params, height, l, msg).Accept? {
      var p := Pair(msg.signer.value, msg.contract.value);
      var was := HeightStored(l.store, p).value;
      PlaceLayout(l, p, msg.body, msg.height);
      MoveLayout(code, l, p, msg.body, was, msg.height);
    }
  }

  /**
    Over a represented map: an accepted message leaves the pair pending with exactly the
    message's height and body, well placed unless the code as written moved it.
   */
  lemma AddStores(code: Code, params: Params, height: uint64, l: Ledger, m: Pending, msg: AddMsg)
    requires AnswerAdd(params, height, l, msg).Accept? && |msg.signer.value| == 20
    requires Represents(l.store, m) && Positive(m)
    requires var p := Pair(msg.signer.value, msg.contract.value); p in m ==> !m[p].swapped
    ensures var p := Pair(msg.signer.value, msg.contract.value);
      Represents(AfterAdd(code, params, height, l, msg).store,
                 m[p := Entry(msg.height, msg.body, code.AsWritten? && p in m)])
  {
    hide HeightStored, AddGuard, Represents, Insert, RescheduledAsWritten, RescheduledAsIntended;
    var p := Pair(msg.signer.value, msg.contract.value);
    StoredHeight(l.store, m, p);
    if p in m {
      RescheduleRepresents(l.store, m, p, msg.body, msg.height);
    } else {
      RepresentsInsert(l.store, m, p, Entry(msg.height, msg.body, false));
    }
  }

  /** The same on the map and its history, which gains exactly the message's height and body. */
  lemma AddRecorded(code: Code, params: Params, height: uint64, w: World, msg: AddMsg)
    requires AddSchedule(code, params, height, w, msg).Done?
    ensures var w' := AddSchedule(code, params, height, w, msg).value;
      if height < msg.height <= height + params.upperBound && height + params.upperBound < 0x1_0000_0000_0000_0000
         && msg.signer.Some? && msg.contract.Some? && msg.owner.IsOwner?
         && Balance(w.bank, msg.contract.value) >= params.minimumBalance
      then
        var p := Pair(msg.signer.value, msg.contract.value);
        var e := Entry(msg.height, msg.body, code.AsWritten? && p in w.pending);
        w' == World(w.pending[p := e], w.bank, w.log + [Accepted(p, e, p in w.pending)])
      else w' == w
  {
    AcceptedIff(params, height, w.bank, msg);
  }

  // ---- RemoveSchedule ----

  /** Each answer of RemoveSchedule with its exact condition: only an owner is ever answered with a removal. */
  lemma RemoveAnswered(l: Ledger, msg: RemoveMsg)
    ensures var r := AnswerRemove(l, msg);
      var named := msg.signer.Some? && msg.contract.Some?;
      && (r == Reject(BadAddress) <==> !named)
      && (r == Reject(OwnerQueryError) <==> named && (msg.owner.QueryFailed? || msg.owner.Unparsable?))
      && (r == Reject(Unauthorized) <==> named && msg.owner.NotOwner?)
      && (r == Crash <==> named && msg.owner.IsOwner?
                          && HeightStored(l.store, Pair(msg.signer.value, msg.contract.value)).None?)
      && (r == Accept <==> named && msg.owner.IsOwner?
                           && HeightStored(l.store, Pair(msg.signer.value, msg.contract.value)).Some?)
  {
    hide HeightStored;
  }

  /** A removal that is not accepted changes nothing; an accepted one deletes the two keys at the height read. */
  lemma RemoveEffect(l: Ledger, msg: RemoveMsg)
    ensures !AnswerRemove(l, msg).Accept? ==> AfterRemove(l, msg) == l
    ensures AnswerRemove(l, msg).Accept? ==>
              var signer, contract := msg.signer.value, msg.contract.value;
              var was := HeightStored(l.store, Pair(signer, contract)).value;
              && AfterRemove(l, msg).bank == l.bank
              && AfterRemove(l, msg).store
                 == l.store - {[2] + signer + contract, [1] + Uint64ToBigEndian(was) + signer + contract}
  {
    hide HeightStored, RemoveGuard, Drop;
    if AnswerRemove(l, msg).Accept? {
      var p := Pair(msg.signer.value, msg.contract.value);
      DropLayout(l, p, HeightStored(l.store, p).value);
    }
  }

  /** Over a represented map: an accepted removal takes exactly its own pair out. */
  lemma RemoveTakesOut(l: Ledger, m: Pending, msg: RemoveMsg)
    requires AnswerRemove(l, msg).Accept? && |msg.signer.value| == 20
    requires Represents(l.store, m) && Clean(m)
    ensures Represents(AfterRemove(l, msg).store, m - {Pair(msg.signer.value, msg.contract.value)})
  {
    hide HeightStored, RemoveGuard, Represents, Delete;
    var p := Pair(msg.signer.value, msg.contract.value);
    StoredHeight(l.store, m, p);
    if p in m {
      RepresentsRemove(l.store, m, p);
    } else {
      RepresentsRemoveAbsent(l.store, m, p, 0);
      assert m - {p} == m;
    }
  }

  /** The same on the map and its history: nothing is removed but for an owner. */
  lemma RemoveRecorded(w: World, msg: RemoveMsg)
    requires RemoveSchedule(w, msg).Done?
    ensures var w' := RemoveSchedule(w, msg).value;
      if msg.signer.Some? && msg.contract.Some? && msg.owner.IsOwner?
         && Pair(msg.signer.value, msg.contract.value) in w.pending
      then
        var p := Pair(msg.signer.value, msg.contract.value);
        w' == World(w.pending - {p}, w.bank, w.log + [Removed(p, w.pending[p])])
      else w' == w
  {
  }

  // ---- Other modules ----

  /** Between steps the bank may become any other; nothing of this module changes. */
  lemma ExternalEffect(code: Code, params: Params, b: Block, s: State, bank: Bank)
    requires b.height < TWO63 - 1 && s.height < TWO63 - 1 && AllStandard(s.world.pending)
    ensures Chain.Step(code, params, b, External(bank)) == Done(b.(ledger := b.ledger.(bank := bank)))
    ensures Apply(code, params, s, External(bank)).Done?
    ensures var s' := Apply(code, params, s, External(bank)).value;
      s'.height == s.height && s'.world.pending == s.world.pending && s'.world.bank == bank
  {
  }

  // ---- A visit ----

  /**
    What a visit leaves behind, on every store: the two keys of the pair it read are gone; the
    contract has paid if it ran; and the call is back, with the body just read, exactly when it
    succeeded within its gas, kept the minimum balance and named a height in the window.
   */
  lemma VisitEffect(l: Ledger, params: Params, height: uint64, key: Bytes, reply: Reply)
    requires HeightPrefix(height) + key in l.store && Visit(l, params, height, key, reply).Done?
    ensures ReadBody(l.store[HeightPrefix(height) + key]).Some?
    ensures var p, body := DecodeDueKey(height, key), ReadBody(l.store[HeightPrefix(height) + key]).value;
      var l' := Visit(l, params, height, key, reply).value;
      var exec := reply.exec;
      var before := Balance(l.bank, p.contract);
      var ran := reply.owner.IsOwner? && before >= params.minimumBalance;
      var gas := if exec.gas <= before then exec.gas else before;
      var next := if |exec.result| >= 8 then FromBigEndian(exec.result[..8]) else 0;
      var again := ran && exec.gas <= before && !exec.failed && Balance(l'.bank, p.contract) >= params.minimumBalance
                   && height < next <= height + params.upperBound
                   && height + params.upperBound < 0x1_0000_0000_0000_0000;
      var cleared := l.store - {[2] + p.signer + p.contract, [1] + Uint64ToBigEndian(height) + p.signer + p.contract};
      && l'.bank == (if !ran then l.bank
                     else if reply.transferable && gas <= Balance(exec.bank, p.contract)
                       then Collect(exec.bank, p.contract, gas)
                     else exec.bank)
      && l'.store == if again
                     then cleared[[2] + p.signer + p.contract := Uint64ToBigEndian(next)]
                                 [[1] + Uint64ToBigEndian(next) + p.signer + p.contract
                                  := EncodeCall(ScheduledCall(body))]
                     else cleared
  {
    hide Callback, ReadBody, DecodeDueKey, EncodeCall, Place, Drop, FromBigEndian, Collect, HeightPrefix;
    var p, body := DecodeDueKey(height, key), ReadBody(l.store[HeightPrefix(height) + key]).value;
    var w := World(map[], l.bank, []);
    DropLayout(l, p, height);
    ChargedExactly(w, params, height, p, body, reply);
    RequeuedIff(w, params, height, p, body, reply);
    var w' := Callback(w, params, height, p, body, reply).value;
    if p in w'.pending {
      PlaceLayout(Drop(l, p, height).(bank := w'.bank), p, body, w'.pending[p].height);
    }
  }
}
