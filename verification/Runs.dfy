/**
  Theorems over whole passes and whole runs of the scheduler.
 */
module Runs {
  import opened Machine
  import opened Messages
  import opened Keys
  import opened Index
  import opened Scheduler
  import opened History

  // ---- The invariant ----

  /** Every pending height lies in [lo, hi], over the true integers. */
  predicate Windowed(m: Pending, lo: nat, hi: nat)
  {
    forall p :: p in m ==> lo <= m[p].height <= hi
  }

  /** The world is what its history adds up to. */
  predicate Explained(start: Bank, w: World)
  {
    w.pending == Replay(w.log) && w.bank == ReplayBank(start, w.log) && Truthful(start, w.log)
  }

  /** What holds between blocks: nothing is stranded below the current height or beyond the upper bound. */
  predicate Sound(start: Bank, params: Params, s: State)
  {
    && AllStandard(s.world.pending) && Clean(s.world.pending)
    && Windowed(s.world.pending, s.height, s.height + params.upperBound)
    && Explained(start, s.world)
  }

  function Genesis(bank: Bank): World
  {
    World(map[], bank, [])
  }

  lemma GenesisSound(params: Params, bank: Bank, height: nat)
    ensures Sound(bank, params, State(height, Genesis(bank)))
  {
  }

  // ---- One due call ----

  lemma GasWithinLimit(gasLimit: uint64, exec: ExecReply)
    ensures Execute(gasLimit, exec).Finished? ==> Execute(gasLimit, exec).gas <= gasLimit
    ensures Execute(gasLimit, exec).Finished? && exec.gas > gasLimit ==>
              Execute(gasLimit, exec) == Finished(gasLimit, 0, true)
    ensures Execute(gasLimit, exec).Panicked? <==>
              exec.panics || (exec.gas <= gasLimit && 1 <= |exec.result| <= 7)
  {
  }

  /** A message is accepted exactly in the window, from an owner, for a contract with the minimum balance. */
  lemma AcceptedIff(params: Params, height: uint64, bank: Bank, msg: AddMsg)
    ensures AddGuard(params, height, bank, msg).None? <==>
              && height < msg.height <= height + params.upperBound && height + params.upperBound < TWO64
              && msg.signer.Some? && msg.contract.Some? && msg.owner.IsOwner?
              && Balance(bank, msg.contract.value) >= params.minimumBalance
  {
    InWindowExact(height, params.upperBound, msg.height);
  }

  /** A due call runs only for an owner and from the minimum balance. */
  predicate MayRun(w: World, params: Params, p: Pair, reply: Reply)
  {
    reply.owner.IsOwner? && Balance(w.bank, p.contract) >= params.minimumBalance
  }

  /** A contract makes the callback panic by its balance, by a VM panic, or by returning one to seven bytes. */
  predicate MustPanic(w: World, params: Params, p: Pair, reply: Reply)
  {
    var balance := Balance(w.bank, p.contract);
    MayRun(w, params, p, reply) &&
    (balance >= TWO64 || reply.exec.panics || (reply.exec.gas <= balance && 1 <= |reply.exec.result| <= 7))
  }

  lemma CallbackPanicsIff(w: World, params: Params, height: uint64, p: Pair, body: Body, reply: Reply)
    requires p !in w.pending
    ensures Callback(w, params, height, p, body, reply).Panic? <==> MustPanic(w, params, p, reply)
  {
    hide Charge, Requeue;
  }

  /** One visit panics exactly when the stored value does not decode or the contract makes the callback panic. */
  lemma ConsumeOnePanicsIff(w: World, params: Params, height: uint64, p: Pair, reply: Reply)
    requires p in w.pending
    ensures ConsumeOne(w, params, height, p, reply).Panic?
       <==> DecodedBody(w.pending[p]).None? || MustPanic(w, params, p, reply)
    ensures !ConsumeOne(w, params, height, p, reply).Garbled?
  {
    hide DecodedBody, Callback;
    if DecodedBody(w.pending[p]).Some? {
      CallbackPanicsIff(Consume(w, p, height), params, height, p, DecodedBody(w.pending[p]).value, reply);
    }
  }

  /** What a call is charged: the gas it asks for, but no more than its balance before it ran. */
  function ChargeFor(w: World, p: Pair, reply: Reply): nat
  {
    var balance := Balance(w.bank, p.contract);
    if reply.exec.gas < balance then reply.exec.gas else balance
  }

  /** The whole effect of a callback on the bank: a call that ran pays, whether or not it failed. */
  lemma ChargedExactly(w: World, params: Params, height: uint64, p: Pair, body: Body, reply: Reply)
    requires p !in w.pending && Callback(w, params, height, p, body, reply).Done?
    ensures Callback(w, params, height, p, body, reply).value.bank
         == if !MayRun(w, params, p, reply) then w.bank
            else if reply.transferable && ChargeFor(w, p, reply) <= Balance(reply.exec.bank, p.contract)
              then Collect(reply.exec.bank, p.contract, ChargeFor(w, p, reply))
            else reply.exec.bank
  {
  }

  /**
    A call is scheduled again exactly when it ran, succeeded within its gas, kept the minimum
    balance and named a height in the window.
   */
  lemma RequeuedIff(w: World, params: Params, height: uint64, p: Pair, body: Body, reply: Reply)
    requires p !in w.pending && Callback(w, params, height, p, body, reply).Done?
    ensures var w' := Callback(w, params, height, p, body, reply).value;
      && (p in w'.pending <==>
            && MayRun(w, params, p, reply)
            && reply.exec.gas <= Balance(w.bank, p.contract) && !reply.exec.failed
            && Balance(w'.bank, p.contract) >= params.minimumBalance
            && |reply.exec.result| >= 8
            && height < FromBigEndian(reply.exec.result[..8]) <= height + params.upperBound
            && height + params.upperBound < TWO64)
      && (p in w'.pending ==> w'.pending[p] == Entry(FromBigEndian(reply.exec.result[..8]), body, false))
  {
    if |reply.exec.result| >= 8 {
      FromBigEndianBound(reply.exec.result[..8]);
      Pow256Of8();
      InWindowExact(height, params.upperBound, FromBigEndian(reply.exec.result[..8]));
    }
  }

  /** What a call appends to the history, from what the environment answers alone. */
  function LogOf(w: World, params: Params, height: uint64, p: Pair, body: Body, reply: Reply, balanceAfter: nat): Log
  {
    var exec := reply.exec;
    var before := Balance(w.bank, p.contract);
    if !reply.owner.IsOwner? || before < params.minimumBalance then []
    else
      var failed := exec.failed || exec.gas > before;
      var gas := if exec.gas <= before then exec.gas else before;
      var paid := reply.transferable && gas <= Balance(exec.bank, p.contract);
      var again := !failed && balanceAfter >= params.minimumBalance && |exec.result| >= 8
                   && height < FromBigEndian(exec.result[..8]) <= height + params.upperBound
                   && height + params.upperBound < 0x1_0000_0000_0000_0000;
      [Outside(w.bank, exec.bank), Executed(p, body, failed)]
      + (if paid then [Fee(p.contract, gas, before)] else [])
      + (if again then
           FromBigEndianBound(exec.result[..8]);
           Pow256Of8();
           [Requeued(p, Entry(FromBigEndian(exec.result[..8]), body, false))]
         else [])
  }

  /**
    The history records a call as failed exactly when it reported an error or asked for more
    gas than its contract had, its fee exactly when it was paid, and its re-scheduling exactly
    when it was scheduled again; and nothing at all for a call that may not run.
   */
  lemma CallbackLogged(w: World, params: Params, height: uint64, p: Pair, body: Body, reply: Reply)
    requires p !in w.pending && Callback(w, params, height, p, body, reply).Done?
    ensures var w' := Callback(w, params, height, p, body, reply).value;
      w'.log == w.log + LogOf(w, params, height, p, body, reply, Balance(w'.bank, p.contract))
  {
    hide Collect, FromBigEndian;
    if |reply.exec.result| >= 8 {
      FromBigEndianBound(reply.exec.result[..8]);
      Pow256Of8();
      InWindowExact(height, params.upperBound, FromBigEndian(reply.exec.result[..8]));
    }
  }

  /** A fee leaves one account, reaches the collector, and touches no other account; an unknown account has nothing. */
  lemma CollectMoves(bank: Bank, payer: Bytes, amount: nat, other: Bytes)
    requires amount <= Balance(bank, payer)
    ensures Collect(bank, payer, amount).collector == bank.collector + amount
    ensures Balance(Collect(bank, payer, amount), payer) == Balance(bank, payer) - amount
    ensures other != payer ==> Balance(Collect(bank, payer, amount), other) == Balance(bank, other)
    ensures Balance(bank, other) == if other in bank.balances then bank.balances[other] else 0
  {
  }

  predicate JustConsumed(log: Log, p: Pair, body: Body)
  {
    |log| >= 1 && log[|log| - 1].Consumed? && log[|log| - 1].pair == p && log[|log| - 1].entry.body == body
  }

  lemma ChargeExplained(start: Bank, w: World, p: Pair, body: Body, reply: Reply, gas: nat, failed: bool)
    requires Explained(start, w) && JustConsumed(w.log, p, body) && LatestBody(w.log, p) == Some(body)
    requires gas <= Balance(w.bank, p.contract)
    ensures var w' := Charge(w, p, body, reply, gas, Balance(w.bank, p.contract), failed);
      && Explained(start, w') && w'.pending == w.pending
      && (!failed ==> JustSucceeded(w'.log, p, body))
  {
    hide Replay, ReplayBank, Truthful, LatestBody;
    var bank := reply.exec.bank;
    var ran, done := Outside(w.bank, bank), Executed(p, body, failed);
    Extend(start, w.log, ran);
    Extend(start, w.log + [ran], done);
    assert w.log + [ran, done] == w.log + [ran] + [done];
    if reply.transferable && gas <= Balance(bank, p.contract) {
      Extend(start, w.log + [ran] + [done], Fee(p.contract, gas, Balance(w.bank, p.contract)));
    }
  }

  lemma RequeueExplained(start: Bank, w: World, p: Pair, e: Entry)
    requires Explained(start, w) && p !in w.pending && JustSucceeded(w.log, p, e.body)
    ensures Explained(start, Requeue(w, p, e))
  {
    hide Replay, ReplayBank, Truthful, LatestBody;
    Extend(start, w.log, Requeued(p, e));
  }

  lemma CallbackExplained(start: Bank, w: World, params: Params, height: uint64, p: Pair, body: Body, reply: Reply)
    requires Explained(start, w) && JustConsumed(w.log, p, body) && LatestBody(w.log, p) == Some(body)
    requires p !in w.pending && Callback(w, params, height, p, body, reply).Done?
    ensures Explained(start, Callback(w, params, height, p, body, reply).value)
  {
    hide Explained, JustConsumed, LatestBody, Charge, Requeue, JustSucceeded;
    var balance := Balance(w.bank, p.contract);
    if balance < TWO64 && Execute(balance, reply.exec).Finished? {
      var run := Execute(balance, reply.exec);
      GasWithinLimit(balance, reply.exec);
      ChargeExplained(start, w, p, body, reply, run.gas, run.failed);
      var charged := Charge(w, p, body, reply, run.gas, balance, run.failed);
      if !run.failed {
        RequeueExplained(start, charged, p, Entry(run.nextBlock, body, false));
      }
    }
  }

  lemma ConsumeExplained(start: Bank, w: World, p: Pair, height: nat)
    requires Explained(start, w) && p in w.pending && w.pending[p].height == height
    ensures Explained(start, Consume(w, p, height))
    ensures JustConsumed(Consume(w, p, height).log, p, w.pending[p].body)
    ensures LatestBody(Consume(w, p, height).log, p) == Some(w.pending[p].body)
  {
    hide Replay, ReplayBank, Truthful, LatestBody;
    PendingIsLatest(start, w.log, p);
    Extend(start, w.log, Consumed(p, w.pending[p], height));
  }

  lemma ConsumeOneExplained(start: Bank, w: World, params: Params, height: uint64, p: Pair, reply: Reply)
    requires Explained(start, w) && Clean(w.pending) && p in w.pending && w.pending[p].height == height
    requires ConsumeOne(w, params, height, p, reply).Done?
    ensures Explained(start, ConsumeOne(w, params, height, p, reply).value)
  {
    hide Explained, DecodedBody, Callback, JustConsumed;
    DecodedBodyOfGood(w.pending[p]);
    ConsumeExplained(start, w, p, height);
    CallbackExplained(start, Consume(w, p, height), params, height, p, w.pending[p].body, reply);
  }

  /** What one visit does to the pending calls: the visited one goes, and may come back inside the window. */
  lemma ConsumeOnePending(w: World, params: Params, height: uint64, p: Pair, reply: Reply)
    requires p in w.pending && ConsumeOne(w, params, height, p, reply).Done?
    ensures DecodedBody(w.pending[p]).Some?
    ensures AtMostRequeued(w.pending - {p}, ConsumeOne(w, params, height, p, reply).value.pending, p,
                           DecodedBody(w.pending[p]).value, height, params.upperBound)
    ensures w.log + [Consumed(p, w.pending[p], height)] <= ConsumeOne(w, params, height, p, reply).value.log
  {
    hide DecodedBody, Callback;
  }

  // ---- A pass ----

  /** A pass keeps the invariant, and leaves every pending call strictly above its height. */
  lemma {:induction false} PassKeeps(start: Bank, w: World, params: Params, height: uint64, env: Environment)
    requires AllStandard(w.pending) && Clean(w.pending) && Explained(start, w)
    requires Windowed(w.pending, height, height + params.upperBound)
    requires Pass(w, params, height, env).Done?
    ensures var w' := Pass(w, params, height, env).value;
      && AllStandard(w'.pending) && Clean(w'.pending) && Explained(start, w')
      && Windowed(w'.pending, height + 1, height + params.upperBound)
    decreases |Due(w.pending, height)|
  {
    hide ConsumeOne, Explained, DecodedBody;
    var due := Due(w.pending, height);
    if due == {} {
      forall p | p in w.pending ensures w.pending[p].height != height {
        assert p in due <==> w.pending[p].height == height;
      }
    } else {
      var p := First(due);
      var w' := ConsumeOne(w, params, height, p, env(Tail(p))).value;
      ConsumeOneDue(w, params, height, p, env(Tail(p)));
      ConsumeOneExplained(start, w, params, height, p, env(Tail(p)));
      ConsumeOnePending(w, params, height, p, env(Tail(p)));
      PassKeeps(start, w', params, height, env);
    }
  }

  /** The pairs consumed by a stretch of history, in the order of consumption. */
  function Visited(log: Log): seq<Pair>
  {
    if log == [] then []
    else (if log[0].Consumed? then [log[0].pair] else []) + Visited(log[1..])
  }

  predicate InKeyOrder(ps: seq<Pair>)
  {
    forall i, j :: 0 <= i < j < |ps| ==> PairBefore(ps[i], ps[j])
  }

  lemma {:induction false} VisitedConcat(a: Log, b: Log)
    ensures Visited(a + b) == Visited(a) + Visited(b)
  {
    if a == [] {
      assert a + b == b;
    } else {
      assert (a + b)[1..] == a[1..] + b;
      VisitedConcat(a[1..], b);
      var head := if a[0].Consumed? then [a[0].pair] else [];
      assert Visited(a + b) == head + Visited(a[1..] + b);
      assert head + (Visited(a[1..]) + Visited(b)) == head + Visited(a[1..]) + Visited(b);
    }
  }

  /** The callback itself consumes nothing. */
  lemma CallbackVisits(w: World, params: Params, height: uint64, p: Pair, body: Body, reply: Reply)
    requires p !in w.pending && Callback(w, params, height, p, body, reply).Done?
    ensures Visited(Callback(w, params, height, p, body, reply).value.log[|w.log|..]) == []
  {
    var w' := Callback(w, params, height, p, body, reply).value;
    NoConsumeNoVisit(w'.log[|w.log|..]);
  }

  lemma {:induction false} NoConsumeNoVisit(log: Log)
    requires forall x :: x in log ==> !x.Consumed?
    ensures Visited(log) == []
  {
    if log != [] {
      NoConsumeNoVisit(log[1..]);
    }
  }

  lemma ConsumeOneVisits(w: World, params: Params, height: uint64, p: Pair, reply: Reply)
    requires p in w.pending && ConsumeOne(w, params, height, p, reply).Done?
    ensures w.log <= ConsumeOne(w, params, height, p, reply).value.log
    ensures Visited(ConsumeOne(w, params, height, p, reply).value.log[|w.log|..]) == [p]
  {
    hide DecodedBody, Callback;
    var body := DecodedBody(w.pending[p]).value;
    var mid := Consume(w, p, height);
    var w' := ConsumeOne(w, params, height, p, reply).value;
    CallbackVisits(mid, params, height, p, body, reply);
    var first := [Consumed(p, w.pending[p], height)];
    assert w'.log[|w.log|..] == first + w'.log[|mid.log|..];
    VisitedConcat(first, w'.log[|mid.log|..]);
    assert first[1..] == [];
  }

  lemma VisitedStretches(a: Log, b: Log, c: Log)
    requires a <= b <= c
    ensures Visited(c[|a|..]) == Visited(b[|a|..]) + Visited(c[|b|..])
  {
    assert c[|a|..] == b[|a|..] + c[|b|..];
    VisitedConcat(b[|a|..], c[|b|..]);
  }

  lemma NothingVisited()
    ensures Visited([]) == [] && InKeyOrder([])
  {
  }

  lemma InKeyOrderCons(p: Pair, rest: seq<Pair>)
    requires InKeyOrder(rest) && forall q :: q in rest ==> PairBefore(p, q)
    ensures InKeyOrder([p] + rest)
  {
  }

  /**
    A pass visits exactly the calls that were due when it started, each once, in key order,
    although it deletes and inserts as it goes; and when it is over none is due.
   */
  lemma {:induction false} PassVisits(w: World, params: Params, height: uint64, env: Environment)
    requires AllStandard(w.pending) && Pass(w, params, height, env).Done?
    ensures var w' := Pass(w, params, height, env).value;
      && w.log <= w'.log
      && (forall p :: p in Visited(w'.log[|w.log|..]) <==> p in Due(w.pending, height))
      && InKeyOrder(Visited(w'.log[|w.log|..]))
      && Due(w'.pending, height) == {}
    decreases |Due(w.pending, height)|
  {
    hide ConsumeOne, Visited, InKeyOrder, PairBefore;
    var due := Due(w.pending, height);
    if due != {} {
      var p := First(due);
      var w1 := ConsumeOne(w, params, height, p, env(Tail(p))).value;
      ConsumeOneDue(w, params, height, p, env(Tail(p)));
      ConsumeOneVisits(w, params, height, p, env(Tail(p)));
      PassVisits(w1, params, height, env);
      var w' := Pass(w1, params, height, env).value;
      VisitedStretches(w.log, w1.log, w'.log);
      InKeyOrderCons(p, Visited(w'.log[|w1.log|..]));
    } else {
      assert w.log[|w.log|..] == [];
      NothingVisited();
    }
  }

  // ---- Runs ----

  lemma AddKeeps(start: Bank, params: Params, s: State, msg: AddMsg)
    requires Sound(start, params, s) && s.height < TWO63
    requires AddSchedule(Intended, params, s.height, s.world, msg).Done?
    ensures Sound(start, params, State(s.height, AddSchedule(Intended, params, s.height, s.world, msg).value))
  {
    hide Replay, ReplayBank, Truthful;
    var w := s.world;
    if AddGuard(params, s.height, w.bank, msg).None? {
      var p := Pair(msg.signer.value, msg.contract.value);
      AcceptedIff(params, s.height, w.bank, msg);
      Extend(start, w.log, Accepted(p, Entry(msg.height, msg.body, false), p in w.pending));
    }
  }

  lemma RemoveKeeps(start: Bank, params: Params, s: State, msg: RemoveMsg)
    requires Sound(start, params, s) && RemoveSchedule(s.world, msg).Done?
    ensures Sound(start, params, State(s.height, RemoveSchedule(s.world, msg).value))
  {
    hide Replay, ReplayBank, Truthful;
    var w := s.world;
    if RemoveGuard(msg).None? {
      var p := Pair(msg.signer.value, msg.contract.value);
      if p in w.pending {
        Extend(start, w.log, Removed(p, w.pending[p]));
      }
    }
  }

  lemma ExternalKeeps(start: Bank, params: Params, s: State, bank: Bank)
    requires Sound(start, params, s)
    ensures Sound(start, params,
                  State(s.height, World(s.world.pending, bank, s.world.log + [Outside(s.world.bank, bank)])))
  {
    hide Replay, ReplayBank, Truthful;
    Extend(start, s.world.log, Outside(s.world.bank, bank));
  }

  lemma EndBlockKeeps(start: Bank, params: Params, s: State, env: Environment)
    requires Sound(start, params, s) && s.height < TWO63 - 1
    requires Pass(s.world, params, s.height, env).Done?
    ensures Sound(start, params, State(s.height + 1, Pass(s.world, params, s.height, env).value))
  {
    hide Pass, Explained;
    PassKeeps(start, s.world, params, s.height, env);
  }

  lemma ApplyKeeps(start: Bank, params: Params, s: State, event: Event)
    requires Sound(start, params, s) && s.height < TWO63 - 1
    requires Apply(Intended, params, s, event).Done?
    ensures Sound(start, params, Apply(Intended, params, s, event).value)
  {
    hide Pass, AddSchedule, RemoveSchedule, DueReadable;
    match event
    case Add(msg) => AddKeeps(start, params, s, msg);
    case Remove(msg) => RemoveKeeps(start, params, s, msg);
    case External(bank) => ExternalKeeps(start, params, s, bank);
    case EndBlock(env) => EndBlockKeeps(start, params, s, env);
  }

  lemma {:induction false} RunKeeps(start: Bank, params: Params, s: State, events: seq<Event>)
    requires Sound(start, params, s) && s.height + |events| < TWO63
    requires Run(Intended, params, s, events).Done?
    ensures Sound(start, params, Run(Intended, params, s, events).value)
    decreases |events|
  {
    hide Apply, Sound;
    if events != [] {
      assert AllStandard(s.world.pending) by { SoundStandard(start, params, s); }
      ApplyKeeps(start, params, s, events[0]);
      RunKeeps(start, params, Apply(Intended, params, s, events[0]).value, events[1..]);
    }
  }

  lemma SoundStandard(start: Bank, params: Params, s: State)
    requires Sound(start, params, s)
    ensures AllStandard(s.world.pending)
  {
  }
}
