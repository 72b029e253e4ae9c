/**
  The scheduler as a state machine over the map the store stands for: the two message
  servers, the EndBlocker callback, a whole EndBlocker pass, and runs of events.
  Contract code answers arbitrarily; its answers are parameters of each event.
 */
module Scheduler {
  import opened Machine
  import opened Messages
  import opened Keys
  import opened Index

  /** Which assignment ReScheduleCall makes: the one at keeper.go:94-95, or the one AddScheduledCall makes. */
  datatype Code = AsWritten | Intended

  datatype Params = Params(minimumBalance: nat, upperBound: uint64)

  // ---- The bank, in the one denomination of the minimum balance ----

  datatype Bank = Bank(balances: map<Bytes, nat>, collector: nat)

  function Balance(bank: Bank, account: Bytes): nat
  {
    if account in bank.balances then bank.balances[account] else 0
  }

  /** SendCoinsFromAccountToModule to the fee collector; `false` when the bank refuses. */
  function Collect(bank: Bank, account: Bytes, amount: nat): Bank
    requires amount <= Balance(bank, account)
  {
    Bank(bank.balances[account := Balance(bank, account) - amount], bank.collector + amount)
  }

  // ---- Answers of the environment ----

  datatype OwnerReply = QueryFailed | Unparsable | NotOwner | IsOwner

  /**
    One contract execution: whether the VM panics (other than for gas), the gas the call
    asks for, what it returns, whether it reports an error, and the bank it leaves behind.
   */
  datatype ExecReply = ExecReply(panics: bool, gas: nat, result: Bytes, failed: bool, bank: Bank)

  datatype Reply = Reply(owner: OwnerReply, exec: ExecReply, transferable: bool)

  /** A key is visited at most once in a block, so one reply for each key covers every behaviour. */
  type Environment = Bytes -> Reply

  // ---- Gas metering ----

  datatype Execution = Panicked | Finished(gas: uint64, nextBlock: uint64, failed: bool)

  /**
    executeMsgWithGasLimit: a call that asks for more than the limit is charged the whole
    limit, fails and schedules nothing; any other panic, including that of reading a
    result of one to seven bytes, is raised again.
   */
  function Execute(gasLimit: uint64, exec: ExecReply): Execution
  {
    if exec.panics then Panicked
    else if exec.gas > gasLimit then Finished(gasLimit, 0, true)
    else
      match BigEndianToUint64(exec.result)
      case None => Panicked
      case Some(next) => Finished(exec.gas, next, exec.failed)
  }

  // ---- The scheduling window ----

  /** Both writers' checks, with the 64-bit sum wrapping as in the source. */
  predicate InWindow(height: uint64, upperBound: uint64, h: uint64)
  {
    h > height && h <= (height + upperBound) % TWO64
  }

  /** Over the true integers: exactly the heights in (H, H + UpperBound] when the sum fits, none when it wraps. */
  lemma InWindowExact(height: uint64, upperBound: uint64, h: uint64)
    ensures InWindow(height, upperBound, h) <==> height < h <= height + upperBound && height + upperBound < TWO64
  {
  }

  // ---- History ----

  datatype LogItem =
    | Accepted(pair: Pair, entry: Entry, replaced: bool)
    | Removed(pair: Pair, entry: Entry)
    | Consumed(pair: Pair, entry: Entry, at: nat)
    | Executed(pair: Pair, body: Body, failed: bool)
    | Fee(contract: Bytes, amount: nat, balanceBefore: nat)
    | Requeued(pair: Pair, entry: Entry)
    | Outside(before: Bank, after: Bank)

  datatype World = World(pending: Pending, bank: Bank, log: seq<LogItem>)

  /** A step completes, panics, or leaves the domain of maps of pending calls. */
  datatype Outcome<+T> = Done(value: T) | Panic | Garbled

  predicate AllStandard(m: Pending)
  {
    forall p :: p in m ==> Standard(p)
  }

  // ---- One due call ----

  /** The execution of a due call and the fee for it. The fee is taken even when the call failed. */
  function Charge(w: World, p: Pair, body: Body, reply: Reply, gas: nat, balanceBefore: nat, failed: bool): World
  {
    var bank := reply.exec.bank;
    var log := w.log + [Outside(w.bank, bank), Executed(p, body, failed)];
    if reply.transferable && gas <= Balance(bank, p.contract) then
      World(w.pending, Collect(bank, p.contract, gas), log + [Fee(p.contract, gas, balanceBefore)])
    else
      World(w.pending, bank, log)
  }

  function Requeue(w: World, p: Pair, e: Entry): World
  {
    World(w.pending[p := e], w.bank, w.log + [Requeued(p, e)])
  }

  /** `m'` is `m`, or `m` with the call of `p` scheduled again, with the same body, inside the window. */
  predicate AtMostRequeued(m: Pending, m': Pending, p: Pair, body: Body, height: uint64, upperBound: uint64)
  {
    || m' == m
    || (p in m' && m' == m[p := m'[p]] && m'[p].body == body && !m'[p].swapped
        && InWindow(height, upperBound, m'[p].height))
  }

  /** The callback of EndBlocker, after the pair's entries have been deleted. */
  function Callback(w: World, params: Params, height: uint64, p: Pair, body: Body, reply: Reply): (r: Outcome<World>)
    requires p !in w.pending
    ensures !r.Garbled?
    ensures r.Done? ==> AtMostRequeued(w.pending, r.value.pending, p, body, height, params.upperBound)
    ensures r.Done? ==> w.log <= r.value.log
  {
    var balance := Balance(w.bank, p.contract);
    if !reply.owner.IsOwner? then Done(w)
    else if balance < params.minimumBalance then Done(w)
    else if balance >= TWO64 then Panic
    else
      match Execute(balance, reply.exec)
      case Panicked => Panic
      case Finished(gas, nextBlock, failed) =>
        var charged := Charge(w, p, body, reply, gas, balance, failed);
        if failed then Done(charged)
        else if Balance(charged.bank, p.contract) < params.minimumBalance then Done(charged)
        else if !InWindow(height, params.upperBound, nextBlock) then Done(charged)
        else Done(Requeue(charged, p, Entry(nextBlock, body, false)))
  }

  /** The world once the entries of `p` have been deleted. */
  function Consume(w: World, p: Pair, height: nat): World
    requires p in w.pending
  {
    World(w.pending - {p}, w.bank, w.log + [Consumed(p, w.pending[p], height)])
  }

  /** One iteration of ConsumeScheduledCallsByHeight with the EndBlocker callback. */
  function ConsumeOne(w: World, params: Params, height: uint64, p: Pair, reply: Reply): Outcome<World>
    requires p in w.pending
  {
    match DecodedBody(w.pending[p])
    case None => Panic
    case Some(body) => Callback(Consume(w, p, height), params, height, p, body, reply)
  }

  /** One visit takes exactly one pair off the calls due at this height. */
  lemma ConsumeOneDue(w: World, params: Params, height: uint64, p: Pair, reply: Reply)
    requires AllStandard(w.pending) && p in w.pending && ConsumeOne(w, params, height, p, reply).Done?
    ensures var w' := ConsumeOne(w, params, height, p, reply).value;
      && AllStandard(w'.pending)
      && Due(w'.pending, height) == Due(w.pending, height) - {p}
  {
    hide DecodedBody, Callback;
  }

  // ---- A whole pass ----

  ghost function Pass(w: World, params: Params, height: uint64, env: Environment): Outcome<World>
    requires AllStandard(w.pending)
    decreases |Due(w.pending, height)|
  {
    var due := Due(w.pending, height);
    if due == {} then Done(w)
    else
      var p := First(due);
      match ConsumeOne(w, params, height, p, env(Tail(p)))
      case Panic => Panic
      case Garbled => Garbled
      case Done(w') =>
        ConsumeOneDue(w, params, height, p, env(Tail(p)));
        Pass(w', params, height, env)
  }

  // ---- Messages ----

  datatype AddMsg =
    AddMsg(height: uint64, body: Body, signer: Option<Bytes>, contract: Option<Bytes>, owner: OwnerReply)

  datatype RemoveMsg = RemoveMsg(signer: Option<Bytes>, contract: Option<Bytes>, owner: OwnerReply)

  datatype Rejection =
    | InvalidHeight
    | TooFarInFuture
    | BadAddress
    | OwnerQueryError
    | Unauthorized
    | UnmetMinimumBalance

  function OwnerGuard(owner: OwnerReply): Option<Rejection>
  {
    match owner
    case QueryFailed => Some(OwnerQueryError)
    case Unparsable => Some(OwnerQueryError)
    case NotOwner => Some(Unauthorized)
    case IsOwner => None
  }

  function AddGuard(params: Params, height: uint64, bank: Bank, msg: AddMsg): (r: Option<Rejection>)
    ensures r.None? ==> msg.signer.Some? && msg.contract.Some? && InWindow(height, params.upperBound, msg.height)
  {
    if msg.height <= height then Some(InvalidHeight)
    else if msg.height > (height + params.upperBound) % TWO64 then Some(TooFarInFuture)
    else if msg.signer.None? || msg.contract.None? then Some(BadAddress)
    else if OwnerGuard(msg.owner).Some? then OwnerGuard(msg.owner)
    else if Balance(bank, msg.contract.value) < params.minimumBalance then Some(UnmetMinimumBalance)
    else None
  }

  function RemoveGuard(msg: RemoveMsg): (r: Option<Rejection>)
    ensures r.None? ==> msg.signer.Some? && msg.contract.Some?
  {
    if msg.signer.None? || msg.contract.None? then Some(BadAddress)
    else OwnerGuard(msg.owner)
  }

  /**
    An accepted message inserts or replaces. Addresses of other than the standard lengths, and
    a second message for a pair whose entry is swapped, need not lead to a map of pending calls;
    what they do is stated on the bytes, in module Chain.
   */
  function AddSchedule(code: Code, params: Params, height: uint64, w: World, msg: AddMsg): Outcome<World>
  {
    if AddGuard(params, height, w.bank, msg).Some? then Done(w)
    else
      var p := Pair(msg.signer.value, msg.contract.value);
      if !Standard(p) || (p in w.pending && w.pending[p].swapped) then Garbled
      else
        var e := Entry(msg.height, msg.body, p in w.pending && code.AsWritten?);
        Done(World(w.pending[p := e], w.bank, w.log + [Accepted(p, e, p in w.pending)]))
  }

  function RemoveSchedule(w: World, msg: RemoveMsg): Outcome<World>
  {
    if RemoveGuard(msg).Some? then Done(w)
    else
      var p := Pair(msg.signer.value, msg.contract.value);
      if !Standard(p) || (p in w.pending && w.pending[p].swapped) then Garbled
      else if p !in w.pending then Done(w)
      else Done(World(w.pending - {p}, w.bank, w.log + [Removed(p, w.pending[p])]))
  }

  /** Every call due at `height` has a key the per-height scan takes apart correctly. */
  predicate DueReadable(m: Pending, height: uint64)
  {
    forall p :: p in m && m[p].height == height ==> TrimSafe(height, p)
  }

  // ---- Runs ----

  datatype State = State(height: nat, world: World)

  /** `External` is any other module moving coins between the steps of this one. */
  datatype Event =
    | Add(add: AddMsg)
    | Remove(remove: RemoveMsg)
    | External(bank: Bank)
    | EndBlock(env: Environment)

  /** How many blocks end in a run. */
  function EndBlocks(events: seq<Event>): nat
  {
    if events == [] then 0 else (if events[0].EndBlock? then 1 else 0) + EndBlocks(events[1..])
  }

  ghost function Apply(code: Code, params: Params, s: State, event: Event): (r: Outcome<State>)
    requires s.height < TWO63 - 1 && AllStandard(s.world.pending)
    ensures r.Done? ==> AllStandard(r.value.world.pending) && r.value.height <= s.height + 1
  {
    match event
    case Add(msg) =>
      At(s.height, AddSchedule(code, params, s.height, s.world, msg))
    case Remove(msg) =>
      At(s.height, RemoveSchedule(s.world, msg))
    case External(bank) =>
      Done(State(s.height, World(s.world.pending, bank, s.world.log + [Outside(s.world.bank, bank)])))
    case EndBlock(env) =>
      if !DueReadable(s.world.pending, s.height) then Garbled
      else
        PassStandard(s.world, params, s.height, env);
        At(s.height + 1, Pass(s.world, params, s.height, env))
  }

  function At(height: nat, w: Outcome<World>): Outcome<State>
  {
    match w
    case Done(w) => Done(State(height, w))
    case Panic => Panic
    case Garbled => Garbled
  }

  /** A run stops at the first step that panics or is garbled. */
  ghost function Run(code: Code, params: Params, s: State, events: seq<Event>): Outcome<State>
    requires s.height + |events| < TWO63 && AllStandard(s.world.pending)
    decreases |events|
  {
    if events == [] then Done(s)
    else
      match Apply(code, params, s, events[0])
      case Panic => Panic
      case Garbled => Garbled
      case Done(s') => Run(code, params, s', events[1..])
  }

  lemma {:induction false} PassStandard(w: World, params: Params, height: uint64, env: Environment)
    requires AllStandard(w.pending)
    ensures Pass(w, params, height, env).Done? ==> AllStandard(Pass(w, params, height, env).value.pending)
    decreases |Due(w.pending, height)|
  {
    hide ConsumeOne, First;
    var due := Due(w.pending, height);
    if due != {} {
      var p := First(due);
      if ConsumeOne(w, params, height, p, env(Tail(p))).Done? {
        ConsumeOneDue(w, params, height, p, env(Tail(p)));
        PassStandard(ConsumeOne(w, params, height, p, env(Tail(p))).value, params, height, env);
      }
    }
  }
}
