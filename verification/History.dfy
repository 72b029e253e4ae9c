/**
  What a history says by itself: the pending calls and the bank it adds up to, when each
  item of it is justified by the items before it, and the conservation laws that follow.
 */
module History {
  import opened Machine
  import opened Messages
  import opened Keys
  import opened Index
  import opened Scheduler

  type Log = seq<LogItem>

  function Play(m: Pending, x: LogItem): Pending
  {
    match x
    case Accepted(p, e, _) => m[p := e]
    case Requeued(p, e) => m[p := e]
    case Removed(p, _) => m - {p}
    case Consumed(p, _, _) => m - {p}
    case _ => m
  }

  /** The pending calls a history adds up to, from an empty store. */
  function Replay(log: Log): Pending
  {
    if log == [] then map[] else Play(Replay(log[..|log| - 1]), log[|log| - 1])
  }

  function PlayBank(bank: Bank, x: LogItem): Bank
  {
    match x
    case Outside(_, after) => after
    case Fee(contract, amount, _) => if amount <= Balance(bank, contract) then Collect(bank, contract, amount) else bank
    case _ => bank
  }

  function ReplayBank(start: Bank, log: Log): Bank
  {
    if log == [] then start else PlayBank(ReplayBank(start, log[..|log| - 1]), log[|log| - 1])
  }

  /** The body of the latest message accepted for a pair. */
  function LatestBody(log: Log, p: Pair): Option<Body>
  {
    if log == [] then None
    else
      var x := log[|log| - 1];
      if x.Accepted? && x.pair == p then Some(x.entry.body) else LatestBody(log[..|log| - 1], p)
  }

  /** A successful execution of `p` with this body ends the history, but for the fee taken for it. */
  predicate JustSucceeded(log: Log, p: Pair, body: Body)
  {
    || (|log| >= 1 && log[|log| - 1] == Executed(p, body, false))
    || (|log| >= 2 && log[|log| - 1].Fee? && log[|log| - 2] == Executed(p, body, false))
  }

  /**
    When an item may follow a history:
    a consumed or removed entry was pending as stated, and is consumed at its own height;
    a call runs right after it was consumed, once, with the body of the latest accepted message;
    a fee is taken right after an execution, from that contract, and is at most the
    contract's balance just before it ran; only a successful execution is scheduled again.
   */
  predicate Justified(start: Bank, log: Log, x: LogItem)
  {
    var n := |log|;
    match x
    case Accepted(p, e, replaced) => replaced <==> p in Replay(log)
    case Removed(p, e) => p in Replay(log) && Replay(log)[p] == e
    case Consumed(p, e, at) => p in Replay(log) && Replay(log)[p] == e && e.height == at
    case Outside(before, _) => before == ReplayBank(start, log)
    case Executed(p, body, _) =>
      && n >= 2 && log[n - 1].Outside?
      && log[n - 2].Consumed? && log[n - 2].pair == p && log[n - 2].entry.body == body
      && LatestBody(log, p) == Some(body)
    case Fee(contract, amount, balanceBefore) =>
      && n >= 2 && log[n - 1].Executed? && log[n - 1].pair.contract == contract
      && log[n - 2].Outside? && balanceBefore == Balance(log[n - 2].before, contract)
      && amount <= balanceBefore && amount <= Balance(ReplayBank(start, log), contract)
    case Requeued(p, e) => p !in Replay(log) && JustSucceeded(log, p, e.body)
  }

  predicate Truthful(start: Bank, log: Log)
  {
    log == [] || (Truthful(start, log[..|log| - 1]) && Justified(start, log[..|log| - 1], log[|log| - 1]))
  }

  lemma Extend(start: Bank, log: Log, x: LogItem)
    ensures Replay(log + [x]) == Play(Replay(log), x)
    ensures ReplayBank(start, log + [x]) == PlayBank(ReplayBank(start, log), x)
    ensures Truthful(start, log + [x]) <==> Truthful(start, log) && Justified(start, log, x)
    ensures forall p :: LatestBody(log + [x], p)
                     == if x.Accepted? && x.pair == p then Some(x.entry.body) else LatestBody(log, p)
  {
    assert (log + [x])[..|log|] == log;
  }

  /** Every item of a truthful history is justified by what precedes it. */
  lemma {:induction false} TruthfulAt(start: Bank, log: Log, i: nat)
    requires Truthful(start, log) && i < |log|
    ensures Truthful(start, log[..i]) && Justified(start, log[..i], log[i])
    decreases |log|
  {
    var n := |log| - 1;
    if i < n {
      TruthfulAt(start, log[..n], i);
      assert log[..n][..i] == log[..i];
    }
  }

  // ---- Bodies ----

  /** In a truthful history every pending call carries the body of the latest accepted message. */
  lemma {:induction false} PendingIsLatest(start: Bank, log: Log, p: Pair)
    requires Truthful(start, log) && p in Replay(log)
    ensures LatestBody(log, p) == Some(Replay(log)[p].body)
    decreases |log|
  {
    var n := |log| - 1;
    var x, before := log[n], log[..n];
    if x.Requeued? && x.pair == p {
      var at := if before[n - 1].Fee? then n - 2 else n - 1;
      TruthfulAt(start, log, at);
      assert LatestBody(log[..at], p) == Some(x.entry.body);
      LatestSkips(log, at, p);
    } else if !(x.Accepted? && x.pair == p) {
      PendingIsLatest(start, before, p);
    }
  }

  lemma {:induction false} LatestSkips(log: Log, at: nat, p: Pair)
    requires at <= |log| && forall i :: at <= i < |log| ==> !log[i].Accepted?
    ensures LatestBody(log, p) == LatestBody(log[..at], p)
    decreases |log|
  {
    if at < |log| {
      assert log[..|log| - 1][..at] == log[..at];
      LatestSkips(log[..|log| - 1], at, p);
    } else {
      assert log[..at] == log;
    }
  }

  // ---- Conservation of calls ----

  function Count(log: Log, which: LogItem -> bool): nat
  {
    if log == [] then 0
    else Count(log[..|log| - 1], which) + if which(log[|log| - 1]) then 1 else 0
  }

  const IS_FRESH_ADD := (x: LogItem) => x.Accepted? && !x.replaced
  const IS_REQUEUE := (x: LogItem) => x.Requeued?
  const IS_CONSUME := (x: LogItem) => x.Consumed?
  const IS_REMOVE := (x: LogItem) => x.Removed?

  /** Calls that entered are the calls that left plus the calls still pending. */
  lemma {:induction false} CallsConserved(start: Bank, log: Log)
    requires Truthful(start, log)
    ensures Count(log, IS_FRESH_ADD) + Count(log, IS_REQUEUE)
         == Count(log, IS_CONSUME) + Count(log, IS_REMOVE) + |Replay(log)|
    decreases |log|
  {
    if log != [] {
      var x, before := log[|log| - 1], log[..|log| - 1];
      CallsConserved(start, before);
      PlayCount(Replay(before), x);
    }
  }

  lemma PlayCount(m: Pending, x: LogItem)
    ensures x.Accepted? || x.Requeued? ==> |Play(m, x)| == if x.pair in m then |m| else |m| + 1
    ensures x.Consumed? || x.Removed? ==> |Play(m, x)| == if x.pair in m then |m| - 1 else |m|
  {
    if x.Accepted? || x.Requeued? {
      assert Play(m, x).Keys == m.Keys + {x.pair};
    } else if x.Consumed? || x.Removed? {
      assert Play(m, x).Keys == m.Keys - {x.pair};
    }
  }

  // ---- Conservation of fees ----

  function Sum(log: Log, value: LogItem -> int): int
  {
    if log == [] then 0 else Sum(log[..|log| - 1], value) + value(log[|log| - 1])
  }

  const FEE_AMOUNT := (x: LogItem) => if x.Fee? then x.amount else 0
  const COLLECTOR_DRIFT := (x: LogItem) => if x.Outside? then x.after.collector - x.before.collector else 0

  function FeeFrom(account: Bytes): LogItem -> int
  {
    (x: LogItem) => if x.Fee? && x.contract == account then x.amount else 0
  }

  function DriftOf(account: Bytes): LogItem -> int
  {
    (x: LogItem) => if x.Outside? then Balance(x.after, account) - Balance(x.before, account) else 0
  }

  /**
    The collector gained exactly the fees of the history, and every account lost exactly the
    fees taken from it, on top of what contracts and other modules moved themselves.
   */
  lemma {:induction false} FeesConserved(start: Bank, log: Log, account: Bytes)
    requires Truthful(start, log)
    ensures ReplayBank(start, log).collector == start.collector + Sum(log, FEE_AMOUNT) + Sum(log, COLLECTOR_DRIFT)
    ensures Balance(ReplayBank(start, log), account)
         == Balance(start, account) - Sum(log, FeeFrom(account)) + Sum(log, DriftOf(account))
    decreases |log|
  {
    if log != [] {
      FeesConserved(start, log[..|log| - 1], account);
    }
  }

  /** The fees taken from the accounts that paid any are the fees collected. */
  lemma {:induction false} FeesAddUp(log: Log, accounts: set<Bytes>)
    requires forall x :: x in log && x.Fee? ==> x.contract in accounts
    ensures Sum(log, FEE_AMOUNT) == SumOver(log, accounts)
    decreases accounts
  {
    if accounts == {} {
      NoFees(log);
    } else {
      var a := Pick(accounts);
      var other := Executed(Pair([], []), [], true);
      var rest := seq(|log|, i requires 0 <= i < |log| =>
                        if log[i].Fee? && log[i].contract == a then other else log[i]);
      SplitFees(log, rest, a);
      forall x | x in rest && x.Fee? ensures x.contract in accounts - {a} {
        var i :| 0 <= i < |rest| && rest[i] == x;
        assert log[i] in log;
      }
      FeesAddUp(rest, accounts - {a});
      SameOver(log, rest, a, accounts - {a});
    }
  }

  ghost function Pick(s: set<Bytes>): (a: Bytes)
    requires s != {}
    ensures a in s
  {
    var a :| a in s; a
  }

  ghost function SumOver(log: Log, accounts: set<Bytes>): int
  {
    if accounts == {} then 0
    else
      var a := Pick(accounts);
      Sum(log, FeeFrom(a)) + SumOver(log, accounts - {a})
  }

  lemma {:induction false} NoFees(log: Log)
    requires forall x :: x in log ==> !x.Fee?
    ensures Sum(log, FEE_AMOUNT) == 0
  {
    if log != [] {
      NoFees(log[..|log| - 1]);
    }
  }

  predicate Without(log: Log, rest: Log, a: Bytes)
  {
    |log| == |rest| &&
    forall i :: 0 <= i < |log| ==>
      if log[i].Fee? && log[i].contract == a then rest[i].Executed? else rest[i] == log[i]
  }

  lemma {:induction false} SplitFees(log: Log, rest: Log, a: Bytes)
    requires Without(log, rest, a)
    ensures Sum(log, FEE_AMOUNT) == Sum(log, FeeFrom(a)) + Sum(rest, FEE_AMOUNT)
    ensures forall b :: b != a ==> Sum(log, FeeFrom(b)) == Sum(rest, FeeFrom(b))
  {
    if log != [] {
      SplitFees(log[..|log| - 1], rest[..|log| - 1], a);
    }
  }

  lemma {:induction false} SameOver(log: Log, rest: Log, a: Bytes, accounts: set<Bytes>)
    requires Without(log, rest, a) && a !in accounts
    ensures SumOver(log, accounts) == SumOver(rest, accounts)
    decreases accounts
  {
    if accounts != {} {
      SplitFees(log, rest, a);
      SameOver(log, rest, a, accounts - {Pick(accounts)});
    }
  }
}
