/**
  The promises of the scheduler over every run. Except where a lemma names `AsWritten`,
  they are about the intended assignment in ReScheduleCall.
 */
module Theorems {
  import opened Machine
  import opened Messages
  import opened Keys
  import opened Index
  import opened Scheduler
  import opened History
  import opened Runs

  /** The state reached from an empty store by a run that neither panics nor is garbled. */
  ghost predicate Reached(params: Params, bank: Bank, height: nat, events: seq<Event>, s: State)
    requires height + |events| < TWO63
  {
    Run(Intended, params, State(height, Genesis(bank)), events) == Done(s)
  }

  lemma ReachedSound(params: Params, bank: Bank, height: nat, events: seq<Event>, s: State)
    requires height + |events| < TWO63 && Reached(params, bank, height, events, s)
    ensures Sound(bank, params, s)
  {
    hide Run, Sound;
    GenesisSound(params, bank, height);
    RunKeeps(bank, params, State(height, Genesis(bank)), events);
  }

  /** Nothing pending lies in the past or beyond the upper bound, and no entry is swapped. */
  lemma NothingStranded(params: Params, bank: Bank, height: nat, events: seq<Event>, s: State)
    requires height + |events| < TWO63 && Reached(params, bank, height, events, s)
    ensures Clean(s.world.pending)
    ensures forall p :: p in s.world.pending ==> s.height <= s.world.pending[p].height <= s.height + params.upperBound
  {
    hide Explained, Run;
    ReachedSound(params, bank, height, events, s);
  }

  lemma {:induction false} RunSnoc(code: Code, params: Params, s: State, events: seq<Event>, last: Event)
    requires s.height + |events| + 1 < TWO63 && AllStandard(s.world.pending)
    requires Run(code, params, s, events + [last]).Done?
    ensures Run(code, params, s, events).Done?
    ensures var mid := Run(code, params, s, events).value;
      && mid.height < TWO63 - 1 && AllStandard(mid.world.pending)
      && Apply(code, params, mid, last) == Run(code, params, s, events + [last])
    decreases |events|
  {
    hide Apply;
    if events == [] {
      assert (events + [last])[1..] == [];
      var s1 := Apply(code, params, s, last).value;
      assert Run(code, params, s1, []) == Done(s1);
    } else {
      assert (events + [last])[1..] == events[1..] + [last];
      RunSnoc(code, params, Apply(code, params, s, events[0]).value, events[1..], last);
    }
  }

  /** Right after the EndBlocker of height H = s.height - 1, every pending call lies in (H, H + UpperBound]. */
  lemma AfterEndBlock(params: Params, bank: Bank, height: nat, events: seq<Event>, env: Environment, s: State)
    requires height + |events| + 1 < TWO63 && Reached(params, bank, height, events + [EndBlock(env)], s)
    ensures s.height > 0
    ensures forall p :: p in s.world.pending ==>
              s.height - 1 < s.world.pending[p].height <= s.height - 1 + params.upperBound
  {
    hide Explained, Run, Pass;
    RunSnoc(Intended, params, State(height, Genesis(bank)), events, EndBlock(env));
    var mid := Run(Intended, params, State(height, Genesis(bank)), events).value;
    ReachedSound(params, bank, height, events, mid);
    PassKeeps(bank, mid.world, params, mid.height, env);
  }

  // ---- Calls and fees ----

  /** Fresh adds and re-inserts are consumed, removed, or still pending. */
  lemma RunConservesCalls(params: Params, bank: Bank, height: nat, events: seq<Event>, s: State)
    requires height + |events| < TWO63 && Reached(params, bank, height, events, s)
    ensures Count(s.world.log, IS_FRESH_ADD) + Count(s.world.log, IS_REQUEUE)
         == Count(s.world.log, IS_CONSUME) + Count(s.world.log, IS_REMOVE) + |s.world.pending|
  {
    hide Run, Replay, ReplayBank, Truthful, Count;
    ReachedSound(params, bank, height, events, s);
    CallsConserved(bank, s.world.log);
  }

  /** The fee collector gains exactly what the contracts are charged. */
  lemma RunConservesFees(params: Params, bank: Bank, height: nat, events: seq<Event>, s: State, account: Bytes)
    requires height + |events| < TWO63 && Reached(params, bank, height, events, s)
    ensures s.world.bank.collector
         == bank.collector + Sum(s.world.log, FEE_AMOUNT) + Sum(s.world.log, COLLECTOR_DRIFT)
    ensures Balance(s.world.bank, account)
         == Balance(bank, account) - Sum(s.world.log, FeeFrom(account)) + Sum(s.world.log, DriftOf(account))
    ensures Sum(s.world.log, FEE_AMOUNT) == SumOver(s.world.log, set x | x in s.world.log && x.Fee? :: x.contract)
  {
    hide Run, Replay, ReplayBank, Truthful, Sum, SumOver;
    ReachedSound(params, bank, height, events, s);
    FeesConserved(bank, s.world.log, account);
    FeesAddUp(s.world.log, set x | x in s.world.log && x.Fee? :: x.contract);
  }

  /** Each fee is taken for the call that has just run, and is at most that contract's balance before it ran. */
  lemma FeesAreBounded(params: Params, bank: Bank, height: nat, events: seq<Event>, s: State, i: nat)
    requires height + |events| < TWO63 && Reached(params, bank, height, events, s)
    requires i < |s.world.log| && s.world.log[i].Fee?
    ensures i >= 2 && s.world.log[i - 1].Executed? && s.world.log[i - 1].pair.contract == s.world.log[i].contract
    ensures s.world.log[i - 2].Outside?
    ensures s.world.log[i].amount <= Balance(s.world.log[i - 2].before, s.world.log[i].contract)
  {
    hide Run, Truthful, Replay, ReplayBank;
    ReachedSound(params, bank, height, events, s);
    TruthfulAt(bank, s.world.log, i);
  }

  /**
    A call is scheduled again only right after it succeeded, with the same body: never after
    an error or running out of gas.
   */
  lemma OnlySuccessIsRequeued(params: Params, bank: Bank, height: nat, events: seq<Event>, s: State, i: nat)
    requires height + |events| < TWO63 && Reached(params, bank, height, events, s)
    requires i < |s.world.log| && s.world.log[i].Requeued?
    ensures JustSucceeded(s.world.log[..i], s.world.log[i].pair, s.world.log[i].entry.body)
  {
    hide Run, Truthful, Replay, ReplayBank, JustSucceeded;
    ReachedSound(params, bank, height, events, s);
    TruthfulAt(bank, s.world.log, i);
  }

  /**
    Every execution is of a call just consumed at its own height, and runs the body of the
    latest message accepted for its pair, through any number of re-schedulings.
   */
  lemma ExecutedBodyIsLatest(params: Params, bank: Bank, height: nat, events: seq<Event>, s: State, i: nat)
    requires height + |events| < TWO63 && Reached(params, bank, height, events, s)
    requires i < |s.world.log| && s.world.log[i].Executed?
    ensures var x := s.world.log[i];
      && LatestBody(s.world.log[..i], x.pair) == Some(x.body)
      && i >= 2 && s.world.log[i - 2].Consumed? && s.world.log[i - 2].pair == x.pair
      && s.world.log[i - 2].entry.height == s.world.log[i - 2].at
  {
    hide Run, Truthful, Replay, ReplayBank, LatestBody;
    ReachedSound(params, bank, height, events, s);
    TruthfulAt(bank, s.world.log, i);
    TruthfulAt(bank, s.world.log, i - 2);
  }

  // ---- A pending call is consumed at its own height ----

  /** A message for this very pair. */
  predicate Addresses(event: Event, p: Pair)
  {
    match event
    case Add(m) => m.signer == Some(p.signer) && m.contract == Some(p.contract)
    case Remove(m) => m.signer == Some(p.signer) && m.contract == Some(p.contract)
    case _ => false
  }

  /** A pass leaves alone what is not due. */
  lemma {:induction false} PassKeepsOthers(w: World, params: Params, height: uint64, env: Environment, p: Pair)
    requires AllStandard(w.pending) && Pass(w, params, height, env).Done?
    requires p in w.pending && w.pending[p].height != height
    ensures var w' := Pass(w, params, height, env).value;
      p in w'.pending && w'.pending[p] == w.pending[p]
    decreases |Due(w.pending, height)|
  {
    hide ConsumeOne, DecodedBody;
    var due := Due(w.pending, height);
    if due != {} {
      var q := First(due);
      ConsumeOneDue(w, params, height, q, env(Tail(q)));
      ConsumeOnePending(w, params, height, q, env(Tail(q)));
      PassKeepsOthers(ConsumeOne(w, params, height, q, env(Tail(q))).value, params, height, env, p);
    }
  }

  /** A pass consumes every call that is due, as it stood when the pass began. */
  lemma {:induction false} PassConsumes(w: World, params: Params, height: uint64, env: Environment, p: Pair)
    requires AllStandard(w.pending) && Pass(w, params, height, env).Done?
    requires p in w.pending && w.pending[p].height == height
    ensures var w' := Pass(w, params, height, env).value;
      w.log <= w'.log && Consumed(p, w.pending[p], height) in w'.log[|w.log|..]
    decreases |Due(w.pending, height)|
  {
    hide ConsumeOne, DecodedBody;
    var due := Due(w.pending, height);
    assert p in due;
    var q := First(due);
    var w1 := ConsumeOne(w, params, height, q, env(Tail(q))).value;
    ConsumeOneDue(w, params, height, q, env(Tail(q)));
    ConsumeOnePending(w, params, height, q, env(Tail(q)));
    PassVisits(w1, params, height, env);
    var w' := Pass(w1, params, height, env).value;
    if q == p {
      assert w'.log[|w.log|] == Consumed(p, w.pending[p], height);
    } else {
      PassConsumes(w1, params, height, env, p);
      var i :| 0 <= i < |w'.log[|w1.log|..]| && w'.log[|w1.log|..][i] == Consumed(p, w.pending[p], height);
      assert w'.log[|w.log|..][|w1.log| - |w.log| + i] == Consumed(p, w.pending[p], height);
    }
  }

  lemma ApplyLog(code: Code, params: Params, s: State, event: Event)
    requires s.height < TWO63 - 1 && AllStandard(s.world.pending) && Apply(code, params, s, event).Done?
    ensures s.world.log <= Apply(code, params, s, event).value.world.log
  {
    hide Pass, AddGuard, RemoveGuard;
    if event.EndBlock? {
      PassVisits(s.world, params, s.height, event.env);
    }
  }

  lemma {:induction false} RunLog(code: Code, params: Params, s: State, events: seq<Event>)
    requires s.height + |events| < TWO63 && AllStandard(s.world.pending) && Run(code, params, s, events).Done?
    ensures s.world.log <= Run(code, params, s, events).value.world.log
    decreases |events|
  {
    hide Apply;
    if events != [] {
      ApplyLog(code, params, s, events[0]);
      RunLog(code, params, Apply(code, params, s, events[0]).value, events[1..]);
    }
  }

  /** One step either leaves a pending call in place or consumes it at its own height. */
  lemma StepOnPending(code: Code, params: Params, s: State, event: Event, p: Pair)
    requires s.height < TWO63 - 1 && AllStandard(s.world.pending) && Apply(code, params, s, event).Done?
    requires p in s.world.pending && s.height <= s.world.pending[p].height && !Addresses(event, p)
    ensures var s' := Apply(code, params, s, event).value;
      var e := s.world.pending[p];
      if s'.height <= e.height
      then p in s'.world.pending && s'.world.pending[p] == e
      else s.world.log <= s'.world.log && Consumed(p, e, e.height) in s'.world.log[|s.world.log|..]
  {
    hide Pass, AddGuard, RemoveGuard;
    match event
    case EndBlock(env) =>
      if s.world.pending[p].height == s.height {
        PassConsumes(s.world, params, s.height, env, p);
      } else {
        PassKeepsOthers(s.world, params, s.height, env, p);
      }
    case Add(_) =>
    case Remove(_) =>
    case External(_) =>
  }

  /**
    A pending call that no later message removes or replaces stays pending until its own
    height and is consumed there, in every run that gets past that height.
   */
  lemma {:induction false} ConsumedAtItsHeight(code: Code, params: Params, s: State, events: seq<Event>, p: Pair)
    requires s.height + |events| < TWO63 && AllStandard(s.world.pending) && Run(code, params, s, events).Done?
    requires p in s.world.pending && s.height <= s.world.pending[p].height
    requires forall e :: e in events ==> !Addresses(e, p)
    ensures var s' := Run(code, params, s, events).value;
      var e := s.world.pending[p];
      if s'.height <= e.height
      then p in s'.world.pending && s'.world.pending[p] == e
      else s.world.log <= s'.world.log && Consumed(p, e, e.height) in s'.world.log[|s.world.log|..]
    decreases |events|
  {
    hide Apply, Addresses;
    if events != [] {
      var s1 := Apply(code, params, s, events[0]).value;
      var e := s.world.pending[p];
      assert !Addresses(events[0], p);
      StepOnPending(code, params, s, events[0], p);
      ApplyLog(code, params, s, events[0]);
      RunLog(code, params, s1, events[1..]);
      RunHeight(code, params, s1, events[1..]);
      var s' := Run(code, params, s1, events[1..]).value;
      if s1.height <= e.height {
        ConsumedAtItsHeight(code, params, s1, events[1..], p);
        if s'.height > e.height {
          InLongerStretch(s.world.log, s1.world.log, s'.world.log, Consumed(p, e, e.height));
        }
      } else {
        InStretchPrefix(s.world.log, s1.world.log, s'.world.log, Consumed(p, e, e.height));
      }
    }
  }

  lemma InLongerStretch(a: Log, b: Log, c: Log, x: LogItem)
    requires a <= b <= c && x in c[|b|..]
    ensures x in c[|a|..]
  {
    assert c[|a|..][|b| - |a|..] == c[|b|..];
  }

  lemma InStretchPrefix(a: Log, b: Log, c: Log, x: LogItem)
    requires a <= b <= c && x in b[|a|..]
    ensures x in c[|a|..]
  {
    assert c[|a|..][..|b| - |a|] == b[|a|..];
  }

  lemma {:induction false} RunHeight(code: Code, params: Params, s: State, events: seq<Event>)
    requires s.height + |events| < TWO63 && AllStandard(s.world.pending) && Run(code, params, s, events).Done?
    ensures s.height <= Run(code, params, s, events).value.height
    decreases |events|
  {
    if events != [] {
      var s1 := Apply(code, params, s, events[0]).value;
      assert s.height <= s1.height by {
        hide AddSchedule, RemoveSchedule, Pass;
      }
      RunHeight(code, params, s1, events[1..]);
    }
  }

  // ---- No call is consumed twice ----

  /** No two items of the history consume the same pair at the same height. */
  predicate OnceEach(log: Log)
  {
    forall i, j :: 0 <= i < j < |log| && log[i].Consumed? && log[j].Consumed? ==>
      !(log[i].pair == log[j].pair && log[i].at == log[j].at)
  }

  /** What was consumed so far was consumed below `height`, or at it and is no longer due there. */
  predicate SpentUpTo(w: World, height: nat)
  {
    OnceEach(w.log) &&
    forall x :: x in w.log && x.Consumed? ==> x.at < height || (x.at == height && x.pair !in Due(w.pending, height))
  }

  lemma OnceExtend(log: Log, x: LogItem, rest: Log)
    requires OnceEach(log)
    requires forall y :: y in log && y.Consumed? && x.Consumed? ==> !(y.pair == x.pair && y.at == x.at)
    requires forall y :: y in rest ==> !y.Consumed?
    ensures OnceEach(log + [x] + rest)
    ensures forall y :: y in log + [x] + rest && y.Consumed? ==> y in log || y == x
  {
    var all := log + [x] + rest;
    forall i | |log| < i < |all| ensures !all[i].Consumed? {
      assert all[i] == rest[i - |log| - 1];
    }
    forall i | 0 <= i < |log| ensures all[i] == log[i] {
    }
  }

  /** A visit logs its own consumption first, and no other. */
  lemma ConsumeOneLog(w: World, params: Params, height: uint64, p: Pair, reply: Reply) returns (rest: Log)
    requires p in w.pending && ConsumeOne(w, params, height, p, reply).Done?
    ensures ConsumeOne(w, params, height, p, reply).value.log == w.log + [Consumed(p, w.pending[p], height)] + rest
    ensures forall x :: x in rest ==> !x.Consumed?
  {
    hide DecodedBody;
    var mid := Consume(w, p, height);
    var w' := ConsumeOne(w, params, height, p, reply).value;
    rest := w'.log[|mid.log|..];
  }

  lemma ConsumeOneSpends(w: World, params: Params, height: uint64, p: Pair, reply: Reply)
    requires AllStandard(w.pending) && p in Due(w.pending, height) && SpentUpTo(w, height)
    requires ConsumeOne(w, params, height, p, reply).Done?
    ensures SpentUpTo(ConsumeOne(w, params, height, p, reply).value, height)
  {
    hide ConsumeOne, OnceEach;
    ConsumeOneDue(w, params, height, p, reply);
    var rest := ConsumeOneLog(w, params, height, p, reply);
    OnceExtend(w.log, Consumed(p, w.pending[p], height), rest);
  }

  lemma {:induction false} PassSpends(w: World, params: Params, height: uint64, env: Environment)
    requires AllStandard(w.pending) && SpentUpTo(w, height) && Pass(w, params, height, env).Done?
    ensures SpentUpTo(Pass(w, params, height, env).value, height)
    decreases |Due(w.pending, height)|
  {
    hide ConsumeOne, SpentUpTo;
    var due := Due(w.pending, height);
    if due != {} {
      var p := First(due);
      ConsumeOneDue(w, params, height, p, env(Tail(p)));
      ConsumeOneSpends(w, params, height, p, env(Tail(p)));
      PassSpends(ConsumeOne(w, params, height, p, env(Tail(p))).value, params, height, env);
    }
  }

  /** Between blocks everything consumed was consumed below the current height. */
  predicate Spent(s: State)
  {
    OnceEach(s.world.log) && forall x :: x in s.world.log && x.Consumed? ==> x.at < s.height
  }

  lemma ApplySpends(code: Code, params: Params, s: State, event: Event)
    requires s.height < TWO63 - 1 && AllStandard(s.world.pending) && Spent(s)
    requires Apply(code, params, s, event).Done?
    ensures Spent(Apply(code, params, s, event).value)
  {
    hide Pass, AddGuard, RemoveGuard, OnceEach;
    var log' := Apply(code, params, s, event).value.world.log;
    if event.EndBlock? {
      PassSpends(s.world, params, s.height, event.env);
    } else if log' != s.world.log {
      var x := log'[|s.world.log|];
      OnceExtend(s.world.log, x, []);
      assert log' == s.world.log + [x] + [];
    }
  }

  lemma {:induction false} RunSpends(code: Code, params: Params, s: State, events: seq<Event>)
    requires s.height + |events| < TWO63 && AllStandard(s.world.pending) && Spent(s)
    requires Run(code, params, s, events).Done?
    ensures Spent(Run(code, params, s, events).value)
    decreases |events|
  {
    hide Apply, Spent;
    if events != [] {
      ApplySpends(code, params, s, events[0]);
      RunSpends(code, params, Apply(code, params, s, events[0]).value, events[1..]);
    }
  }

  /** Over every run, no pair is consumed twice at one height; with ConsumedAtItsHeight, exactly once. */
  lemma ConsumedOnce(params: Params, bank: Bank, height: nat, events: seq<Event>, s: State, i: nat, j: nat)
    requires height + |events| < TWO63 && Reached(params, bank, height, events, s)
    requires i < j < |s.world.log| && s.world.log[i].Consumed? && s.world.log[j].Consumed?
    ensures !(s.world.log[i].pair == s.world.log[j].pair && s.world.log[i].at == s.world.log[j].at)
  {
    hide Run;
    RunSpends(Intended, params, State(height, Genesis(bank)), events);
  }

  // ---- When the chain halts ----

  /** The world after `n` visits of a pass, or after all of them. */
  ghost function AfterVisits(w: World, params: Params, height: uint64, env: Environment, n: nat): Outcome<World>
    requires AllStandard(w.pending)
    decreases n
  {
    var due := Due(w.pending, height);
    if n == 0 || due == {} then Done(w)
    else
      var p := First(due);
      match ConsumeOne(w, params, height, p, env(Tail(p)))
      case Panic => Panic
      case Garbled => Garbled
      case Done(w') =>
        ConsumeOneDue(w, params, height, p, env(Tail(p)));
        AfterVisits(w', params, height, env, n - 1)
  }

  /** The next visit panics: its stored value does not decode, or the contract makes the callback panic. */
  ghost predicate NextVisitPanics(w: World, params: Params, height: uint64, env: Environment)
    requires AllStandard(w.pending)
  {
    var due := Due(w.pending, height);
    due != {} &&
    var p := First(due);
    DecodedBody(w.pending[p]).None? || MustPanic(w, params, p, env(Tail(p)))
  }

  ghost predicate PanicsAfter(w: World, params: Params, height: uint64, env: Environment, n: nat)
    requires AllStandard(w.pending)
  {
    var r := AfterVisits(w, params, height, env, n);
    r.Done? && AllStandard(r.value.pending) && NextVisitPanics(r.value, params, height, env)
  }

  /** A pass panics exactly when some visit does, in the world reached at its turn. */
  lemma {:induction false} PassPanicsIff(w: World, params: Params, height: uint64, env: Environment)
    requires AllStandard(w.pending)
    ensures Pass(w, params, height, env).Panic? <==> exists n: nat :: PanicsAfter(w, params, height, env, n)
    decreases |Due(w.pending, height)|
  {
    hide ConsumeOne, DecodedBody, MustPanic;
    var due := Due(w.pending, height);
    if due != {} {
      var p := First(due);
      var reply := env(Tail(p));
      ConsumeOnePanicsIff(w, params, height, p, reply);
      if ConsumeOne(w, params, height, p, reply).Done? {
        var w' := ConsumeOne(w, params, height, p, reply).value;
        ConsumeOneDue(w, params, height, p, reply);
        PassPanicsIff(w', params, height, env);
        forall n: nat ensures PanicsAfter(w, params, height, env, n + 1) <==> PanicsAfter(w', params, height, env, n) {
        }
        if n: nat :| PanicsAfter(w, params, height, env, n) {
          assert n > 0;
          assert PanicsAfter(w', params, height, env, n - 1);
        }
        if n: nat :| PanicsAfter(w', params, height, env, n) {
          assert PanicsAfter(w, params, height, env, n + 1);
        }
      } else {
        assert PanicsAfter(w, params, height, env, 0);
      }
    }
  }

  ghost predicate BlockPanics(params: Params, s: State, event: Event)
    requires s.height < TWO63 && AllStandard(s.world.pending)
  {
    && event.EndBlock? && DueReadable(s.world.pending, s.height)
    && exists n: nat :: PanicsAfter(s.world, params, s.height, event.env, n)
  }

  lemma ApplyPanicsIff(code: Code, params: Params, s: State, event: Event)
    requires s.height < TWO63 - 1 && AllStandard(s.world.pending)
    ensures Apply(code, params, s, event).Panic? <==> BlockPanics(params, s, event)
  {
    hide Pass, AddGuard, RemoveGuard, PanicsAfter;
    if event.EndBlock? {
      PassPanicsIff(s.world, params, s.height, event.env);
    }
  }

  /** The run reaches the event at `k`, and that is the end of a block in which some visit panics. */
  ghost predicate HaltsAt(code: Code, params: Params, s: State, events: seq<Event>, k: nat)
    requires s.height + |events| < TWO63 && AllStandard(s.world.pending)
  {
    && k < |events|
    && var r := Run(code, params, s, events[..k]);
    && r.Done? && AllStandard(r.value.world.pending) && r.value.height < TWO63
    && BlockPanics(params, r.value, events[k])
  }

  lemma HaltsLater(code: Code, params: Params, s: State, events: seq<Event>, k: nat)
    requires s.height + |events| < TWO63 && AllStandard(s.world.pending)
    requires events != [] && Apply(code, params, s, events[0]).Done?
    ensures HaltsAt(code, params, s, events, k + 1)
       <==> HaltsAt(code, params, Apply(code, params, s, events[0]).value, events[1..], k)
  {
    hide Apply, BlockPanics;
    if k + 1 < |events| {
      assert events[..k + 1][0] == events[0] && events[..k + 1][1..] == events[1..][..k];
    }
  }

  lemma StopsAtFirst(code: Code, params: Params, s: State, events: seq<Event>, k: nat)
    requires s.height + |events| < TWO63 && AllStandard(s.world.pending)
    requires events != [] && !Apply(code, params, s, events[0]).Done?
    ensures HaltsAt(code, params, s, events, k) ==> k == 0
  {
    hide Apply, BlockPanics;
    if 0 < k < |events| {
      assert events[..k][0] == events[0];
    }
  }

  /** A run halts the chain exactly when it reaches the end of a block in which some visit panics. */
  lemma {:induction false} RunHaltsIff(code: Code, params: Params, s: State, events: seq<Event>)
    requires s.height + |events| < TWO63 && AllStandard(s.world.pending)
    ensures Run(code, params, s, events).Panic? <==> exists k: nat :: HaltsAt(code, params, s, events, k)
    decreases |events|
  {
    hide Apply, BlockPanics;
    if events != [] {
      ApplyPanicsIff(code, params, s, events[0]);
      assert events[..0] == [];
      assert HaltsAt(code, params, s, events, 0) <==> BlockPanics(params, s, events[0]);
      var first := Apply(code, params, s, events[0]);
      if first.Done? {
        RunHaltsIff(code, params, first.value, events[1..]);
        forall k: nat
          ensures HaltsAt(code, params, s, events, k + 1) <==> HaltsAt(code, params, first.value, events[1..], k)
        {
          HaltsLater(code, params, s, events, k);
        }
        if k: nat :| HaltsAt(code, params, s, events, k) {
          assert k > 0;
          assert HaltsAt(code, params, first.value, events[1..], k - 1);
        }
        if k: nat :| HaltsAt(code, params, first.value, events[1..], k) {
          assert HaltsAt(code, params, s, events, k + 1);
        }
      } else {
        forall k: nat ensures HaltsAt(code, params, s, events, k) ==> k == 0 {
          StopsAtFirst(code, params, s, events, k);
        }
      }
    }
  }

  // ---- When it does not ----

  predicate Bounded(bank: Bank)
  {
    forall a :: a in bank.balances ==> bank.balances[a] < TWO64
  }

  /** A reply that cannot make the callback panic. */
  predicate Benign(reply: Reply)
  {
    !reply.exec.panics && (reply.exec.result == [] || |reply.exec.result| >= 8) && Bounded(reply.exec.bank)
  }

  ghost predicate BenignAnswers(env: Environment)
  {
    forall k: Bytes :: Benign(env(k))
  }

  lemma ConsumeOneCompletes(w: World, params: Params, height: uint64, p: Pair, reply: Reply)
    requires p in w.pending && !w.pending[p].swapped && Bounded(w.bank) && Benign(reply)
    ensures ConsumeOne(w, params, height, p, reply).Done?
    ensures Bounded(ConsumeOne(w, params, height, p, reply).value.bank)
  {
    hide DecodedBody, Callback;
    DecodedBodyOfGood(w.pending[p]);
    ConsumeOnePanicsIff(w, params, height, p, reply);
    ChargedExactly(Consume(w, p, height), params, height, p, w.pending[p].body, reply);
  }

  /** Over a store of well-placed calls, only a contract's answer or a balance of 2^64 can make a pass panic. */
  lemma {:induction false} PassCompletes(w: World, params: Params, height: uint64, env: Environment)
    requires AllStandard(w.pending) && Clean(w.pending) && Bounded(w.bank)
    requires BenignAnswers(env)
    ensures Pass(w, params, height, env).Done?
    ensures Bounded(Pass(w, params, height, env).value.bank)
    decreases |Due(w.pending, height)|
  {
    hide ConsumeOne, DecodedBody, Benign, Bounded;
    var due := Due(w.pending, height);
    if due != {} {
      var p := First(due);
      ConsumeOneCompletes(w, params, height, p, env(Tail(p)));
      ConsumeOneDue(w, params, height, p, env(Tail(p)));
      ConsumeOnePending(w, params, height, p, env(Tail(p)));
      PassCompletes(ConsumeOne(w, params, height, p, env(Tail(p))).value, params, height, env);
    }
  }

  predicate BenignEvent(event: Event)
  {
    match event
    case External(bank) => Bounded(bank)
    case _ => true
  }

  ghost predicate BenignBlock(event: Event)
  {
    event.EndBlock? ==> BenignAnswers(event.env)
  }

  lemma ApplyCompletes(params: Params, s: State, event: Event)
    requires s.height < TWO63 - 1 && AllStandard(s.world.pending) && Clean(s.world.pending) && Bounded(s.world.bank)
    requires BenignEvent(event) && BenignBlock(event)
    ensures !Apply(Intended, params, s, event).Panic?
    ensures Apply(Intended, params, s, event).Done? ==> Bounded(Apply(Intended, params, s, event).value.world.bank)
  {
    hide Pass, Bounded, AddGuard, RemoveGuard, Benign;
    if event.EndBlock? {
      PassCompletes(s.world, params, s.height, event.env);
    }
  }

  /** No run with benign answers halts the chain. */
  lemma {:induction false} RunNeverHalts(start: Bank, params: Params, s: State, events: seq<Event>)
    requires Sound(start, params, s) && s.height + |events| < TWO63 && Bounded(s.world.bank)
    requires forall e :: e in events ==> BenignEvent(e) && BenignBlock(e)
    ensures !Run(Intended, params, s, events).Panic?
    decreases |events|
  {
    hide Apply, BenignEvent, BenignBlock, Bounded, Explained;
    if events != [] {
      assert BenignEvent(events[0]) && BenignBlock(events[0]);
      ApplyCompletes(params, s, events[0]);
      if Apply(Intended, params, s, events[0]).Done? {
        ApplyKeeps(start, params, s, events[0]);
        RunNeverHalts(start, params, Apply(Intended, params, s, events[0]).value, events[1..]);
      }
    }
  }

  /** A standard pair whose signer does not begin with 01 00. */
  predicate Plain(p: Pair)
  {
    Standard(p) && p.signer[..2] != [1, 0]
  }

  predicate AllPlain(m: Pending)
  {
    forall p :: p in m ==> Plain(p) && !m[p].swapped
  }

  predicate PlainEvent(event: Event)
  {
    match event
    case Add(m) => m.signer.Some? && m.contract.Some? ==> Plain(Pair(m.signer.value, m.contract.value))
    case Remove(m) => m.signer.Some? && m.contract.Some? ==> Plain(Pair(m.signer.value, m.contract.value))
    case _ => true
  }

  lemma {:induction false} PassNeverGarbled(w: World, params: Params, height: uint64, env: Environment)
    requires AllStandard(w.pending) && AllPlain(w.pending)
    ensures !Pass(w, params, height, env).Garbled?
    ensures Pass(w, params, height, env).Done? ==> AllPlain(Pass(w, params, height, env).value.pending)
    decreases |Due(w.pending, height)|
  {
    hide DecodedBody, Callback, Plain;
    var due := Due(w.pending, height);
    if due != {} {
      var p := First(due);
      if ConsumeOne(w, params, height, p, env(Tail(p))).Done? {
        ConsumeOneDue(w, params, height, p, env(Tail(p)));
        ConsumeOnePending(w, params, height, p, env(Tail(p)));
        PassNeverGarbled(ConsumeOne(w, params, height, p, env(Tail(p))).value, params, height, env);
      }
    }
  }

  lemma ApplyNeverGarbled(params: Params, s: State, event: Event)
    requires s.height < TWO56 && AllStandard(s.world.pending) && AllPlain(s.world.pending) && PlainEvent(event)
    ensures !Apply(Intended, params, s, event).Garbled?
    ensures Apply(Intended, params, s, event).Done? ==> AllPlain(Apply(Intended, params, s, event).value.world.pending)
  {
    hide Pass, AddGuard, RemoveGuard;
    if event.EndBlock? {
      forall p | p in s.world.pending ensures TrimSafe(s.height, p) {
        PlainIsTrimSafe(s.height, p);
      }
      PassNeverGarbled(s.world, params, s.height, event.env);
    }
  }

  /** Below height 2^56, messages from plain pairs keep every run inside the domain of the model. */
  lemma {:induction false} RunNeverGarbled(params: Params, s: State, events: seq<Event>)
    requires s.height + |events| <= TWO56 && AllStandard(s.world.pending) && AllPlain(s.world.pending)
    requires forall e :: e in events ==> PlainEvent(e)
    ensures !Run(Intended, params, s, events).Garbled?
    decreases |events|
  {
    hide Apply, PlainEvent, AllPlain;
    if events != [] {
      assert PlainEvent(events[0]);
      ApplyNeverGarbled(params, s, events[0]);
      if Apply(Intended, params, s, events[0]).Done? {
        RunNeverGarbled(params, Apply(Intended, params, s, events[0]).value, events[1..]);
      }
    }
  }

  /** So with benign answers and plain pairs every run from an empty store completes. */
  lemma RunCompletes(params: Params, bank: Bank, height: nat, events: seq<Event>)
    requires height + |events| <= TWO56 && Bounded(bank)
    requires forall e :: e in events ==> PlainEvent(e) && BenignEvent(e) && BenignBlock(e)
    ensures Run(Intended, params, State(height, Genesis(bank)), events).Done?
  {
    hide Run, PlainEvent, BenignEvent, BenignBlock, Sound, Bounded;
    GenesisSound(params, bank, height);
    RunNeverGarbled(params, State(height, Genesis(bank)), events);
    RunNeverHalts(bank, params, State(height, Genesis(bank)), events);
  }

  // ---- The code as written ----

  predicate NoReplacement(log: Log)
  {
    forall x :: x in log ==> !(x.Accepted? && x.replaced)
  }

  lemma ApplyAsWrittenAgrees(params: Params, s: State, event: Event)
    requires s.height < TWO63 - 1 && AllStandard(s.world.pending)
    requires Apply(Intended, params, s, event).Done?
    requires NoReplacement(Apply(Intended, params, s, event).value.world.log)
    ensures Apply(AsWritten, params, s, event) == Apply(Intended, params, s, event)
  {
    hide Pass, AddGuard, RemoveSchedule;
    match event
    case Add(msg) =>
      if AddGuard(params, s.height, s.world.bank, msg).None? {
        var log := Apply(Intended, params, s, event).value.world.log;
        assert log[|log| - 1] in log;
      }
    case Remove(_) =>
    case External(_) =>
    case EndBlock(_) =>
  }

  /** The code as written does the intended thing in every run that never re-adds a pending pair. */
  lemma {:induction false} AsWrittenAgrees(params: Params, s: State, events: seq<Event>)
    requires s.height + |events| < TWO63 && AllStandard(s.world.pending)
    requires Run(Intended, params, s, events).Done?
    requires NoReplacement(Run(Intended, params, s, events).value.world.log)
    ensures Run(AsWritten, params, s, events) == Run(Intended, params, s, events)
    decreases |events|
  {
    hide Apply, NoReplacement;
    if events != [] {
      var s1 := Apply(Intended, params, s, events[0]).value;
      RunLog(Intended, params, s1, events[1..]);
      NoReplacementPrefix(s1.world.log, Run(Intended, params, s, events).value.world.log);
      ApplyAsWrittenAgrees(params, s, events[0]);
      AsWrittenAgrees(params, s1, events[1..]);
    }
  }

  lemma {:induction false} PassAcceptsNothing(w: World, params: Params, height: uint64, env: Environment)
    requires AllStandard(w.pending) && Pass(w, params, height, env).Done?
    ensures w.log <= Pass(w, params, height, env).value.log
    ensures forall x :: x in Pass(w, params, height, env).value.log[|w.log|..] ==> !x.Accepted?
    decreases |Due(w.pending, height)|
  {
    hide ConsumeOne;
    var due := Due(w.pending, height);
    if due != {} {
      var p := First(due);
      var w1 := ConsumeOne(w, params, height, p, env(Tail(p))).value;
      ConsumeOneDue(w, params, height, p, env(Tail(p)));
      VisitAcceptsNothing(w, params, height, p, env(Tail(p)));
      PassAcceptsNothing(w1, params, height, env);
      var w' := Pass(w1, params, height, env).value;
      assert w'.log[|w.log|..] == w1.log[|w.log|..] + w'.log[|w1.log|..];
    } else {
      assert w.log[|w.log|..] == [];
    }
  }

  lemma VisitAcceptsNothing(w: World, params: Params, height: uint64, p: Pair, reply: Reply)
    requires p in w.pending && ConsumeOne(w, params, height, p, reply).Done?
    ensures w.log <= ConsumeOne(w, params, height, p, reply).value.log
    ensures forall x :: x in ConsumeOne(w, params, height, p, reply).value.log[|w.log|..] ==> !x.Accepted?
  {
    hide DecodedBody;
  }

  lemma NoReplacementPrefix(a: Log, b: Log)
    requires a <= b && NoReplacement(b)
    ensures NoReplacement(a)
  {
    forall x | x in a ensures x in b {
      var i :| 0 <= i < |a| && a[i] == x;
      assert b[i] == x;
    }
  }

  /** A due entry whose stored value does not decode makes the whole pass panic, whatever the contracts answer. */
  lemma {:induction false} UndecodablePanics(w: World, params: Params, height: uint64, env: Environment, p: Pair)
    requires AllStandard(w.pending) && p in w.pending && w.pending[p].height == height
    requires DecodedBody(w.pending[p]).None?
    ensures Pass(w, params, height, env).Panic?
    decreases |Due(w.pending, height)|
  {
    hide DecodedBody, Callback;
    var due := Due(w.pending, height);
    assert p in due;
    var q := First(due);
    if ConsumeOne(w, params, height, q, env(Tail(q))).Done? {
      ConsumeOneDue(w, params, height, q, env(Tail(q)));
      ConsumeOnePending(w, params, height, q, env(Tail(q)));
      UndecodablePanics(ConsumeOne(w, params, height, q, env(Tail(q))).value, params, height, env, p);
    }
  }

  lemma SwappedUndecodable(e: Entry)
    requires e.swapped && e.height < TWO56
    ensures DecodedBody(e).None?
  {
    hide DecodeCall;
    SwappedRejected(e.height);
  }

  /** The block at the height of a swapped entry: the pass panics, so the block is never completed. */
  lemma SwappedBlockPanics(params: Params, s: State, p: Pair, env: Environment)
    requires s.height < TWO56 && AllStandard(s.world.pending) && DueReadable(s.world.pending, s.height)
    requires p in s.world.pending && s.world.pending[p].swapped && s.world.pending[p].height == s.height
    ensures Apply(AsWritten, params, s, EndBlock(env)).Panic?
  {
    hide Pass, DecodedBody;
    SwappedUndecodable(s.world.pending[p]);
    UndecodablePanics(s.world, params, s.height, env, p);
  }

  /** From an empty store, with messages from plain pairs, a run completes exactly when no block in it panics. */
  lemma RunCompletesIff(params: Params, bank: Bank, height: nat, events: seq<Event>)
    requires height + |events| <= TWO56
    requires forall e :: e in events ==> PlainEvent(e)
    ensures Run(Intended, params, State(height, Genesis(bank)), events).Done?
       <==> !exists k: nat :: HaltsAt(Intended, params, State(height, Genesis(bank)), events, k)
  {
    hide Run, PlainEvent, HaltsAt;
    RunNeverGarbled(params, State(height, Genesis(bank)), events);
    RunHaltsIff(Intended, params, State(height, Genesis(bank)), events);
  }

  // ---- Concrete runs ----

  const OWNER: Bytes := [0, 0, 0, 0, 0, 0, 0, 0, 0, 0, 0, 0, 0, 0, 0, 0, 0, 0, 0, 9]

  function AddAt(height: uint64, body: Body): Event
  {
    Add(AddMsg(height, body, Some(OWNER), Some([7]), IsOwner))
  }

  /** Parameters the module accepts, and a bank in which the contract has the minimum balance. */
  const PARAMS: Params := Params(1, 1000)
  const FUNDED: Bank := Bank(map[[7] := 1], 0)

  /** A contract that answers with a single byte. */
  const ONE_BYTE: Reply := Reply(IsOwner, ExecReply(false, 0, [1], false, FUNDED), true)

  /** Under the intended code too, a contract that returns one byte halts the chain at its height. */
  lemma OneByteExample(env1: Environment, env2: Environment)
    requires env2(OWNER + [7]) == ONE_BYTE
    ensures Run(Intended, PARAMS, State(1, Genesis(FUNDED)),
                [AddAt(2, [1]), EndBlock(env1), EndBlock(env2)]) == Panic
  {
    hide Pass, DecodedBody, Apply;
    var p := Pair(OWNER, [7]);
    var s0 := State(1, Genesis(FUNDED));
    var s1 := AfterFirstAdd(Intended);
    EmptyBlock(Intended, PARAMS, s1, env1);
    var s2 := State(2, s1.world);
    OneByteBlock(s2, env2);
    RunUnfold(Intended, PARAMS, s2, EndBlock(env2), []);
    RunUnfold(Intended, PARAMS, s1, EndBlock(env1), [EndBlock(env2)]);
    RunUnfold(Intended, PARAMS, s0, AddAt(2, [1]), [EndBlock(env1), EndBlock(env2)]);
  }

  lemma OneByteBlock(s: State, env: Environment)
    requires s.height == 2 && s.world.pending == map[Pair(OWNER, [7]) := Entry(2, [1], false)]
    requires env(OWNER + [7]) == ONE_BYTE && s.world.bank == FUNDED && AllStandard(s.world.pending)
    ensures Apply(Intended, PARAMS, s, EndBlock(env)).Panic?
  {
    hide Pass, DecodedBody;
    var p := Pair(OWNER, [7]);
    assert Due(s.world.pending, 2) == {p};
    assert p.signer[..2][0] == 0;
    PlainIsTrimSafe(2, p);
    assert First(Due(s.world.pending, 2)) == p;
    assert PanicsAfter(s.world, PARAMS, 2, env, 0);
    PassPanicsIff(s.world, PARAMS, 2, env);
  }

  lemma AfterFirstAdd(code: Code) returns (s1: State)
    ensures AllStandard(s1.world.pending) && s1.height == 1 && s1.world.bank == FUNDED
    ensures Apply(code, PARAMS, State(1, Genesis(FUNDED)), AddAt(2, [1])) == Done(s1)
    ensures s1.world.pending == map[Pair(OWNER, [7]) := Entry(2, [1], false)]
    ensures s1.world.log == [Accepted(Pair(OWNER, [7]), Entry(2, [1], false), false)]
  {
    var p := Pair(OWNER, [7]);
    var log1 := [Accepted(p, Entry(2, [1], false), false)];
    s1 := State(1, World(map[p := Entry(2, [1], false)], FUNDED, log1));
    assert [] + log1 == log1;
  }

  lemma EmptyBlock(code: Code, params: Params, s: State, env: Environment)
    requires s.height < TWO56 && AllStandard(s.world.pending) && Due(s.world.pending, s.height) == {}
    ensures Apply(code, params, s, EndBlock(env)) == Done(State(s.height + 1, s.world))
  {
    forall p | p in s.world.pending ensures s.world.pending[p].height != s.height {
      assert p in Due(s.world.pending, s.height) <==> s.world.pending[p].height == s.height;
    }
  }

  /**
    At height 1 an owner schedules a call for height 2 and then moves it to height 3. As
    written, the chain halts at height 3, whatever anyone answers.
   */
  lemma ReAddExample(env1: Environment, env2: Environment, env3: Environment)
    ensures Run(AsWritten, PARAMS, State(1, Genesis(FUNDED)),
                [AddAt(2, [1]), AddAt(3, [2]), EndBlock(env1), EndBlock(env2), EndBlock(env3)]) == Panic
  {
    hide Pass, DecodedBody, Apply;
    var s0 := State(1, Genesis(FUNDED));
    var s1, s2 := AfterAdds();
    HaltsAtThree(s2, env1, env2, env3);
    var blocks := [EndBlock(env1), EndBlock(env2), EndBlock(env3)];
    RunUnfold(AsWritten, PARAMS, s1, AddAt(3, [2]), blocks);
    RunUnfold(AsWritten, PARAMS, s0, AddAt(2, [1]), [AddAt(3, [2])] + blocks);
    assert [AddAt(2, [1])] + ([AddAt(3, [2])] + blocks)
        == [AddAt(2, [1]), AddAt(3, [2]), EndBlock(env1), EndBlock(env2), EndBlock(env3)];
  }

  lemma HaltsAtThree(s: State, env1: Environment, env2: Environment, env3: Environment)
    requires s.height == 1 && AllStandard(s.world.pending)
    requires s.world.pending == map[Pair(OWNER, [7]) := Entry(3, [2], true)]
    ensures Run(AsWritten, PARAMS, s, [EndBlock(env1), EndBlock(env2), EndBlock(env3)]) == Panic
  {
    hide Pass, Apply, Run;
    EmptyBlock(AsWritten, PARAMS, s, env1);
    var s3, s4 := State(2, s.world), State(3, s.world);
    EmptyBlock(AsWritten, PARAMS, s3, env2);
    SwappedAtThree(s4, env3);
    var first, second, third := EndBlock(env1), EndBlock(env2), EndBlock(env3);
    assert [third] + [] == [third] && [second] + [third] == [second, third];
    assert [first] + [second, third] == [first, second, third];
    RunUnfold(AsWritten, PARAMS, s4, third, []);
    RunUnfold(AsWritten, PARAMS, s3, second, [third]);
    RunUnfold(AsWritten, PARAMS, s, first, [second, third]);
  }

  lemma SwappedAtThree(s: State, env: Environment)
    requires s.height == 3 && AllStandard(s.world.pending)
    requires s.world.pending == map[Pair(OWNER, [7]) := Entry(3, [2], true)]
    ensures Apply(AsWritten, PARAMS, s, EndBlock(env)).Panic?
  {
    hide Apply, TrimSafe;
    var p := Pair(OWNER, [7]);
    assert p.signer[..2][0] == 0;
    PlainIsTrimSafe(3, p);
    SwappedBlockPanics(PARAMS, s, p, env);
  }

  lemma RunUnfold(code: Code, params: Params, s: State, first: Event, rest: seq<Event>)
    requires s.height + 1 + |rest| < TWO63 && AllStandard(s.world.pending)
    ensures Run(code, params, s, [first] + rest)
         == match Apply(code, params, s, first)
            case Panic => Panic
            case Garbled => Garbled
            case Done(s') => Run(code, params, s', rest)
  {
    hide Apply;
    assert ([first] + rest)[1..] == rest;
  }

  lemma AfterAdds() returns (s1: State, s2: State)
    ensures AllStandard(s1.world.pending) && AllStandard(s2.world.pending) && s1.height == s2.height == 1
    ensures Apply(AsWritten, PARAMS, State(1, Genesis(FUNDED)), AddAt(2, [1])) == Done(s1)
    ensures Apply(AsWritten, PARAMS, s1, AddAt(3, [2])) == Done(s2)
    ensures s2.world.pending == map[Pair(OWNER, [7]) := Entry(3, [2], true)]
  {
    var p := Pair(OWNER, [7]);
    s1 := AfterFirstAdd(AsWritten);
    var second := Accepted(p, Entry(3, [2], true), true);
    s2 := State(1, World(map[p := Entry(3, [2], true)], FUNDED, s1.world.log + [second]));
    assert map[p := Entry(2, [1], false)][p := Entry(3, [2], true)] == map[p := Entry(3, [2], true)];
  }
}
