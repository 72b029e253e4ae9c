/**
  Histories traced back to the events of the run: which message every body executed came from,
  and which answer of which block every execution and re-scheduling came from.
 */
module Causes {
  import opened Machine
  import opened Messages
  import opened Keys
  import opened Index
  import opened Scheduler
  import opened History
  import opened Runs
  import opened Theorems
  import Servers

  // ---- Messages ----

  /** The event is a message for `p` that is accepted in the state `s`. */
  predicate AcceptedFor(params: Params, s: State, event: Event, p: Pair)
  {
    event.Add? &&
    var msg := event.add;
    && msg.signer == Some(p.signer) && msg.contract == Some(p.contract) && msg.owner.IsOwner?
    && s.height < msg.height <= s.height + params.upperBound
    && s.height + params.upperBound < 0x1_0000_0000_0000_0000
    && Balance(s.world.bank, p.contract) >= params.minimumBalance
  }

  /** The body of the last message for `p` that a run from `s` accepts among `events`. */
  ghost function LatestMessage(params: Params, s: State, events: seq<Event>, p: Pair): Option<Body>
    requires s.height + |events| < TWO63 && AllStandard(s.world.pending)
    decreases |events|
  {
    if events == [] then None
    else
      var n := |events| - 1;
      var r := Run(Intended, params, s, events[..n]);
      if r.Done? && AcceptedFor(params, r.value, events[n], p) then Some(events[n].add.body)
      else LatestMessage(params, s, events[..n], p)
  }

  lemma ApplyLatest(params: Params, s: State, event: Event, p: Pair)
    requires s.height < TWO63 - 1 && AllStandard(s.world.pending) && Apply(Intended, params, s, event).Done?
    ensures LatestBody(Apply(Intended, params, s, event).value.world.log, p)
         == if AcceptedFor(params, s, event, p) then Some(event.add.body) else LatestBody(s.world.log, p)
  {
    hide Pass, AddSchedule, RemoveSchedule, LatestBody, Replay, ReplayBank, Truthful;
    var log := s.world.log;
    match event
    case Add(msg) =>
      Servers.AddRecorded(Intended, params, s.height, s.world, msg);
      if msg.signer.Some? && msg.contract.Some? {
        var q := Pair(msg.signer.value, msg.contract.value);
        Extend(s.world.bank, log, Accepted(q, Entry(msg.height, msg.body, false), q in s.world.pending));
      }
    case Remove(msg) =>
      Servers.RemoveRecorded(s.world, msg);
      if msg.signer.Some? && msg.contract.Some? && Pair(msg.signer.value, msg.contract.value) in s.world.pending {
        var q := Pair(msg.signer.value, msg.contract.value);
        Extend(s.world.bank, log, Removed(q, s.world.pending[q]));
      }
    case External(bank) =>
      Extend(s.world.bank, log, Outside(s.world.bank, bank));
    case EndBlock(env) =>
      PassAcceptsNothing(s.world, params, s.height, env);
      var log' := Pass(s.world, params, s.height, env).value.log;
      forall i | |log| <= i < |log'| ensures !log'[i].Accepted? {
        assert log'[i] == log'[|log|..][i - |log|];
      }
      LatestSkips(log', |log|, p);
      assert log'[..|log|] == log;
  }

  /** The latest body of the history is that of the latest message the run accepted. */
  lemma {:induction false} LatestIsMessage(params: Params, bank: Bank, height: nat, events: seq<Event>, s: State,
                                           p: Pair)
    requires height + |events| < TWO63 && Reached(params, bank, height, events, s)
    ensures LatestBody(s.world.log, p) == LatestMessage(params, State(height, Genesis(bank)), events, p)
    decreases |events|
  {
    hide Apply, AcceptedFor, Run;
    var s0 := State(height, Genesis(bank));
    if events == [] {
      assert s == s0 by { NoEvents(params, s0); }
    } else {
      var n := |events| - 1;
      assert events[..n] + [events[n]] == events;
      RunSnoc(Intended, params, s0, events[..n], events[n]);
      var mid := Run(Intended, params, s0, events[..n]).value;
      LatestIsMessage(params, bank, height, events[..n], mid, p);
      ApplyLatest(params, mid, events[n], p);
    }
  }

  lemma NoEvents(params: Params, s: State)
    requires s.height < TWO63 && AllStandard(s.world.pending)
    ensures Run(Intended, params, s, []) == Done(s)
  {
  }

  /** Every pending call carries the body of the latest message the run accepted for its pair. */
  lemma PendingIsMessages(params: Params, bank: Bank, height: nat, events: seq<Event>, s: State, p: Pair)
    requires height + |events| < TWO63 && Reached(params, bank, height, events, s) && p in s.world.pending
    ensures LatestMessage(params, State(height, Genesis(bank)), events, p) == Some(s.world.pending[p].body)
  {
    hide Run, Replay, ReplayBank, Truthful, LatestBody, LatestMessage;
    ReachedSound(params, bank, height, events, s);
    PendingIsLatest(bank, s.world.log, p);
    LatestIsMessage(params, bank, height, events, s, p);
  }

  // ---- Answers ----

  /** The item of the history at `i` is what the answers of the block say. */
  predicate Answered(params: Params, height: nat, env: Environment, log: Log, i: nat)
    requires i < |log|
  {
    match log[i]
    case Executed(p, body, failed) =>
      && i >= 1 && log[i - 1].Outside? && log[i - 1].after == env(Tail(p)).exec.bank
      && env(Tail(p)).owner.IsOwner?
      && Balance(log[i - 1].before, p.contract) >= params.minimumBalance
      && (failed <==> env(Tail(p)).exec.failed
                      || env(Tail(p)).exec.gas > Balance(log[i - 1].before, p.contract))
    case Requeued(p, e) =>
      var exec := env(Tail(p)).exec;
      && !exec.failed && |exec.result| >= 8 && e.height == FromBigEndian(exec.result[..8])
      && height < e.height <= height + params.upperBound
    case Consumed(p, e, at) => e.height == at == height
    case Accepted(_, _, _) => false
    case Removed(_, _) => false
    case _ => true
  }

  lemma VisitAnswered(w: World, params: Params, height: uint64, p: Pair, env: Environment)
    requires p in w.pending && w.pending[p].height == height
    requires ConsumeOne(w, params, height, p, env(Tail(p))).Done?
    ensures var log' := ConsumeOne(w, params, height, p, env(Tail(p))).value.log;
      && w.log <= log'
      && forall i :: |w.log| <= i < |log'| ==> Answered(params, height, env, log', i)
  {
    hide DecodedBody, Callback, FromBigEndian, Tail;
    var body := DecodedBody(w.pending[p]).value;
    CallbackLogged(Consume(w, p, height), params, height, p, body, env(Tail(p)));
  }

  lemma AnsweredPrefix(params: Params, height: nat, env: Environment, log: Log, log': Log, i: nat)
    requires log <= log' && i < |log| && Answered(params, height, env, log, i)
    ensures Answered(params, height, env, log', i)
  {
  }

  lemma {:induction false} PassAnswered(w: World, params: Params, height: uint64, env: Environment)
    requires AllStandard(w.pending) && Pass(w, params, height, env).Done?
    ensures var log' := Pass(w, params, height, env).value.log;
      && w.log <= log'
      && forall i :: |w.log| <= i < |log'| ==> Answered(params, height, env, log', i)
    decreases |Due(w.pending, height)|
  {
    hide ConsumeOne, Answered;
    var due := Due(w.pending, height);
    if due != {} {
      var p := First(due);
      ConsumeOneDue(w, params, height, p, env(Tail(p)));
      VisitAnswered(w, params, height, p, env);
      var w1 := ConsumeOne(w, params, height, p, env(Tail(p))).value;
      PassAnswered(w1, params, height, env);
      var log' := Pass(w1, params, height, env).value.log;
      forall i | |w.log| <= i < |log'| ensures Answered(params, height, env, log', i) {
        if i < |w1.log| { AnsweredPrefix(params, height, env, w1.log, log', i); }
      }
    }
  }

  /** The end of block `j`, reached in the state `b`, is what put item `i` into the history. */
  ghost predicate FromBlock(params: Params, s0: State, events: seq<Event>, log: Log, i: nat, j: nat, b: State)
    requires s0.height + |events| < TWO63 && AllStandard(s0.world.pending) && i < |log|
  {
    && j < |events| && events[j].EndBlock?
    && Run(Intended, params, s0, events[..j]) == Done(b)
    && |b.world.log| <= i && b.world.log <= log
    && (forall k :: |b.world.log| <= k < i ==> !log[k].Accepted?)
    && Answered(params, b.height, events[j].env, log, i)
  }

  predicate ByBlock(x: LogItem)
  {
    x.Executed? || x.Requeued? || x.Consumed? || x.Fee?
  }

  lemma {:induction false} BlockOf(params: Params, bank: Bank, height: nat, events: seq<Event>, s: State, i: nat)
    returns (j: nat, b: State)
    requires height + |events| < TWO63 && Reached(params, bank, height, events, s)
    requires i < |s.world.log| && ByBlock(s.world.log[i])
    ensures FromBlock(params, State(height, Genesis(bank)), events, s.world.log, i, j, b)
    decreases |events|
  {
    hide Apply, Answered, Run;
    var s0 := State(height, Genesis(bank));
    if events == [] { NoEvents(params, s0); }
    var n := |events| - 1;
    assert events[..n] + [events[n]] == events;
    RunSnoc(Intended, params, s0, events[..n], events[n]);
    var mid := Run(Intended, params, s0, events[..n]).value;
    ApplyLog(Intended, params, mid, events[n]);
    if i < |mid.world.log| {
      j, b := BlockOf(params, bank, height, events[..n], mid, i);
      assert events[..n][..j] == events[..j];
      AnsweredPrefix(params, b.height, events[j].env, mid.world.log, s.world.log, i);
    } else {
      j, b := n, mid;
      ApplyAnswered(params, mid, events[n], i);
    }
  }

  lemma ApplyAnswered(params: Params, s: State, event: Event, i: nat)
    requires s.height < TWO63 - 1 && AllStandard(s.world.pending) && Apply(Intended, params, s, event).Done?
    requires |s.world.log| <= i < |Apply(Intended, params, s, event).value.world.log|
    requires ByBlock(Apply(Intended, params, s, event).value.world.log[i])
    ensures event.EndBlock?
    ensures var log' := Apply(Intended, params, s, event).value.world.log;
      && Answered(params, s.height, event.env, log', i)
      && forall k :: |s.world.log| <= k < i ==> !log'[k].Accepted?
  {
    hide Pass, AddGuard, RemoveGuard;
    if event.EndBlock? {
      PassAnswered(s.world, params, s.height, event.env);
      var log' := Apply(Intended, params, s, event).value.world.log;
      forall k | |s.world.log| <= k < i ensures !log'[k].Accepted? {
        assert Answered(params, s.height, event.env, log', k);
      }
    }
  }

  /**
    Every execution in a run is that of a block which ran it for the owner, from a contract with
    the minimum balance; its body is that of the latest message accepted before that block; and
    it is recorded as failed exactly when the contract reported an error or asked for more gas
    than its balance before.
   */
  lemma ExecutedByBlock(params: Params, bank: Bank, height: nat, events: seq<Event>, s: State, i: nat)
    returns (j: nat, b: State)
    requires height + |events| < TWO63 && Reached(params, bank, height, events, s)
    requires i < |s.world.log| && s.world.log[i].Executed?
    ensures FromBlock(params, State(height, Genesis(bank)), events, s.world.log, i, j, b)
    ensures var x := s.world.log[i];
      var reply := events[j].env(Tail(x.pair));
      && LatestMessage(params, State(height, Genesis(bank)), events[..j], x.pair) == Some(x.body)
      && reply.owner.IsOwner? && i >= 1 && s.world.log[i - 1].Outside?
      && (x.failed <==> reply.exec.failed
                        || reply.exec.gas > Balance(s.world.log[i - 1].before, x.pair.contract))
  {
    hide Run, LatestBody, LatestMessage, Truthful, Replay, ReplayBank;
    var x := s.world.log[i];
    j, b := BlockOf(params, bank, height, events, s, i);
    ExecutedBodyIsLatest(params, bank, height, events, s, i);
    LatestIsMessage(params, bank, height, events[..j], b, x.pair);
    var before := s.world.log[..i];
    LatestSkips(before, |b.world.log|, x.pair);
    assert before[..|b.world.log|] == b.world.log;
  }

  /**
    And every re-scheduling comes from a success: the block's answer reported no error, stayed
    within its gas, and named that very height, above the block's own; the body is again that of
    the latest message accepted, and the success is what the history records just before.
   */
  lemma RequeuedByBlock(params: Params, bank: Bank, height: nat, events: seq<Event>, s: State, i: nat)
    returns (j: nat, b: State)
    requires height + |events| < TWO63 && Reached(params, bank, height, events, s)
    requires i < |s.world.log| && s.world.log[i].Requeued?
    ensures FromBlock(params, State(height, Genesis(bank)), events, s.world.log, i, j, b)
    ensures var x := s.world.log[i];
      var exec := events[j].env(Tail(x.pair)).exec;
      && !exec.failed && |exec.result| >= 8 && x.entry.height == FromBigEndian(exec.result[..8])
      && b.height < x.entry.height <= b.height + params.upperBound
      && LatestMessage(params, State(height, Genesis(bank)), events[..j], x.pair) == Some(x.entry.body)
      && JustSucceeded(s.world.log[..i], x.pair, x.entry.body)
  {
    hide Run, LatestBody, LatestMessage, Truthful, Replay, ReplayBank, JustSucceeded;
    var x := s.world.log[i];
    OnlySuccessIsRequeued(params, bank, height, events, s, i);
    j, b := BlockOf(params, bank, height, events, s, i);
    ReachedSound(params, bank, height, events, s);
    RequeuedIsLatest(bank, s.world.log, i);
    LatestIsMessage(params, bank, height, events[..j], b, x.pair);
    var before := s.world.log[..i];
    LatestSkips(before, |b.world.log|, x.pair);
    assert before[..|b.world.log|] == b.world.log;
  }

  lemma RequeuedIsLatest(start: Bank, log: Log, i: nat)
    requires Truthful(start, log) && i < |log| && log[i].Requeued?
    ensures LatestBody(log[..i], log[i].pair) == Some(log[i].entry.body)
  {
    var p, e := log[i].pair, log[i].entry;
    TruthfulAt(start, log, i);
    Extend(start, log[..i], log[i]);
    assert log[..i + 1] == log[..i] + [log[i]];
    PendingIsLatest(start, log[..i + 1], p);
  }

  // ---- Heights ----

  /** The height a run has reached is where it started plus the blocks that ended. */
  lemma {:induction false} RunHeightExact(code: Code, params: Params, s: State, events: seq<Event>)
    requires s.height + |events| < TWO63 && AllStandard(s.world.pending) && Run(code, params, s, events).Done?
    ensures Run(code, params, s, events).value.height == s.height + EndBlocks(events)
    decreases |events|
  {
    hide AddSchedule, RemoveSchedule, Pass;
    if events != [] {
      RunHeightExact(code, params, Apply(code, params, s, events[0]).value, events[1..]);
    }
  }
}
