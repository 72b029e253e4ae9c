/**
  Exactly when the chain halts, on the bytes: over every store, every answer of the contracts
  and either version of the code. The steps on bytes never leave the model, so a run that does
  not halt completes.
 */
module Panics {
  import opened Machine
  import opened Keys
  import opened Index
  import opened Scheduler
  import opened Runs
  import opened Cursor
  import opened Chain

  // ---- One visit ----

  predicate Unreadable(l: Ledger, height: uint64, key: Bytes)
    requires HeightPrefix(height) + key in l.store
  {
    ReadBody(l.store[HeightPrefix(height) + key]).None?
  }

  /** The contract of the pair read from the key makes the callback panic, from the bank as it is. */
  predicate ContractPanics(l: Ledger, params: Params, height: uint64, key: Bytes, reply: Reply)
  {
    MustPanic(World(map[], l.bank, []), params, DecodeDueKey(height, key), reply)
  }

  lemma VisitPanicsIff(l: Ledger, params: Params, height: uint64, key: Bytes, reply: Reply)
    requires HeightPrefix(height) + key in l.store
    ensures Visit(l, params, height, key, reply).Panic?
       <==> Unreadable(l, height, key) || ContractPanics(l, params, height, key, reply)
    ensures !Visit(l, params, height, key, reply).Garbled?
  {
    hide ReadBody, Callback, DecodeDueKey, MustPanic;
    VisitNeverGarbled(l, params, height, key, reply);
    if !Unreadable(l, height, key) {
      var p := DecodeDueKey(height, key);
      CallbackPanicsIff(World(map[], l.bank, []), params, height, p,
                        ReadBody(l.store[HeightPrefix(height) + key]).value, reply);
    }
  }

  // ---- An iteration ----

  /** An iteration part of the way: the ledger so far, and the key visited last. */
  datatype Walk = Walk(ledger: Ledger, at: Option<Bytes>)

  /** The walk after `n` visits, or after all of them. */
  ghost function After(w: Walk, params: Params, height: uint64, env: Environment, n: nat): Outcome<Walk>
    decreases n
  {
    var next := FirstAfter(w.ledger.store, HeightPrefix(height), w.at);
    if n == 0 || next.None? then Done(w)
    else
      match Visit(w.ledger, params, height, next.value, env(next.value))
      case Panic => Panic
      case Garbled => Garbled
      case Done(l) => After(Walk(l, next), params, height, env, n - 1)
  }

  ghost predicate NextUnreadable(w: Walk, height: uint64)
  {
    var next := FirstAfter(w.ledger.store, HeightPrefix(height), w.at);
    next.Some? && Unreadable(w.ledger, height, next.value)
  }

  ghost predicate NextContractPanics(w: Walk, params: Params, height: uint64, env: Environment)
  {
    var next := FirstAfter(w.ledger.store, HeightPrefix(height), w.at);
    next.Some? && ContractPanics(w.ledger, params, height, next.value, env(next.value))
  }

  ghost predicate UnreadableAfter(w: Walk, params: Params, height: uint64, env: Environment, n: nat)
  {
    var r := After(w, params, height, env, n);
    r.Done? && NextUnreadable(r.value, height)
  }

  ghost predicate ContractPanicsAfter(w: Walk, params: Params, height: uint64, env: Environment, n: nat)
  {
    var r := After(w, params, height, env, n);
    r.Done? && NextContractPanics(r.value, params, height, env)
  }

  /**
    The iteration panics exactly when, after some number of visits, the value of the next key
    does not decode, or the contract read from that key makes the callback panic from the bank
    reached by then. Otherwise it completes.
   */
  lemma {:induction false} IteratePanicsIff(w: Walk, params: Params, height: uint64, env: Environment)
    ensures Iterate(w.ledger, params, height, env, w.at).Panic?
       <==> exists n: nat ::
              UnreadableAfter(w, params, height, env, n) || ContractPanicsAfter(w, params, height, env, n)
    ensures !Iterate(w.ledger, params, height, env, w.at).Garbled?
    decreases |KeysUnder(w.ledger.store, HeightPrefix(height), w.at)|
  {
    hide Visit, HeightPrefix, KeysUnder, Unreadable, ContractPanics;
    var next := FirstAfter(w.ledger.store, HeightPrefix(height), w.at);
    if next.Some? {
      var key := next.value;
      VisitPanicsIff(w.ledger, params, height, key, env(key));
      if Visit(w.ledger, params, height, key, env(key)).Done? {
        var w' := Walk(Visit(w.ledger, params, height, key, env(key)).value, next);
        VisitAdvances(w.ledger, params, height, w.at, key, env(key));
        IteratePanicsIff(w', params, height, env);
        forall n: nat
          ensures UnreadableAfter(w, params, height, env, n + 1) <==> UnreadableAfter(w', params, height, env, n)
          ensures ContractPanicsAfter(w, params, height, env, n + 1)
             <==> ContractPanicsAfter(w', params, height, env, n)
        {
        }
        if n: nat :| UnreadableAfter(w, params, height, env, n) || ContractPanicsAfter(w, params, height, env, n) {
          assert n > 0;
          assert UnreadableAfter(w', params, height, env, n - 1)
              || ContractPanicsAfter(w', params, height, env, n - 1);
        }
        if n: nat :| UnreadableAfter(w', params, height, env, n) || ContractPanicsAfter(w', params, height, env, n) {
          assert UnreadableAfter(w, params, height, env, n + 1) || ContractPanicsAfter(w, params, height, env, n + 1);
        }
      } else {
        assert UnreadableAfter(w, params, height, env, 0) || ContractPanicsAfter(w, params, height, env, 0);
      }
    }
  }

  // ---- Runs ----

  /** The end of the block halts the chain: some visit of its iteration panics. */
  ghost predicate BlockHalts(params: Params, b: Block, event: Event)
    requires b.height < TWO63
  {
    && event.EndBlock?
    && exists n: nat ::
         UnreadableAfter(Walk(b.ledger, None), params, b.height, event.env, n)
         || ContractPanicsAfter(Walk(b.ledger, None), params, b.height, event.env, n)
  }

  lemma StepPanicsIff(code: Code, params: Params, b: Block, event: Event)
    requires b.height < TWO63 - 1
    ensures Step(code, params, b, event).Panic? <==> BlockHalts(params, b, event)
    ensures !Step(code, params, b, event).Garbled?
  {
    hide Iterate, AfterAdd, AfterRemove, UnreadableAfter, ContractPanicsAfter;
    if event.EndBlock? {
      IteratePanicsIff(Walk(b.ledger, None), params, b.height, event.env);
    }
  }

  /** The block reached by the first `k` events, which must complete. */
  ghost predicate ReachesAt(code: Code, params: Params, b: Block, events: seq<Event>, k: nat, b': Block)
    requires b.height + |events| < TWO63
  {
    k < |events| && Steps(code, params, b, events[..k]) == Done(b') && b'.height < TWO63
  }

  ghost predicate HaltsAt(code: Code, params: Params, b: Block, events: seq<Event>, k: nat)
    requires b.height + |events| < TWO63
  {
    exists b' :: ReachesAt(code, params, b, events, k, b') && BlockHalts(params, b', events[k])
  }

  lemma ReachesLater(code: Code, params: Params, b: Block, events: seq<Event>, k: nat, b': Block)
    requires b.height + |events| < TWO63 && events != [] && Step(code, params, b, events[0]).Done?
    ensures ReachesAt(code, params, b, events, k + 1, b')
       <==> ReachesAt(code, params, Step(code, params, b, events[0]).value, events[1..], k, b')
  {
    hide Step;
    if k + 1 < |events| {
      assert events[..k + 1][0] == events[0] && events[..k + 1][1..] == events[1..][..k];
    }
  }

  /**
    A run from any store halts the chain exactly when it reaches the end of a block in which
    some visit panics; any other run completes.
   */
  lemma {:induction false} StepsPanicIff(code: Code, params: Params, b: Block, events: seq<Event>)
    requires b.height + |events| < TWO63
    ensures Steps(code, params, b, events).Panic? <==> exists k: nat :: HaltsAt(code, params, b, events, k)
    ensures !Steps(code, params, b, events).Garbled?
    decreases |events|
  {
    hide Step, BlockHalts;
    if events != [] {
      StepPanicsIff(code, params, b, events[0]);
      assert events[..0] == [];
      assert ReachesAt(code, params, b, events, 0, b);
      var first := Step(code, params, b, events[0]);
      if first.Done? {
        StepsPanicIff(code, params, first.value, events[1..]);
        forall k: nat, b': Block
          ensures ReachesAt(code, params, b, events, k + 1, b')
             <==> ReachesAt(code, params, first.value, events[1..], k, b')
        {
          ReachesLater(code, params, b, events, k, b');
        }
        if k: nat :| HaltsAt(code, params, b, events, k) {
          var b' :| ReachesAt(code, params, b, events, k, b') && BlockHalts(params, b', events[k]);
          assert k > 0;
          assert ReachesAt(code, params, first.value, events[1..], k - 1, b');
          assert HaltsAt(code, params, first.value, events[1..], k - 1);
        }
        if k: nat :| HaltsAt(code, params, first.value, events[1..], k) {
          var b' :| ReachesAt(code, params, first.value, events[1..], k, b')
                    && BlockHalts(params, b', events[1..][k]);
          assert ReachesAt(code, params, b, events, k + 1, b');
          assert HaltsAt(code, params, b, events, k + 1);
        }
      } else {
        assert HaltsAt(code, params, b, events, 0);
      }
    }
  }
}
