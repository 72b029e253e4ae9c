/**
  Exactly when the code as written and the intended code do the same, on the bytes: what is
  compared is the store, the bank and the height after every step, and whether the chain halts.
 */
module Versions {
  import opened Machine
  import opened Messages
  import opened Keys
  import opened Index
  import opened Scheduler
  import opened History
  import opened Runs
  import opened Theorems
  import opened Cursor
  import opened Chain
  import opened Refinement
  import Panics

  // ---- What is compared ----

  predicate SameLedger(a: Ledger, b: Ledger)
  {
    a.store == b.store && a.bank == b.bank
  }

  predicate SameLedgers(x: Outcome<Ledger>, y: Outcome<Ledger>)
  {
    match x
    case Done(a) => y.Done? && SameLedger(a, y.value)
    case Panic => y.Panic?
    case Garbled => y.Garbled?
  }

  predicate SameBlock(a: Block, b: Block)
  {
    a.height == b.height && SameLedger(a.ledger, b.ledger)
  }

  predicate Same(x: Outcome<Block>, y: Outcome<Block>)
  {
    match x
    case Done(a) => y.Done? && SameBlock(a, y.value)
    case Panic => y.Panic?
    case Garbled => y.Garbled?
  }

  // ---- Every step depends on store and bank only ----

  lemma VisitSame(a: Ledger, b: Ledger, params: Params, height: uint64, key: Bytes, reply: Reply)
    requires SameLedger(a, b) && HeightPrefix(height) + key in a.store
    ensures SameLedgers(Visit(a, params, height, key, reply), Visit(b, params, height, key, reply))
  {
    hide ReadBody, Callback, DecodeDueKey, HeightPrefix, Insert, Delete;
  }

  lemma {:induction false} IterateSame(a: Ledger, b: Ledger, params: Params, height: uint64, env: Environment,
                                       after: Option<Bytes>)
    requires SameLedger(a, b)
    ensures SameLedgers(Iterate(a, params, height, env, after), Iterate(b, params, height, env, after))
    decreases |KeysUnder(a.store, HeightPrefix(height), after)|
  {
    hide Visit, HeightPrefix, KeysUnder;
    var r := FirstAfter(a.store, HeightPrefix(height), after);
    if r.Some? {
      var key := r.value;
      VisitSame(a, b, params, height, key, env(key));
      if Visit(a, params, height, key, env(key)).Done? {
        VisitAdvances(a, params, height, after, key, env(key));
        IterateSame(Visit(a, params, height, key, env(key)).value, Visit(b, params, height, key, env(key)).value,
                    params, height, env, Some(key));
      }
    }
  }

  lemma StepSame(code: Code, params: Params, a: Block, b: Block, event: Event)
    requires SameBlock(a, b) && a.height < TWO63 - 1
    ensures Same(Step(code, params, a, event), Step(code, params, b, event))
  {
    hide Iterate, HeightStored, AddGuard, RemoveGuard, Insert, Delete, RescheduledAsWritten, RescheduledAsIntended;
    if event.EndBlock? {
      IterateSame(a.ledger, b.ledger, params, a.height, event.env, None);
    }
  }

  // ---- One message ----

  /** An accepted message that reads a height other than zero, unless its body and height coincide. */
  predicate MovesApart(params: Params, height: uint64, l: Ledger, msg: AddMsg)
  {
    AnswerAdd(params, height, l, msg).Accept? &&
    HeightStored(l.store, Pair(msg.signer.value, msg.contract.value)) != Some(0) &&
    !Coincidence(msg.body, msg.height)
  }

  /** The two assignments leave the same store exactly when the two values written are the same bytes. */
  lemma RescheduleSameIff(store: Store, p: Pair, body: Body, was: uint64, h: uint64)
    ensures RescheduledAsWritten(store, p, body, was, h) == RescheduledAsIntended(store, p, body, was, h)
       <==> Coincidence(body, h)
  {
    hide BodyBytes, HeightBytes, HeightKey, SignerKey, Coincidence;
    FamiliesDisjoint(h, p, p);
    CoincidenceIffEqual(body, h);
    var written := RescheduledAsWritten(store, p, body, was, h);
    var intended := RescheduledAsIntended(store, p, body, was, h);
    assert written[HeightKey(h, p)] == HeightBytes(h) && intended[HeightKey(h, p)] == BodyBytes(body);
    if BodyBytes(body) == HeightBytes(h) {
      InsertOrder(Delete(store, p, was), HeightKey(h, p), HeightBytes(h), SignerKey(p), BodyBytes(body));
    }
  }

  lemma AddSameIff(params: Params, height: uint64, l: Ledger, msg: AddMsg)
    ensures SameLedger(AfterAdd(AsWritten, params, height, l, msg), AfterAdd(Intended, params, height, l, msg))
       <==> !MovesApart(params, height, l, msg)
  {
    hide HeightStored, AddGuard, Insert, RescheduledAsWritten, RescheduledAsIntended, Coincidence;
    if AnswerAdd(params, height, l, msg).Accept? {
      var p := Pair(msg.signer.value, msg.contract.value);
      if HeightStored(l.store, p) != Some(0) {
        RescheduleSameIff(l.store, p, msg.body, HeightStored(l.store, p).value, msg.height);
      }
    }
  }

  predicate Parts(params: Params, b: Block, event: Event)
    requires b.height < TWO63
  {
    event.Add? && MovesApart(params, b.height, b.ledger, event.add)
  }

  lemma StepSameIff(params: Params, a: Block, b: Block, event: Event)
    requires SameBlock(a, b) && a.height < TWO63 - 1
    ensures Same(Step(AsWritten, params, a, event), Step(Intended, params, b, event)) <==> !Parts(params, b, event)
  {
    hide Iterate, AfterAdd, AfterRemove, MovesApart;
    StepSame(AsWritten, params, a, b, event);
    if event.Add? {
      AddSameIff(params, b.height, b.ledger, event.add);
    }
  }

  // ---- Runs ----

  /** From `a` as written and from `b` as intended, the first `k` events lead to the same. */
  ghost predicate SameAfter(params: Params, a: Block, b: Block, events: seq<Event>, k: nat)
    requires SameBlock(a, b) && a.height + |events| < TWO63
  {
    k <= |events| ==> Same(Steps(AsWritten, params, a, events[..k]), Steps(Intended, params, b, events[..k]))
  }

  ghost predicate AgreeFrom(params: Params, a: Block, b: Block, events: seq<Event>)
    requires SameBlock(a, b) && a.height + |events| < TWO63
  {
    forall k: nat :: SameAfter(params, a, b, events, k)
  }

  /** The same store, bank and height, or a halt in both, after every prefix of the events. */
  ghost predicate Agree(params: Params, b: Block, events: seq<Event>)
    requires b.height + |events| < TWO63
  {
    AgreeFrom(params, b, b, events)
  }

  /** The intended run reaches, at `k`, a message at which the versions part. */
  ghost predicate PartsAt(params: Params, b: Block, events: seq<Event>, k: nat)
    requires b.height + |events| < TWO63
  {
    exists b' :: Panics.ReachesAt(Intended, params, b, events, k, b') && Parts(params, b', events[k])
  }

  lemma StepsFirst(code: Code, params: Params, b: Block, events: seq<Event>, k: nat)
    requires b.height + |events| < TWO63 && k < |events|
    ensures Steps(code, params, b, events[..k + 1])
         == match Step(code, params, b, events[0])
            case Panic => Panic
            case Garbled => Garbled
            case Done(b') => Steps(code, params, b', events[1..][..k])
  {
    hide Step;
    assert events[..k + 1][0] == events[0] && events[..k + 1][1..] == events[1..][..k];
  }

  lemma SameLater(params: Params, a: Block, b: Block, events: seq<Event>, k: nat)
    requires SameBlock(a, b) && a.height + |events| < TWO63 && events != []
    requires Same(Step(AsWritten, params, a, events[0]), Step(Intended, params, b, events[0]))
    ensures var x, y := Step(AsWritten, params, a, events[0]), Step(Intended, params, b, events[0]);
      SameAfter(params, a, b, events, k + 1) <==> (x.Done? ==> SameAfter(params, x.value, y.value, events[1..], k))
  {
    hide Step;
    if k < |events| {
      StepsFirst(AsWritten, params, a, events, k);
      StepsFirst(Intended, params, b, events, k);
    }
  }

  /** The versions agree exactly when the first step leads to the same and they agree from there on. */
  lemma AgreeUnfold(params: Params, a: Block, b: Block, events: seq<Event>)
    requires SameBlock(a, b) && a.height + |events| < TWO63 && events != []
    ensures AgreeFrom(params, a, b, events) <==>
              var x, y := Step(AsWritten, params, a, events[0]), Step(Intended, params, b, events[0]);
              Same(x, y) && (x.Done? ==> AgreeFrom(params, x.value, y.value, events[1..]))
  {
    hide Step;
    var x, y := Step(AsWritten, params, a, events[0]), Step(Intended, params, b, events[0]);
    assert events[..0] == [] && events[1..][..0] == [];
    assert SameAfter(params, a, b, events, 0);
    assert SameAfter(params, a, b, events, 1) <==> Same(x, y) by {
      StepsFirst(AsWritten, params, a, events, 0);
      StepsFirst(Intended, params, b, events, 0);
    }
    hide SameAfter;
    if Same(x, y) {
      forall k: nat
        ensures SameAfter(params, a, b, events, k + 1) <==>
                  (x.Done? ==> SameAfter(params, x.value, y.value, events[1..], k))
      {
        SameLater(params, a, b, events, k);
      }
      if x.Done? && AgreeFrom(params, a, b, events) {
        forall k: nat ensures SameAfter(params, x.value, y.value, events[1..], k) {
          assert SameAfter(params, a, b, events, k + 1);
        }
      }
      if x.Done? ==> AgreeFrom(params, x.value, y.value, events[1..]) {
        forall k: nat ensures SameAfter(params, a, b, events, k) {
          if k > 0 {
            SameLater(params, a, b, events, k - 1);
          }
        }
      }
    }
  }

  lemma PartsUnfold(params: Params, b: Block, events: seq<Event>)
    requires b.height + |events| < TWO63 && events != []
    ensures (exists k: nat :: PartsAt(params, b, events, k)) <==>
              var y := Step(Intended, params, b, events[0]);
              Parts(params, b, events[0]) || (y.Done? && exists k: nat :: PartsAt(params, y.value, events[1..], k))
  {
    hide Step, Parts;
    var y := Step(Intended, params, b, events[0]);
    assert events[..0] == [];
    assert Panics.ReachesAt(Intended, params, b, events, 0, b);
    if k: nat :| PartsAt(params, b, events, k) {
      var b' :| Panics.ReachesAt(Intended, params, b, events, k, b') && Parts(params, b', events[k]);
      if k > 0 {
        StepsFirst(Intended, params, b, events, k - 1);
        Panics.ReachesLater(Intended, params, b, events, k - 1, b');
        assert PartsAt(params, y.value, events[1..], k - 1);
      }
    }
    if Parts(params, b, events[0]) {
      assert PartsAt(params, b, events, 0);
    }
    if y.Done? && exists k: nat :: PartsAt(params, y.value, events[1..], k) {
      var k: nat :| PartsAt(params, y.value, events[1..], k);
      var b' :| Panics.ReachesAt(Intended, params, y.value, events[1..], k, b') && Parts(params, b', events[1..][k]);
      Panics.ReachesLater(Intended, params, b, events, k, b');
      assert PartsAt(params, b, events, k + 1);
    }
  }

  lemma {:induction false} AgreeFromIff(params: Params, a: Block, b: Block, events: seq<Event>)
    requires SameBlock(a, b) && a.height + |events| < TWO63
    ensures AgreeFrom(params, a, b, events) <==> !exists k: nat :: PartsAt(params, b, events, k)
    decreases |events|
  {
    hide Step, PartsAt, Parts, AgreeFrom;
    if events != [] {
      StepSameIff(params, a, b, events[0]);
      AgreeUnfold(params, a, b, events);
      PartsUnfold(params, b, events);
      var x, y := Step(AsWritten, params, a, events[0]), Step(Intended, params, b, events[0]);
      if Same(x, y) && x.Done? {
        AgreeFromIff(params, x.value, y.value, events[1..]);
      }
    } else {
      NothingParts(params, a, b);
    }
  }

  lemma NothingParts(params: Params, a: Block, b: Block)
    requires SameBlock(a, b) && a.height < TWO63
    ensures AgreeFrom(params, a, b, []) && forall k: nat :: !PartsAt(params, b, [], k)
  {
    var none: seq<Event> := [];
    assert none[..0] == [];
  }

  /**
    From any store, the code as written and the intended code have the same store, bank and
    height after every prefix of a run exactly when every accepted message of the intended run
    that reads a stored height other than zero has six bytes of body and the height 0x0a06
    followed by them.
   */
  lemma AgreeIff(params: Params, b: Block, events: seq<Event>)
    requires b.height + |events| < TWO63
    ensures Agree(params, b, events) <==> !exists k: nat :: PartsAt(params, b, events, k)
  {
    hide AgreeFrom, PartsAt;
    AgreeFromIff(params, b, b, events);
  }

  // ---- In terms of pending calls ----

  predicate LowEvent(event: Event)
  {
    event.Add? ==> event.add.height < TWO56
  }

  /** Below height 2^56, over a represented map, the versions part exactly when a pending pair is accepted again. */
  lemma PartsIffReplaces(params: Params, b: Block, s: State, msg: AddMsg)
    requires StandsFor(b, s) && Clean(s.world.pending) && s.height < TWO63 && msg.height < TWO56
    requires AddSchedule(Intended, params, s.height, s.world, msg).Done?
    ensures MovesApart(params, b.height, b.ledger, msg)
       <==> AddGuard(params, s.height, s.world.bank, msg).None?
            && Pair(msg.signer.value, msg.contract.value) in s.world.pending
  {
    hide AddGuard, HeightStored, Represents, Standard;
    if AddGuard(params, s.height, s.world.bank, msg).None? {
      var p := Pair(msg.signer.value, msg.contract.value);
      assert |p.signer| == 20 by { StandardSigner(p); }
      StoredHeight(b.ledger.store, s.world.pending, p);
    }
  }

  lemma StandardSigner(p: Pair)
    requires Standard(p)
    ensures |p.signer| == 20
  {
  }

  /** What one step of the intended code adds to the history tells whether the versions part there. */
  lemma StepParts(start: Bank, params: Params, b: Block, s: State, event: Event)
    requires StandsFor(b, s) && Sound(start, params, s) && s.height < TWO63 - 1 && LowEvent(event)
    requires Apply(Intended, params, s, event).Done?
    ensures var log' := Apply(Intended, params, s, event).value.world.log;
      s.world.log <= log' && (Parts(params, b, event) <==> !NoReplacement(log'[|s.world.log|..]))
  {
    hide Pass, AddGuard, RemoveGuard, MovesApart, Represents, Explained, Standard;
    var log' := Apply(Intended, params, s, event).value.world.log;
    match event
    case Add(msg) =>
      PartsIffReplaces(params, b, s, msg);
      if AddGuard(params, s.height, s.world.bank, msg).None? {
        assert log'[|s.world.log|..] == [log'[|s.world.log|]];
      } else {
        assert log'[|s.world.log|..] == [];
      }
    case Remove(_) =>
    case External(_) =>
    case EndBlock(env) => PassAcceptsNothing(s.world, params, s.height, env);
  }

  lemma NoReplacementConcat(a: Log, b: Log)
    ensures NoReplacement(a + b) <==> NoReplacement(a) && NoReplacement(b)
  {
    assert forall x :: x in a + b <==> x in a || x in b;
  }

  lemma {:induction false} PartsIffReplacement(start: Bank, params: Params, b: Block, s: State, events: seq<Event>)
    requires StandsFor(b, s) && Sound(start, params, s) && s.height + |events| < TWO63
    requires Run(Intended, params, s, events).Done? && forall e :: e in events ==> LowEvent(e)
    ensures var log' := Run(Intended, params, s, events).value.world.log;
      s.world.log <= log' &&
      ((exists k: nat :: PartsAt(params, b, events, k)) <==> !NoReplacement(log'[|s.world.log|..]))
    decreases |events|
  {
    hide Apply, Step, Parts, PartsAt, NoReplacement, LowEvent, Represents, Explained;
    if events == [] {
      NothingParts(params, b, b);
      assert s.world.log[|s.world.log|..] == [] + [];
      NoneReplaced();
    } else {
      assert LowEvent(events[0]);
      var s1 := Apply(Intended, params, s, events[0]).value;
      StepRefines(Intended, params, b, s, events[0]);
      var b1 := Step(Intended, params, b, events[0]).value;
      ApplyKeeps(start, params, s, events[0]);
      StepParts(start, params, b, s, events[0]);
      PartsUnfold(params, b, events);
      PartsIffReplacement(start, params, b1, s1, events[1..]);
      var log' := Run(Intended, params, s, events).value.world.log;
      assert log'[|s.world.log|..] == s1.world.log[|s.world.log|..] + log'[|s1.world.log|..];
      NoReplacementConcat(s1.world.log[|s.world.log|..], log'[|s1.world.log|..]);
    }
  }

  lemma NoneReplaced()
    ensures NoReplacement([])
  {
  }

  /**
    So below height 2^56, from an empty store, the versions agree throughout a run exactly when
    no accepted message of the intended run finds its pair pending.
   */
  lemma AgreeIffNoReplacement(params: Params, bank: Bank, height: nat, events: seq<Event>, s: State)
    requires height + |events| < TWO63 && Reached(params, bank, height, events, s)
    requires forall e :: e in events ==> LowEvent(e)
    ensures Agree(params, Block(height, Ledger(map[], bank, [])), events) <==> NoReplacement(s.world.log)
  {
    hide Run, Agree, PartsAt, NoReplacement, LowEvent, Sound, StandsFor;
    var b := Block(height, Ledger(map[], bank, []));
    EmptyStandsFor(bank, height);
    GenesisSound(params, bank, height);
    AgreeIff(params, b, events);
    PartsIffReplacement(bank, params, b, State(height, Genesis(bank)), events);
    assert s.world.log[0..] == s.world.log;
  }
}
