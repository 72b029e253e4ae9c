/**
  How a re-added pair can still be repaired, as written: the length of the body that was left
  under the by-signer key decides. Short bodies, which cannot be, are the subject of Locking.
 */
module Rescue {
  import opened Machine
  import opened Messages
  import opened Keys
  import opened Index
  import opened Scheduler
  import opened Runs
  import opened Theorems
  import opened Chain
  import opened Refinement
  import opened Halting
  import opened Versions

  predicate AddFor(msg: AddMsg, p: Pair)
  {
    msg.signer == Some(p.signer) && msg.contract == Some(p.contract)
  }

  predicate RemoveFor(msg: RemoveMsg, p: Pair)
  {
    msg.signer == Some(p.signer) && msg.contract == Some(p.contract) && msg.owner.IsOwner?
  }

  /** The ledger after an accepted message moves the pending pair `p` to `h`, leaving `body` under its by-signer key. */
  ghost predicate JustMoved(before: Ledger, m: Pending, p: Pair, body: Body, h: uint64, l: Ledger)
  {
    && Represents(before.store, m) && p in m
    && l == Move(AsWritten, before, p, body, m[p].height, h)
  }

  lemma ReAddMoves(params: Params, height: uint64, l: Ledger, m: Pending, p: Pair, msg: AddMsg)
    requires Represents(l.store, m) && Positive(m) && p in m && !m[p].swapped
    requires AddFor(msg, p) && AddGuard(params, height, l.bank, msg).None?
    ensures AnswerAdd(params, height, l, msg).Accept?
    ensures JustMoved(l, m, p, msg.body, msg.height, AfterAdd(AsWritten, params, height, l, msg))
  {
    hide Represents, HeightStored, RescheduledAsWritten;
    assert Pair(p.signer, p.contract) == p;
    RepresentsSigners(l.store, m, p);
    StoredHeight(l.store, m, p);
  }

  /** What is read back as the height of the moved pair is its body's bytes. */
  lemma MovedHeight(before: Ledger, m: Pending, p: Pair, body: Body, h: uint64, l: Ledger)
    requires JustMoved(before, m, p, body, h, l)
    ensures HeightStored(l.store, p) == BigEndianToUint64(BodyBytes(body))
  {
    hide Represents, BodyBytes, HeightBytes, BigEndianToUint64, Delete;
    FamiliesDisjoint(h, p, p);
  }

  /** Writing both entries of `p` afresh over a moved one. */
  lemma FreshOverMoved(before: Ledger, m: Pending, p: Pair, body: Body, h: uint64, l: Ledger, anew: Body)
    requires JustMoved(before, m, p, body, h, l)
    ensures Represents(Insert(l.store, p, Entry(h, anew, false)), m[p := Entry(h, anew, false)])
    ensures Insert(l.store - {SignerKey(p)}, p, Entry(h, anew, false)) == Insert(l.store, p, Entry(h, anew, false))
  {
    hide Represents, BodyBytes, HeightBytes, SignerKey, HeightKey;
    RescheduleRepresents(before.store, m, p, anew, h);
    FamiliesDisjoint(h, p, p);
    assert Insert(l.store, p, Entry(h, anew, false))
        == RescheduledAsIntended(before.store, p, anew, m[p].height, h);
  }

  /** No body: the pair reads as unscheduled, and one more message for the same height repairs it. */
  lemma EmptyBodyRescued(before: Ledger, m: Pending, p: Pair, h: uint64, l: Ledger,
                         params: Params, height: uint64, add: AddMsg)
    requires JustMoved(before, m, p, [], h, l)
    requires AddFor(add, p) && add.height == h && AddGuard(params, height, l.bank, add).None?
    ensures Represents(AfterAdd(AsWritten, params, height, l, add).store, m[p := Entry(h, add.body, false)])
    ensures AfterAdd(AsWritten, params, height, l, add).placed == l.placed + [Placement(Tail(p), h, false)]
  {
    hide JustMoved, HeightStored, Represents, Insert;
    assert Pair(p.signer, p.contract) == p;
    MovedHeight(before, m, p, [], h, l);
    SwappedHeightUnreadable([]);
    FreshOverMoved(before, m, p, [], h, l, add.body);
  }

  /** Six bytes or more: a removal finds no by-height entry, and an addition at the same height then repairs it. */
  lemma LongBodyRescued(before: Ledger, m: Pending, p: Pair, body: Body, h: uint64, l: Ledger,
                        params: Params, height: uint64, remove: RemoveMsg, add: AddMsg)
    requires JustMoved(before, m, p, body, h, l) && |body| >= 6 && h < TWO56
    requires RemoveFor(remove, p)
    requires AddFor(add, p) && add.height == h && AddGuard(params, height, l.bank, add).None?
    ensures var l1 := AfterRemove(l, remove);
      var l2 := AfterAdd(AsWritten, params, height, l1, add);
      && l1 == l.(store := l.store - {SignerKey(p)})
      && Represents(l2.store, m[p := Entry(h, add.body, false)])
      && l2.placed == l.placed + [Placement(Tail(p), h, false)] && l2.bank == l.bank
  {
    hide JustMoved, HeightStored, Represents, Insert, SignerKey;
    assert Pair(p.signer, p.contract) == p;
    MovedHeight(before, m, p, body, h, l);
    SwappedHeightUnreadable(body);
    var y := HeightStored(l.store, p).value;
    WrongHeightAbsent(before, m, p, body, h, l, y);
    var l1 := AfterRemove(l, remove);
    assert HeightStored(l1.store, p) == Some(0) by { AbsentIsZero(l1.store, p); }
    FreshOverMoved(before, m, p, body, h, l, add.body);
  }

  lemma AbsentIsZero(store: Store, p: Pair)
    requires SignerKey(p) !in store
    ensures HeightStored(store, p) == Some(0)
  {
  }

  /** The moved pair has no by-height entry but the one at its new height. */
  lemma WrongHeightAbsent(before: Ledger, m: Pending, p: Pair, body: Body, h: uint64, l: Ledger, y: uint64)
    requires JustMoved(before, m, p, body, h, l) && y != h
    ensures Delete(l.store, p, y) == l.store - {SignerKey(p)}
  {
    hide Represents, SignerKey, HeightKey, HeightBytes, BodyBytes;
    RepresentsSigners(before.store, m, p);
    RescheduleRepresents(before.store, m, p, body, h);
    RepresentsLookup(l.store, m[p := Entry(h, body, true)], p, y);
    FamiliesDisjoint(y, p, p);
  }

  // ---- A concrete rescue ----

  /** Blocks in which nothing is moved and the contracts are benign complete one after another. */
  lemma {:induction false} BlocksComplete(params: Params, b: Block, envs: seq<Environment>)
    requires Kept(b.ledger) && b.height + |envs| <= TWO56 && Bounded(b.ledger.bank)
    requires forall t: Bytes, h: nat :: Last(b.ledger.placed, t, h) != Some(true)
    requires forall i :: 0 <= i < |envs| ==> BenignAnswers(envs[i])
    ensures Steps(AsWritten, params, b, seq(|envs|, i requires 0 <= i < |envs| => EndBlock(envs[i]))).Done?
    ensures Steps(AsWritten, params, b, seq(|envs|, i requires 0 <= i < |envs| => EndBlock(envs[i]))).value.height
         == b.height + |envs|
    decreases |envs|
  {
    hide Kept, Iterate, Bounded, BenignAnswers, Last;
    var events := seq(|envs|, i requires 0 <= i < |envs| => EndBlock(envs[i]));
    if envs != [] {
      var rest := seq(|envs| - 1, i requires 0 <= i < |envs| - 1 => EndBlock(envs[1..][i]));
      assert events[1..] == rest;
      NoneMovedCompletes(b.ledger, params, b.height, envs[0], None);
      IterateKeeps(b.ledger, params, b.height, envs[0], None);
      BlocksComplete(params, Step(AsWritten, params, b, events[0]).value, envs[1..]);
    }
  }

  const SIX: Body := [1, 2, 3, 4, 5, 6]

  /** The messages of the example: schedule for 2, move to 3, remove, schedule for 3. */
  function RescueMessages(): seq<Event>
  {
    [AddAt(2, [1]), AddAt(3, SIX), Remove(RemoveMsg(Some(OWNER), Some([7]), IsOwner)), AddAt(3, [2])]
  }

  lemma {:induction false} StepsConcat(code: Code, params: Params, b: Block, first: seq<Event>, rest: seq<Event>)
    requires b.height + |first| + |rest| < TWO63 && Steps(code, params, b, first).Done?
    ensures Steps(code, params, b, first).value.height + |rest| < TWO63
    ensures Steps(code, params, b, first + rest) == Steps(code, params, Steps(code, params, b, first).value, rest)
    decreases |first|
  {
    hide Step;
    if first == [] {
      assert first + rest == rest;
    } else {
      assert (first + rest)[1..] == first[1..] + rest;
      StepsConcat(code, params, Step(code, params, b, first[0]).value, first[1..], rest);
    }
  }

  /** The ledgers the four messages lead through, from an empty store in block 1. */
  lemma RescueSteps() returns (l: Ledger)
    ensures Steps(AsWritten, PARAMS, Block(1, Ledger(map[], FUNDED, [])), RescueMessages())
         == Done(Block(1, l))
    ensures Kept(l) && l.bank == FUNDED
    ensures forall t: Bytes, h: nat :: Last(l.placed, t, h) != Some(true)
    ensures Represents(l.store, map[Pair(OWNER, [7]) := Entry(3, [2], false)])
  {
    hide Represents, HeightStored, Insert, Kept, Clean, Positive, Plain, Last;
    hide AfterAdd, AfterRemove, AnswerAdd, AddGuard, RescheduledAsWritten;
    var params, p := PARAMS, Pair(OWNER, [7]);
    var m := map[p := Entry(2, [1], false)];
    var l0 := Ledger(map[], FUNDED, []);
    var add2, add3 := AddAt(2, [1]).add, AddAt(3, SIX).add;
    var remove := RemoveMsg(Some(OWNER), Some([7]), IsOwner);
    var add4 := AddAt(3, [2]).add;
    var l1 := AfterAdd(AsWritten, params, 1, l0, add2);
    GuardPasses(2, [1]);
    FirstAdd(AsWritten, l0, params, add2);
    CleanAndPositive(m, p);
    GuardPasses(3, SIX);
    GuardPasses(3, [2]);
    ReAddMoves(params, 1, l1, m, p, add3);
    var l2 := AfterAdd(AsWritten, params, 1, l1, add3);
    AddPlaces(AsWritten, params, 1, l1, add3);
    StoredHeight(l1.store, m, p);
    LongBodyRescued(l1, m, p, SIX, 3, l2, params, 1, remove, add4);
    var l3 := AfterRemove(l2, remove);
    l := AfterAdd(AsWritten, params, 1, l3, add4);
    var e := Entry(3, [2], false);
    assert m[p := e] == map[p := e];
    EmptyKept(FUNDED);
    OwnerIsPlain();
    AddKeepsLedger(AsWritten, params, 1, l0, add2);
    AddKeepsLedger(AsWritten, params, 1, l1, add3);
    RemoveKeepsLedger(l2, remove);
    AddKeepsLedger(AsWritten, params, 1, l3, add4);
    LastOfRescue(l.placed, Tail(p));
    FourSteps(params, l0, l1, l2, l3, l);
  }

  lemma GuardPasses(h: uint64, body: Body)
    requires 1 < h <= 1001
    ensures AddGuard(PARAMS, 1, FUNDED, AddAt(h, body).add).None?
  {
  }

  lemma OwnerIsPlain()
    ensures forall h: uint64, body: Body :: PlainEvent(AddAt(h, body))
  {
    assert OWNER[..2][0] == 0;
  }

  lemma CleanAndPositive(m: Pending, p: Pair)
    requires m == map[p := Entry(2, [1], false)]
    ensures Clean(m) && Positive(m)
  {
  }

  lemma FirstAdd(code: Code, l0: Ledger, params: Params, msg: AddMsg)
    requires l0 == Ledger(map[], FUNDED, []) && msg == AddAt(2, [1]).add && AddGuard(params, 1, FUNDED, msg).None?
    ensures var l1 := AfterAdd(code, params, 1, l0, msg);
      var p := Pair(OWNER, [7]);
      && Represents(l1.store, map[p := Entry(2, [1], false)]) && l1.bank == FUNDED
      && l1.placed == [Placement(Tail(p), 2, false)]
  {
    hide Insert, SignerKey, HeightKey, BodyBytes, AddGuard, HeightStored, HoldsBoth, Owned;
    var p := Pair(OWNER, [7]);
    assert Represents(map[], map[]);
    AbsentIsZero(map[], p);
    assert [] + [Placement(Tail(p), 2, false)] == [Placement(Tail(p), 2, false)];
    RepresentsInsert(map[], map[], p, Entry(2, [1], false));
    assert map[][p := Entry(2, [1], false)] == map[p := Entry(2, [1], false)];
  }

  lemma LastOfRescue(placed: seq<Placement>, t: Bytes)
    requires placed == [Placement(t, 2, false), Placement(t, 3, true), Placement(t, 3, false)]
    ensures forall t': Bytes, h: nat :: Last(placed, t', h) != Some(true)
  {
    var a, b, c := Placement(t, 2, false), Placement(t, 3, true), Placement(t, 3, false);
    assert placed == [a] + [b] + [c] && [] + [a] == [a];
    forall t': Bytes, h: nat ensures Last(placed, t', h) != Some(true) {
      LastExtend([], a, t', h);
      LastExtend([a], b, t', h);
      LastExtend([a] + [b], c, t', h);
    }
  }

  lemma FourSteps(params: Params, l0: Ledger, l1: Ledger, l2: Ledger, l3: Ledger, l: Ledger)
    requires l1 == AfterAdd(AsWritten, params, 1, l0, AddAt(2, [1]).add)
    requires l2 == AfterAdd(AsWritten, params, 1, l1, AddAt(3, SIX).add)
    requires l3 == AfterRemove(l2, RemoveMsg(Some(OWNER), Some([7]), IsOwner))
    requires l == AfterAdd(AsWritten, params, 1, l3, AddAt(3, [2]).add)
    ensures Steps(AsWritten, params, Block(1, l0), RescueMessages()) == Done(Block(1, l))
  {
    hide AfterAdd, AfterRemove;
    var events := RescueMessages();
    assert events[1..][1..] == events[2..] && events[1..][1..][1..] == events[3..] && events[3..][1..] == [];
    assert Steps(AsWritten, params, Block(1, l), []) == Done(Block(1, l));
    assert Steps(AsWritten, params, Block(1, l3), events[3..]) == Done(Block(1, l));
    assert Steps(AsWritten, params, Block(1, l2), events[2..]) == Done(Block(1, l));
    assert Steps(AsWritten, params, Block(1, l1), events[1..]) == Done(Block(1, l));
  }

  /**
    The code as written gets past a height it re-added a pair to: schedule for 2, move to 3,
    remove, schedule for 3, and with benign answers all three blocks complete.
   */
  lemma RescueExample(env1: Environment, env2: Environment, env3: Environment)
    requires BenignAnswers(env1) && BenignAnswers(env2) && BenignAnswers(env3)
    ensures var r := Steps(AsWritten, PARAMS, Block(1, Ledger(map[], FUNDED, [])),
                           RescueMessages() + [EndBlock(env1), EndBlock(env2), EndBlock(env3)]);
      r.Done? && r.value.height == 4
  {
    hide Steps, Kept, BenignAnswers, Represents, Last;
    var l := RescueSteps();
    var envs := [env1, env2, env3];
    BlocksComplete(PARAMS, Block(1, l), envs);
    var blocks := seq(|envs|, i requires 0 <= i < |envs| => EndBlock(envs[i]));
    assert blocks == [EndBlock(env1), EndBlock(env2), EndBlock(env3)];
    StepsConcat(AsWritten, PARAMS, Block(1, Ledger(map[], FUNDED, [])), RescueMessages(), blocks);
  }

  // ---- Two runs that tell the versions' agreement apart from other things ----

  /**
    Agreement after every step is more than agreement at the end: the rescue parts the versions
    at its second message, and they meet again in the same store, bank and height.
   */
  lemma MeetAgainExample()
    ensures var b := Block(1, Ledger(map[], FUNDED, []));
      && Same(Steps(AsWritten, PARAMS, b, RescueMessages()), Steps(Intended, PARAMS, b, RescueMessages()))
      && !Agree(PARAMS, b, RescueMessages())
  {
    hide Steps, Represents, Run, NoReplacement, Agree, Kept, Last;
    var l := RescueSteps();
    var s := IntendedRescue();
    EmptyStandsFor(FUNDED, 1);
    var b, s0 := Block(1, Ledger(map[], FUNDED, [])), State(1, Genesis(FUNDED));
    StepsRefine(Intended, PARAMS, b, s0, RescueMessages());
    var b' := Steps(Intended, PARAMS, b, RescueMessages()).value;
    RepresentationDeterminesStore(l.store, b'.ledger.store, s.world.pending);
    AgreeIffNoReplacement(PARAMS, FUNDED, 1, RescueMessages(), s);
  }

  /** The intended code's run of the same messages. */
  lemma IntendedRescue() returns (s: State)
    ensures Reached(PARAMS, FUNDED, 1, RescueMessages(), s)
    ensures s.height == 1 && s.world.bank == FUNDED
    ensures s.world.pending == map[Pair(OWNER, [7]) := Entry(3, [2], false)]
    ensures !NoReplacement(s.world.log)
  {
    hide Apply;
    var p := Pair(OWNER, [7]);
    var remove := Remove(RemoveMsg(Some(OWNER), Some([7]), IsOwner));
    var events := RescueMessages();
    var s1 := AfterFirstAdd(Intended);
    var second, fourth := Accepted(p, Entry(3, SIX, false), true), Accepted(p, Entry(3, [2], false), false);
    var s2 := State(1, World(map[p := Entry(3, SIX, false)], FUNDED, s1.world.log + [second]));
    var s3 := State(1, World(map[], FUNDED, s2.world.log + [Removed(p, Entry(3, SIX, false))]));
    s := State(1, World(map[p := Entry(3, [2], false)], FUNDED, s3.world.log + [fourth]));
    assert s.world.log[1] == second && second in s.world.log;
    RescueApplies(s1, s2, s3, s);
    RunUnfold(Intended, PARAMS, s3, AddAt(3, [2]), []);
    RunUnfold(Intended, PARAMS, s2, remove, [AddAt(3, [2])]);
    RunUnfold(Intended, PARAMS, s1, AddAt(3, SIX), [remove, AddAt(3, [2])]);
    RunUnfold(Intended, PARAMS, State(1, Genesis(FUNDED)), AddAt(2, [1]), [AddAt(3, SIX), remove, AddAt(3, [2])]);
  }

  lemma RescueApplies(s1: State, s2: State, s3: State, s: State)
    requires s1.height == s2.height == s3.height == s.height == 1
    requires s1.world.bank == s2.world.bank == s3.world.bank == s.world.bank == FUNDED
    requires var p := Pair(OWNER, [7]);
      && s1.world.pending == map[p := Entry(2, [1], false)]
      && s2.world.pending == map[p := Entry(3, SIX, false)]
      && s3.world.pending == map[]
      && s.world.pending == map[p := Entry(3, [2], false)]
      && s2.world.log == s1.world.log + [Accepted(p, Entry(3, SIX, false), true)]
      && s3.world.log == s2.world.log + [Removed(p, Entry(3, SIX, false))]
      && s.world.log == s3.world.log + [Accepted(p, Entry(3, [2], false), false)]
    ensures Apply(Intended, PARAMS, s1, AddAt(3, SIX)) == Done(s2)
    ensures Apply(Intended, PARAMS, s2, Remove(RemoveMsg(Some(OWNER), Some([7]), IsOwner))) == Done(s3)
    ensures Apply(Intended, PARAMS, s3, AddAt(3, [2])) == Done(s)
  {
    var p := Pair(OWNER, [7]);
    assert s1.world.pending[p := Entry(3, SIX, false)] == s2.world.pending;
    assert s2.world.pending - {p} == s3.world.pending;
    assert s3.world.pending[p := Entry(3, [2], false)] == s.world.pending;
  }

  const FAR: uint64 := 0x0a06_0102_0304_0506

  /**
    And a message may find its pair pending without parting them: moved to the height that is
    its body's own encoding, the pair is stored the same by both.
   */
  lemma CoincidenceExample()
    ensures var params := Params(1, 0x0b00_0000_0000_0000);
      var l := AfterAdd(Intended, params, 1, Ledger(map[], FUNDED, []), AddAt(2, [1]).add);
      && Agree(params, Block(1, Ledger(map[], FUNDED, [])), [AddAt(2, [1]), AddAt(FAR, SIX)])
      && HeightStored(l.store, Pair(OWNER, [7])) == Some(2)
      && AnswerAdd(params, 1, l, AddAt(FAR, SIX).add).Accept?
  {
    hide AddGuard, HeightStored, AfterAdd, Represents, Agree, Insert;
    var params, p := Params(1, 0x0b00_0000_0000_0000), Pair(OWNER, [7]);
    var l0 := Ledger(map[], FUNDED, []);
    var l := AfterAdd(Intended, params, 1, l0, AddAt(2, [1]).add);
    FarGuard(2, [1]);
    FarGuard(FAR, SIX);
    FirstAdd(Intended, l0, params, AddAt(2, [1]).add);
    var m := map[p := Entry(2, [1], false)];
    StoredHeight(l.store, m, p);
    SixCoincides();
    var events := [AddAt(2, [1]), AddAt(FAR, SIX)];
    AbsentIsZero(map[], p);
    NothingParts(params, Block(1, AfterAdd(Intended, params, 1, l, AddAt(FAR, SIX).add)),
                 Block(1, AfterAdd(Intended, params, 1, l, AddAt(FAR, SIX).add)));
    assert events[1..] == [AddAt(FAR, SIX)] && events[1..][1..] == [];
    PartsUnfold(params, Block(1, l), events[1..]);
    PartsUnfold(params, Block(1, l0), events);
    AgreeIff(params, Block(1, l0), events);
  }

  lemma FarGuard(h: uint64, body: Body)
    requires 1 < h <= 0x0b00_0000_0000_0001
    ensures AddGuard(Params(1, 0x0b00_0000_0000_0000), 1, FUNDED, AddAt(h, body).add).None?
  {
  }

  lemma SixCoincides()
    ensures Coincidence(SIX, FAR)
  {
    assert FromBigEndian(SIX[..1]) == 0x01 by { assert SIX[..1] == [1]; }
    assert FromBigEndian(SIX[..2]) == 0x0102 by { assert SIX[..2][..1] == SIX[..1]; }
    assert FromBigEndian(SIX[..3]) == 0x01_0203 by { assert SIX[..3][..2] == SIX[..2]; }
    assert FromBigEndian(SIX[..4]) == 0x0102_0304 by { assert SIX[..4][..3] == SIX[..3]; }
    assert FromBigEndian(SIX[..5]) == 0x01_0203_0405 by { assert SIX[..5][..4] == SIX[..4]; }
  }
}
