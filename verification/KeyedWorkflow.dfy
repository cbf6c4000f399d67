/** The workflow on its real string keys.

    Simulation and learning loop are stated on the two slots of each workflow item. Here the store is
    keyed by strings, as the programs see it, and the environment may write any key that is none of
    the simulation's. Because no two slots share a key, every run on strings is a run on slots, and
    its results hold for the strings. */
module KeyedWorkflow {
  import Handles
  import opened MetaData
  import opened Simulation
  import opened WorkflowKeys
  import opened Wrappers

  type KeyedStore = map<string, Cell>

  datatype KeyedSim = KeyedSim(store: KeyedStore, ranks: seq<Pc>, base: nat, bumps: nat, completed: nat)

  datatype KeyedEvent =
    | Access(r: nat)
    | Restart
    | GiveUp
    | Write(key: string, cell: Cell)
    | Erase(key: string)

  /** The key of something only the simulation writes. */
  ghost predicate OwnedKey(key: string) {
    exists slot: Slot :: Owned(slot) && SlotKey(slot) == key
  }

  function KeyedPc(s: KeyedStore, r: nat, pc: Pc, allArrived: bool): Pc {
    var slot := Target(r, pc);
    After(if slot.Some? then Lookup(s, SlotKey(slot.value)) else None, r, pc, allArrived)
  }

  function KeyedRankStore(s: KeyedStore, r: nat, pc: Pc): KeyedStore {
    var slot, cell := Target(r, pc), Written(pc);
    if slot.Some? && cell.Some? then s[SlotKey(slot.value) := cell.value] else s
  }

  ghost function KeyedNext(c: KeyedSim, e: KeyedEvent): (c': KeyedSim)
    ensures |c'.ranks| == |c.ranks|
  {
    match e
    case Access(r) =>
      if r < |c.ranks| then
        var pc := c.ranks[r];
        c.(store := KeyedRankStore(c.store, r, pc),
           ranks := c.ranks[r := KeyedPc(c.store, r, pc, AllArrived(c.ranks))],
           bumps := if pc.BumpCount? then c.bumps + 1 else c.bumps)
      else c
    case Restart =>
      if AllFinished(c.ranks)
      then c.(ranks := Fresh(|c.ranks|), base := c.bumps, completed := c.completed + 1) else c
    case GiveUp => c.(ranks := Fresh(|c.ranks|), base := c.bumps)
    case Write(key, cell) => if OwnedKey(key) then c else c.(store := c.store[key := cell])
    case Erase(key) => if OwnedKey(key) then c else c.(store := c.store - {key})
  }

  ghost function KeyedPlay(c: KeyedSim, run: seq<KeyedEvent>): (c': KeyedSim)
    ensures |c'.ranks| == |c.ranks|
  {
    if run == [] then c else KeyedNext(KeyedPlay(c, run[..|run| - 1]), run[|run| - 1])
  }

  function KeyedBegin(s: KeyedStore, n: nat): KeyedSim {
    KeyedSim(s, Fresh(n), 0, 0, 0)
  }

  // The projection to slots.

  /** Every slot holds what its key holds; other keys are not seen. */
  ghost predicate Represents(ks: KeyedStore, s: Store) {
    forall slot: Slot :: Lookup(ks, SlotKey(slot)) == Lookup(s, slot)
  }

  ghost predicate Same(c: KeyedSim, d: Sim) {
    && Represents(c.store, d.store)
    && c.ranks == d.ranks && c.base == d.base && c.bumps == d.bumps && c.completed == d.completed
  }

  /** Writing or erasing one key is writing or erasing one slot. */
  lemma WriteRepresented(ks: KeyedStore, s: Store, slot: Slot, cell: Cell)
    requires Represents(ks, s)
    ensures Represents(ks[SlotKey(slot) := cell], s[slot := cell])
    ensures Represents(ks - {SlotKey(slot)}, s - {slot})
  {
    forall other: Slot
      ensures Lookup(ks[SlotKey(slot) := cell], SlotKey(other)) == Lookup(s[slot := cell], other)
      ensures Lookup(ks - {SlotKey(slot)}, SlotKey(other)) == Lookup(s - {slot}, other)
    {
      SlotsDistinct(slot, other);
      assert Lookup(ks, SlotKey(other)) == Lookup(s, other);
    }
  }

  lemma AccessIsStep(c: KeyedSim, d: Sim, r: nat)
    requires Same(c, d)
    ensures Same(KeyedNext(c, Access(r)), Next(d, Step(r)))
  {
    if r < |c.ranks| {
      var slot, cell := Target(r, c.ranks[r]), Written(c.ranks[r]);
      if slot.Some? {
        assert Lookup(c.store, SlotKey(slot.value)) == Lookup(d.store, slot.value);
        if cell.Some? {
          WriteRepresented(c.store, d.store, slot.value, cell.value);
        }
      }
    }
  }

  /** Writing a key that belongs to no slot is not seen at all. */
  lemma OtherKeyUnseen(ks: KeyedStore, s: Store, key: string, cell: Cell)
    requires Represents(ks, s) && forall slot: Slot :: SlotKey(slot) != key
    ensures Represents(ks[key := cell], s) && Represents(ks - {key}, s)
  {
    forall slot: Slot
      ensures Lookup(ks[key := cell], SlotKey(slot)) == Lookup(s, slot)
      ensures Lookup(ks - {key}, SlotKey(slot)) == Lookup(s, slot)
    {
      assert Lookup(ks, SlotKey(slot)) == Lookup(s, slot);
    }
  }

  /** Each event on keys is one event on slots, or none. */
  lemma KeyedStep(c: KeyedSim, d: Sim, e: KeyedEvent) returns (event: Option<Event>)
    requires Same(c, d)
    ensures Same(KeyedNext(c, e), if event.Some? then Next(d, event.value) else d)
    ensures event == Some(Abort) ==> e == GiveUp
    ensures e.Access? ==> event == Some(Step(e.r))
  {
    match e
    case Access(r) => AccessIsStep(c, d, r); event := Some(Step(r));
    case Restart => event := Some(Relaunch);
    case GiveUp => event := Some(Abort);
    case Write(key, cell) =>
      if slot: Slot :| SlotKey(slot) == key {
        WriteRepresented(c.store, d.store, slot, cell);
        OwnedByKey(slot);
        event := Some(EnvWrite(slot, cell));
      } else {
        OtherKeyUnseen(c.store, d.store, key, cell);
        event := None;
      }
    case Erase(key) =>
      if slot: Slot :| SlotKey(slot) == key {
        WriteRepresented(c.store, d.store, slot, Count(0));
        OwnedByKey(slot);
        event := Some(EnvErase(slot));
      } else {
        OtherKeyUnseen(c.store, d.store, key, Count(0));
        event := None;
      }
  }

  lemma OwnedByKey(slot: Slot)
    ensures OwnedKey(SlotKey(slot)) <==> Owned(slot)
  {
    if other: Slot :| Owned(other) && SlotKey(other) == SlotKey(slot) {
      SlotsDistinct(slot, other);
    }
  }

  predicate OnlyAccesses(run: seq<KeyedEvent>) {
    forall e :: e in run ==> e.Access?
  }

  lemma PlaySnoc(d: Sim, events: seq<Event>, e: Event)
    ensures Play(d, events + [e]) == Next(Play(d, events), e)
  {
    assert (events + [e])[..|events|] == events;
  }

  /** Launches are given up in the one only if in the other, and only accesses become steps. */
  predicate Matches(run: seq<KeyedEvent>, events: seq<Event>) {
    && (Abort in events ==> GiveUp in run)
    && (OnlyAccesses(run) ==> OnlySteps(events))
  }

  lemma MatchesSnoc(run: seq<KeyedEvent>, events: seq<Event>, e: KeyedEvent, event: Option<Event>)
    requires Matches(run, events)
    requires event == Some(Abort) ==> e == GiveUp
    requires e.Access? ==> event == Some(Step(e.r))
    ensures Matches(run + [e], if event.Some? then events + [event.value] else events)
  {
    assert e in run + [e];
    if OnlyAccesses(run + [e]) {
      assert forall x :: x in run ==> x in run + [e];
    }
  }

  /** Every run on string keys is a run on slots. */
  lemma {:induction false} KeyedRunIsRun(c: KeyedSim, d: Sim, run: seq<KeyedEvent>)
    returns (events: seq<Event>)
    requires Same(c, d)
    ensures Same(KeyedPlay(c, run), Play(d, events)) && Matches(run, events)
  {
    events := [];
    if run != [] {
      var before, e := run[..|run| - 1], run[|run| - 1];
      events := KeyedRunIsRun(c, d, before);
      var event := KeyedStep(KeyedPlay(c, before), Play(d, events), e);
      MatchesSnoc(before, events, e, event);
      assert run == before + [e];
      if event.Some? {
        PlaySnoc(d, events, event.value);
        events := events + [event.value];
      }
    }
  }

  // The results, on the keys themselves.

  lemma BeginSame(n: nat)
    ensures Same(KeyedBegin(map[], n), Begin(map[], n))
  {
  }

  /** All ranks of a launch agree on the iteration they read from the counter's key. */
  lemma KeyedRanksAgree(n: nat, run: seq<KeyedEvent>, r: nat)
    requires r < n
    ensures var c := KeyedPlay(KeyedBegin(map[], n), run);
            && (Iteration(c.ranks[r]).Some? ==> Iteration(c.ranks[r]).value == c.base)
            && (GiveUp !in run ==> c.base == c.completed)
  {
    BeginSame(n);
    var events := KeyedRunIsRun(KeyedBegin(map[], n), Begin(map[], n), run);
    RanksAgree(n, events, r);
  }

  /** The four keys of a rank's X and y vectors of iteration `i` hold complete vectors of one length. */
  predicate KeyedPublished(s: KeyedStore, r: nat, i: nat, len: nat) {
    var x, y := Name(SimX(r, i)), Name(SimY(r, i));
    && Lookup(s, Handles.DataKey(x)) == Some(Vector(len)) && Lookup(s, Handles.MetadataKey(x)) == Some(VectorRecord(len))
    && Lookup(s, Handles.DataKey(y)) == Some(Vector(len)) && Lookup(s, Handles.MetadataKey(y)) == Some(VectorRecord(len))
  }

  lemma PublishedOnKeys(ks: KeyedStore, s: Store, r: nat, i: nat) returns (len: nat)
    requires Represents(ks, s) && Published(s, r, i)
    ensures KeyedPublished(ks, r, i, len)
  {
    len := s[Data(SimX(r, i))].len;
    assert Lookup(ks, SlotKey(Data(SimX(r, i)))) == Lookup(s, Data(SimX(r, i)));
    assert Lookup(ks, SlotKey(Meta(SimX(r, i)))) == Lookup(s, Meta(SimX(r, i)));
    assert Lookup(ks, SlotKey(Data(SimY(r, i)))) == Lookup(s, Data(SimY(r, i)));
    assert Lookup(ks, SlotKey(Meta(SimY(r, i)))) == Lookup(s, Meta(SimY(r, i)));
  }

  /** Whenever the counter's key says k, the keys of every rank's vectors of all k earlier iterations
      hold complete vectors. */
  lemma KeyedCountedIsPublished(n: nat, run: seq<KeyedEvent>, k: nat, r: nat, i: nat)
    returns (len: nat)
    requires r < n && i < k
    requires Lookup(KeyedPlay(KeyedBegin(map[], n), run).store, Handles.DataKey("sim_meta_iter_count")) == Some(Count(k))
    ensures KeyedPublished(KeyedPlay(KeyedBegin(map[], n), run).store, r, i, len)
  {
    BeginSame(n);
    var events := KeyedRunIsRun(KeyedBegin(map[], n), Begin(map[], n), run);
    var ks, s := KeyedPlay(KeyedBegin(map[], n), run).store, Play(Begin(map[], n), events).store;
    assert Lookup(ks, SlotKey(Data(SimCount))) == Lookup(s, Data(SimCount));
    CountedIsPublished(n, events, k);
    len := PublishedOnKeys(ks, s, r, i);
  }

  /** A launch on string keys never fails, and its end is that of the launch on slots. */
  lemma KeyedLaunchCorrect(ks: KeyedStore, s: Store, n: nat, k: nat, run: seq<KeyedEvent>)
    requires Represents(ks, s) && LaunchReady(s, n, k) && OnlyAccesses(run)
    ensures var c := KeyedPlay(KeyedSim(ks, Fresh(n), k, k, k), run);
            && (forall r :: 0 <= r < n ==> !c.ranks[r].Failed?)
            && (AllFinished(c.ranks) ==>
                  forall slot: Slot :: Lookup(c.store, SlotKey(slot)) ==
                    var cell := LaunchCell(n, k, SampleLength(s, k), slot);
                    if cell.Some? then cell else Lookup(ks, SlotKey(slot)))
  {
    var c0 := KeyedSim(ks, Fresh(n), k, k, k);
    var events := KeyedRunIsRun(c0, Launch(s, n, k), run);
    LaunchCorrect(s, n, k, events);
    var c, d := KeyedPlay(c0, run), Play(Launch(s, n, k), events);
    forall slot: Slot | AllFinished(c.ranks)
      ensures Lookup(c.store, SlotKey(slot)) ==
              var cell := LaunchCell(n, k, SampleLength(s, k), slot);
              if cell.Some? then cell else Lookup(ks, SlotKey(slot))
    {
      assert Lookup(c.store, SlotKey(slot)) == Lookup(d.store, slot);
      assert Lookup(ks, SlotKey(slot)) == Lookup(s, slot);
    }
  }
}
