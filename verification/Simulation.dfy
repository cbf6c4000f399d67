/** The MPI simulation: every rank reads the iteration counter and the query points, publishes its
    samples and meets the others at a barrier; then rank 0 alone bumps the counter.

    Every store access of every rank is one atomic step. The environment may write or erase any
    key that the simulation does not own, at any time, and a launch may be aborted at any step and
    tried again. */
module Simulation {
  import opened MetaData
  import opened WorkflowKeys
  import opened Wrappers

  const SAMPLES_PER_RANK: nat := 8

  /** What a store key holds: an `int`, a double by its bits, a vector of doubles of some length, a
      metadata record, or bytes that only Python decodes. */
  datatype Cell =
    | Count(n: int)
    | Real(bits: nat)
    | Vector(len: nat)
    | ScalarRecord(t: DType)
    | VectorRecord(dim: nat)
    | Blob(bytes: nat)

  type Store = map<Slot, Cell>

  /** Program counters, each named after the next store access; `it` is the iteration the rank read
      and `len` the length of its samples. */
  datatype Pc =
    | ProbeCount
    | FetchCount
    | FetchCountMeta(cell: Cell)
    | ProbeQuery(it: nat)
    | FetchQuery(it: nat)
    | FetchQueryMeta(it: nat, cell: Cell)
    | PutXMeta(it: nat, len: nat)
    | PutX(it: nat, len: nat)
    | PutYMeta(it: nat, len: nat)
    | PutY(it: nat, len: nat)
    | AtBarrier(it: nat)
    | BumpMeta(it: nat)
    | BumpCount(it: nat)
    | Finished(it: nat)
    | Failed

  /** `base` is the number of counter bumps when the current launch began, `bumps` their number
      now, and `completed` the number of launches that every rank finished. */
  datatype Sim = Sim(store: Store, ranks: seq<Pc>, base: nat, bumps: nat, completed: nat)

  datatype Event =
    | Step(r: nat)
    | Relaunch
    | Abort
    | EnvWrite(slot: Slot, cell: Cell)
    | EnvErase(slot: Slot)

  /** Iteration 0 starts from random points only, later ones also need query points. */
  function AfterCount(it: int): Pc {
    if it < 0 then Failed else if it == 0 then PutXMeta(0, SAMPLES_PER_RANK) else ProbeQuery(it)
  }

  /** The slot of the rank's next store access. */
  function Target(r: nat, pc: Pc): Option<Slot> {
    match pc
    case ProbeCount => Some(Data(SimCount))
    case FetchCount => Some(Data(SimCount))
    case FetchCountMeta(_) => Some(Meta(SimCount))
    case ProbeQuery(it) => if 0 < it then Some(Data(Query(it - 1))) else None
    case FetchQuery(it) => if 0 < it then Some(Data(Query(it - 1))) else None
    case FetchQueryMeta(it, _) => if 0 < it then Some(Meta(Query(it - 1))) else None
    case PutXMeta(it, _) => Some(Meta(SimX(r, it)))
    case PutX(it, _) => Some(Data(SimX(r, it)))
    case PutYMeta(it, _) => Some(Meta(SimY(r, it)))
    case PutY(it, _) => Some(Data(SimY(r, it)))
    case BumpMeta(_) => Some(Meta(SimCount))
    case BumpCount(_) => Some(Data(SimCount))
    case _ => None
  }

  /** What the access writes to its slot; otherwise it is a read or a probe. */
  function Written(pc: Pc): Option<Cell> {
    match pc
    case PutXMeta(_, len) => Some(VectorRecord(len))
    case PutX(_, len) => Some(Vector(len))
    case PutYMeta(_, len) => Some(VectorRecord(len))
    case PutY(_, len) => Some(Vector(len))
    case BumpMeta(_) => Some(ScalarRecord(INT32))
    case BumpCount(it) => Some(Count(it + 1))
    case _ => None
  }

  /** How the rank goes on after an access that saw `seen` in its slot. */
  function After(seen: Option<Cell>, r: nat, pc: Pc, allArrived: bool): Pc {
    match pc
    case ProbeCount => if seen.Some? then FetchCount else AfterCount(0)
    case FetchCount => if seen.Some? then FetchCountMeta(seen.value) else Failed
    case FetchCountMeta(cell) =>
      if cell.Count? && seen == Some(ScalarRecord(INT32)) then AfterCount(cell.n) else Failed
    case ProbeQuery(it) => if seen.Some? then FetchQuery(it) else Failed
    case FetchQuery(it) => if seen.Some? then FetchQueryMeta(it, seen.value) else Failed
    case FetchQueryMeta(it, cell) =>
      if cell.Vector? && seen == Some(VectorRecord(cell.len))
      then PutXMeta(it, cell.len + SAMPLES_PER_RANK) else Failed
    case PutXMeta(it, len) => PutX(it, len)
    case PutX(it, len) => PutYMeta(it, len)
    case PutYMeta(it, len) => PutY(it, len)
    case PutY(it, _) => AtBarrier(it)
    case AtBarrier(it) => if !allArrived then pc else if r == 0 then BumpMeta(it) else Finished(it)
    case BumpMeta(it) => BumpCount(it)
    case BumpCount(it) => Finished(it)
    case Finished(_) => pc
    case Failed => pc
  }

  function RankPc(s: Store, r: nat, pc: Pc, allArrived: bool): Pc {
    var slot := Target(r, pc);
    After(if slot.Some? then Lookup(s, slot.value) else None, r, pc, allArrived)
  }

  function RankStore(s: Store, r: nat, pc: Pc): Store {
    var slot, cell := Target(r, pc), Written(pc);
    if slot.Some? && cell.Some? then s[slot.value := cell.value] else s
  }

  /** The rank has entered the barrier. */
  predicate Arrived(pc: Pc) {
    pc.AtBarrier? || pc.BumpMeta? || pc.BumpCount? || pc.Finished?
  }

  /** The rank has left the barrier. */
  predicate Released(pc: Pc) {
    pc.BumpMeta? || pc.BumpCount? || pc.Finished?
  }

  predicate AllArrived(ranks: seq<Pc>) {
    forall r :: 0 <= r < |ranks| ==> Arrived(ranks[r])
  }

  predicate AllFinished(ranks: seq<Pc>) {
    forall r :: 0 <= r < |ranks| ==> ranks[r].Finished?
  }

  /** Slots only the simulation writes. */
  predicate Owned(slot: Slot) {
    slot.key.SimCount? || slot.key.SimX? || slot.key.SimY?
  }

  function Fresh(n: nat): seq<Pc> {
    seq(n, _ => ProbeCount)
  }

  function Next(c: Sim, e: Event): (c': Sim)
    ensures |c'.ranks| == |c.ranks|
  {
    match e
    case Step(r) =>
      if r < |c.ranks| then
        var pc := c.ranks[r];
        c.(store := RankStore(c.store, r, pc),
           ranks := c.ranks[r := RankPc(c.store, r, pc, AllArrived(c.ranks))],
           bumps := if pc.BumpCount? then c.bumps + 1 else c.bumps)
      else c
    case Relaunch =>
      if AllFinished(c.ranks)
      then c.(ranks := Fresh(|c.ranks|), base := c.bumps, completed := c.completed + 1) else c
    case Abort => c.(ranks := Fresh(|c.ranks|), base := c.bumps)
    case EnvWrite(slot, cell) => if Owned(slot) then c else c.(store := c.store[slot := cell])
    case EnvErase(slot) => if Owned(slot) then c else c.(store := c.store - {slot})
  }

  function Play(c: Sim, events: seq<Event>): (c': Sim)
    ensures |c'.ranks| == |c.ranks|
  {
    if events == [] then c else Next(Play(c, events[..|events| - 1]), events[|events| - 1])
  }

  function Begin(s: Store, n: nat): Sim {
    Sim(s, Fresh(n), 0, 0, 0)
  }

  /** The vectors a rank publishes: the query points followed by its own draws, and one simulated
      value for each. */
  method LocalSamples<T>(query: seq<T>, draw: nat -> T, simulate: (T, nat) -> T)
    returns (xs: seq<T>, ys: seq<T>)
    ensures |ys| == |xs| == |query| + SAMPLES_PER_RANK
    ensures query <= xs
    ensures forall i :: 0 <= i < SAMPLES_PER_RANK ==> xs[|query| + i] == draw(i)
    ensures forall i :: 0 <= i < |xs| ==> ys[i] == simulate(xs[i], i)
  {
    xs, ys := query, [];
    for i := 0 to SAMPLES_PER_RANK
      invariant |xs| == |query| + i && query <= xs
      invariant forall j :: 0 <= j < i ==> xs[|query| + j] == draw(j)
    {
      xs := xs + [draw(i)];
    }
    for i := 0 to |xs|
      invariant |ys| == i
      invariant forall j :: 0 <= j < i ==> ys[j] == simulate(xs[j], j)
    {
      ys := ys + [simulate(xs[i], i)];
    }
  }

  // Safety over every run of any number of ranks and launches.

  /** Rank r's X and y vectors of iteration `i` are complete and equally long. */
  predicate Published(s: Store, r: nat, i: nat) {
    && Data(SimX(r, i)) in s && s[Data(SimX(r, i))].Vector?
    && var len := s[Data(SimX(r, i))].len;
       && Lookup(s, Meta(SimX(r, i))) == Some(VectorRecord(len))
       && Lookup(s, Data(SimY(r, i))) == Some(Vector(len))
       && Lookup(s, Meta(SimY(r, i))) == Some(VectorRecord(len))
  }

  /** The counter `key` reads `k`; a counter never written reads 0. */
  predicate CountIs(s: Store, key: Key, k: nat) {
    if k == 0 then Data(key) !in s
    else && Lookup(s, Data(key)) == Some(Count(k))
         && Lookup(s, Meta(key)) == Some(ScalarRecord(INT32))
  }

  /** The iteration a rank has read, once it has. */
  function Iteration(pc: Pc): Option<nat> {
    match pc
    case ProbeCount => None
    case FetchCount => None
    case FetchCountMeta(_) => None
    case Failed => None
    case _ => Some(pc.it)
  }

  predicate RankInv(c: Sim, r: nat, pc: Pc) {
    && (Iteration(pc).Some? ==> Iteration(pc).value == c.base)
    && (pc.BumpMeta? || pc.BumpCount? ==> r == 0)
    && (Arrived(pc) ==> Published(c.store, r, c.base))
    && match pc
       case FetchCount => 0 < c.base
       case FetchCountMeta(cell) => 0 < c.base && cell == Count(c.base)
       case PutX(it, len) => Lookup(c.store, Meta(SimX(r, it))) == Some(VectorRecord(len))
       case PutYMeta(it, len) =>
         && Lookup(c.store, Meta(SimX(r, it))) == Some(VectorRecord(len))
         && Lookup(c.store, Data(SimX(r, it))) == Some(Vector(len))
       case PutY(it, len) =>
         && Lookup(c.store, Meta(SimX(r, it))) == Some(VectorRecord(len))
         && Lookup(c.store, Data(SimX(r, it))) == Some(Vector(len))
         && Lookup(c.store, Meta(SimY(r, it))) == Some(VectorRecord(len))
       case BumpCount(_) => Lookup(c.store, Meta(SimCount)) == Some(ScalarRecord(INT32))
       case _ => true
  }

  predicate Inv(c: Sim) {
    && 0 < |c.ranks|
    && c.bumps == (if c.ranks[0].Finished? then c.base + 1 else c.base)
    && CountIs(c.store, SimCount, c.bumps)
    && (forall r :: 0 <= r < |c.ranks| ==> RankInv(c, r, c.ranks[r]))
    && (forall r :: 0 <= r < |c.ranks| && Released(c.ranks[r]) ==> AllArrived(c.ranks))
    && (forall r, i: nat :: 0 <= r < |c.ranks| && i < c.bumps ==> Published(c.store, r, i))
  }

  lemma StepOwnRank(c: Sim, r: nat)
    requires Inv(c) && r < |c.ranks|
    ensures var c' := Next(c, Step(r)); RankInv(c', r, c'.ranks[r])
  {
    assert RankInv(c, r, c.ranks[r]);
    assert !Arrived(c.ranks[r]) ==> !Released(c.ranks[0]);
  }

  lemma StepOtherRank(c: Sim, r: nat, q: nat)
    requires Inv(c) && r < |c.ranks| && q < |c.ranks| && r != q
    ensures var c' := Next(c, Step(r)); RankInv(c', q, c'.ranks[q])
  {
    assert RankInv(c, r, c.ranks[r]);
    assert RankInv(c, q, c.ranks[q]);
    assert Next(c, Step(r)).ranks[q] == c.ranks[q];
  }

  lemma StepPublished(c: Sim, r: nat, q: nat, i: nat)
    requires Inv(c) && r < |c.ranks| && q < |c.ranks|
    requires i < Next(c, Step(r)).bumps
    ensures Published(Next(c, Step(r)).store, q, i)
  {
    assert RankInv(c, r, c.ranks[r]);
    assert RankInv(c, q, c.ranks[q]);
    assert i < c.bumps ==> Published(c.store, q, i);
    assert c.ranks[0].Finished? ==> AllArrived(c.ranks);
  }

  lemma StepInv(c: Sim, r: nat)
    requires Inv(c) && r < |c.ranks|
    ensures Inv(Next(c, Step(r)))
  {
    var c' := Next(c, Step(r));
    var pc := c.ranks[r];
    assert RankInv(c, r, pc);
    assert !Arrived(pc) ==> !Released(c.ranks[0]);
    forall q | 0 <= q < |c.ranks|
      ensures RankInv(c', q, c'.ranks[q])
    {
      if q == r { StepOwnRank(c, r); } else { StepOtherRank(c, r, q); }
    }
    forall q, i: nat | 0 <= q < |c.ranks| && i < c'.bumps
      ensures Published(c'.store, q, i)
    {
      StepPublished(c, r, q, i);
    }
  }

  lemma RestartInv(c: Sim, c': Sim)
    requires Inv(c) && c'.store == c.store && c'.bumps == c'.base == c.bumps
    requires c'.ranks == Fresh(|c.ranks|)
    ensures Inv(c')
  {
    assert forall r :: 0 <= r < |c'.ranks| ==> c'.ranks[r] == ProbeCount;
    assert forall r, i: nat :: 0 <= r < |c.ranks| && i < c.bumps ==> Published(c'.store, r, i);
  }

  lemma EnvironmentInv(c: Sim, slot: Slot, store': Store)
    requires Inv(c) && !Owned(slot)
    requires forall other: Slot :: other != slot ==> Lookup(store', other) == Lookup(c.store, other)
    ensures Inv(c.(store := store'))
  {
    assert Lookup(store', Data(SimCount)) == Lookup(c.store, Data(SimCount));
    assert Lookup(store', Meta(SimCount)) == Lookup(c.store, Meta(SimCount));
    forall q, i: nat | 0 <= q < |c.ranks| && Published(c.store, q, i)
      ensures Published(store', q, i)
    {
      assert Lookup(store', Data(SimX(q, i))) == Lookup(c.store, Data(SimX(q, i)));
    }
    forall q | 0 <= q < |c.ranks|
      ensures RankInv(c.(store := store'), q, c.ranks[q])
    {
      assert RankInv(c, q, c.ranks[q]);
    }
  }

  lemma NextInv(c: Sim, e: Event)
    requires Inv(c)
    ensures Inv(Next(c, e))
  {
    match e
    case Step(r) => if r < |c.ranks| { StepInv(c, r); }
    case Relaunch =>
      if AllFinished(c.ranks) { RestartInv(c, Next(c, e)); }
    case Abort => RestartInv(c, Next(c, e));
    case EnvWrite(slot, cell) =>
      if !Owned(slot) { EnvironmentInv(c, slot, c.store[slot := cell]); }
    case EnvErase(slot) =>
      if !Owned(slot) { EnvironmentInv(c, slot, c.store - {slot}); }
  }

  lemma {:induction false} PlayInv(n: nat, events: seq<Event>)
    requires 0 < n
    ensures Inv(Play(Begin(map[], n), events))
  {
    if events != [] {
      PlayInv(n, events[..|events| - 1]);
      NextInv(Play(Begin(map[], n), events[..|events| - 1]), events[|events| - 1]);
    }
  }

  /** All ranks of a launch agree on the iteration, for any number of ranks, any interleaving, any
      number of launches and aborts: each reads the number of counter bumps made before the launch
      began, which without aborts is the number of completed launches. */
  lemma RanksAgree(n: nat, events: seq<Event>, r: nat)
    requires r < n
    ensures var c := Play(Begin(map[], n), events);
            && (Iteration(c.ranks[r]).Some? ==> Iteration(c.ranks[r]).value == c.base)
            && (Abort !in events ==> c.base == c.completed)
  {
    PlayInv(n, events);
    var c := Play(Begin(map[], n), events);
    assert RankInv(c, r, c.ranks[r]);
    if Abort !in events {
      BaseIsCompleted(n, events);
    }
  }

  lemma {:induction false} BaseIsCompleted(n: nat, events: seq<Event>)
    requires 0 < n && Abort !in events
    ensures var c := Play(Begin(map[], n), events); c.base == c.completed
  {
    if events != [] {
      var k := |events| - 1;
      assert events[k] in events;
      BaseIsCompleted(n, events[..k]);
      PlayInv(n, events[..k]);
      var c := Play(Begin(map[], n), events[..k]);
      assert AllFinished(c.ranks) ==> c.ranks[0].Finished?;
    }
  }

  /** Whenever the counter in the store says k, every rank's X and y vectors of all k earlier
      iterations are there, complete and equally long. */
  lemma CountedIsPublished(n: nat, events: seq<Event>, k: nat)
    requires 0 < n
    requires Lookup(Play(Begin(map[], n), events).store, Data(SimCount)) == Some(Count(k))
    ensures forall r, i: nat :: 0 <= r < n && i < k ==>
      Published(Play(Begin(map[], n), events).store, r, i)
  {
    PlayInv(n, events);
  }

  // One undisturbed launch.

  /** The query points of the previous iteration are there, if there was one. */
  predicate QueryReady(s: Store, k: nat) {
    0 < k ==>
      && Data(Query(k - 1)) in s && s[Data(Query(k - 1))].Vector?
      && Lookup(s, Meta(Query(k - 1))) == Some(VectorRecord(s[Data(Query(k - 1))].len))
  }

  /** The length of every rank's samples. */
  function SampleLength(s: Store, k: nat): nat
    requires QueryReady(s, k)
  {
    (if k == 0 then 0 else s[Data(Query(k - 1))].len) + SAMPLES_PER_RANK
  }

  /** What `n` ranks at iteration `k` write to a slot, if anything. */
  function LaunchCell(n: nat, k: nat, len: nat, slot: Slot): Option<Cell> {
    match slot
    case Data(SimX(r, i)) => if r < n && i == k then Some(Vector(len)) else None
    case Data(SimY(r, i)) => if r < n && i == k then Some(Vector(len)) else None
    case Meta(SimX(r, i)) => if r < n && i == k then Some(VectorRecord(len)) else None
    case Meta(SimY(r, i)) => if r < n && i == k then Some(VectorRecord(len)) else None
    case Data(SimCount) => Some(Count(k + 1))
    case Meta(SimCount) => Some(ScalarRecord(INT32))
    case _ => None
  }

  /** The store after a launch: what the ranks wrote, and everything else as before. */
  ghost predicate LaunchEffect(s: Store, s': Store, n: nat, k: nat, len: nat) {
    forall slot: Slot :: Lookup(s', slot) ==
      var cell := LaunchCell(n, k, len, slot); if cell.Some? then cell else Lookup(s, slot)
  }

  predicate LaunchReady(s: Store, n: nat, k: nat) {
    && 0 < n && CountIs(s, SimCount, k) && QueryReady(s, k)
    && forall r, i: nat :: 0 <= r < n && i < k ==> Published(s, r, i)
  }

  function Launch(s: Store, n: nat, k: nat): Sim {
    Sim(s, Fresh(n), k, k, k)
  }

  predicate OnlySteps(events: seq<Event>) {
    forall e :: e in events ==> e.Step?
  }

  predicate RankOnCourse(s: Store, c: Sim, r: nat, pc: Pc, len: nat)
    requires QueryReady(s, c.base)
  {
    && !pc.Failed?
    && (pc.PutXMeta? || pc.PutX? || pc.PutYMeta? || pc.PutY? ==> pc.len == len)
    && (pc.ProbeQuery? || pc.FetchQuery? || pc.FetchQueryMeta? ==> 0 < c.base)
    && (pc.FetchQueryMeta? ==> pc.cell == s[Data(Query(c.base - 1))])
    && (Arrived(pc) ==> Lookup(c.store, Data(SimX(r, c.base))) == Some(Vector(len)))
  }

  ghost predicate OnCourse(s: Store, c: Sim, n: nat, k: nat) {
    && Inv(c) && |c.ranks| == n && c.base == k
    && LaunchReady(s, n, k)
    && (forall r :: 0 <= r < n ==> RankOnCourse(s, c, r, c.ranks[r], SampleLength(s, k)))
    && (forall slot: Slot :: LaunchCell(n, k, SampleLength(s, k), slot).None? ==>
          Lookup(c.store, slot) == Lookup(s, slot))
  }

  lemma OwnRankOnCourse(s: Store, c: Sim, n: nat, k: nat, r: nat)
    requires OnCourse(s, c, n, k) && r < n
    ensures var c' := Next(c, Step(r));
            RankOnCourse(s, c', r, c'.ranks[r], SampleLength(s, k))
  {
    var len := SampleLength(s, k);
    assert RankInv(c, r, c.ranks[r]);
    assert RankOnCourse(s, c, r, c.ranks[r], len);
    assert !Arrived(c.ranks[r]) ==> !Released(c.ranks[0]);
    if 0 < k {
      assert LaunchCell(n, k, len, Data(Query(k - 1))).None?;
      assert LaunchCell(n, k, len, Meta(Query(k - 1))).None?;
    }
  }

  lemma OtherRankOnCourse(s: Store, c: Sim, n: nat, k: nat, r: nat, q: nat)
    requires OnCourse(s, c, n, k) && r < n && q < n && r != q
    ensures var c' := Next(c, Step(r));
            RankOnCourse(s, c', q, c'.ranks[q], SampleLength(s, k))
  {
    assert RankInv(c, r, c.ranks[r]);
    assert RankOnCourse(s, c, q, c.ranks[q], SampleLength(s, k));
    assert Next(c, Step(r)).ranks[q] == c.ranks[q];
  }

  lemma OnCourseStep(s: Store, c: Sim, n: nat, k: nat, r: nat)
    requires OnCourse(s, c, n, k)
    ensures OnCourse(s, Next(c, Step(r)), n, k)
  {
    if r < n {
      var c' := Next(c, Step(r));
      var len := SampleLength(s, k);
      StepInv(c, r);
      assert RankInv(c, r, c.ranks[r]);
      forall q | 0 <= q < n
        ensures RankOnCourse(s, c', q, c'.ranks[q], len)
      {
        if q == r { OwnRankOnCourse(s, c, n, k, r); } else { OtherRankOnCourse(s, c, n, k, r, q); }
      }
      forall slot: Slot | LaunchCell(n, k, len, slot).None?
        ensures Lookup(c'.store, slot) == Lookup(s, slot)
      {
        assert Lookup(c.store, slot) == Lookup(s, slot);
      }
    }
  }

  lemma {:induction false} StaysOnCourse(s: Store, n: nat, k: nat, events: seq<Event>)
    requires LaunchReady(s, n, k) && OnlySteps(events)
    ensures OnCourse(s, Play(Launch(s, n, k), events), n, k)
  {
    if events != [] {
      var m := |events| - 1;
      assert events[m] in events;
      StaysOnCourse(s, n, k, events[..m]);
      OnCourseStep(s, Play(Launch(s, n, k), events[..m]), n, k, events[m].r);
    }
  }

  /** The history variables do not steer a launch. */
  lemma {:induction false} HistoryIgnored(s: Store, n: nat, k: nat, events: seq<Event>)
    requires OnlySteps(events)
    ensures Play(Begin(s, n), events).store == Play(Launch(s, n, k), events).store
    ensures Play(Begin(s, n), events).ranks == Play(Launch(s, n, k), events).ranks
  {
    if events != [] {
      assert events[|events| - 1] in events;
      HistoryIgnored(s, n, k, events[..|events| - 1]);
    }
  }

  /** A launch that finds its query points never fails, and whatever the interleaving leaves the
      same store: every rank's vectors of this iteration, all of one length, and the counter. */
  lemma LaunchCorrect(s: Store, n: nat, k: nat, events: seq<Event>)
    requires LaunchReady(s, n, k) && OnlySteps(events)
    ensures var c := Play(Launch(s, n, k), events);
            && (forall r :: 0 <= r < n ==> !c.ranks[r].Failed?)
            && (AllFinished(c.ranks) ==> LaunchEffect(s, c.store, n, k, SampleLength(s, k)))
  {
    var c := Play(Launch(s, n, k), events);
    var len := SampleLength(s, k);
    StaysOnCourse(s, n, k, events);
    forall r | 0 <= r < n
      ensures !c.ranks[r].Failed?
    {
      assert RankOnCourse(s, c, r, c.ranks[r], len);
    }
    if AllFinished(c.ranks) {
      forall slot: Slot
        ensures Lookup(c.store, slot) ==
                var cell := LaunchCell(n, k, len, slot); if cell.Some? then cell else Lookup(s, slot)
      {
        if LaunchCell(n, k, len, slot).Some? {
          FinalCell(s, c, n, k, slot);
        }
      }
    }
  }

  lemma FinalCell(s: Store, c: Sim, n: nat, k: nat, slot: Slot)
    requires OnCourse(s, c, n, k) && AllFinished(c.ranks)
    requires LaunchCell(n, k, SampleLength(s, k), slot).Some?
    ensures Lookup(c.store, slot) == LaunchCell(n, k, SampleLength(s, k), slot)
  {
    if slot.key.SimX? || slot.key.SimY? {
      var r := slot.key.rank;
      assert RankInv(c, r, c.ranks[r]);
      assert RankOnCourse(s, c, r, c.ranks[r], SampleLength(s, k));
    }
  }

  /** The iteration a launch reads: 0 without a counter, else an `int` under an `int` record. */
  function IterationRead(s: Store): Option<int> {
    match Lookup(s, Data(SimCount))
    case None => Some(0)
    case Some(cell) =>
      if cell.Count? && Lookup(s, Meta(SimCount)) == Some(ScalarRecord(INT32)) then Some(cell.n) else None
  }

  /** The launch finds an iteration, and the query points of the one before. */
  predicate CanLaunch(s: Store) {
    && IterationRead(s).Some? && 0 <= IterationRead(s).value
    && QueryReady(s, IterationRead(s).value)
  }

  /** How far a rank gets in a launch that misses something. */
  predicate Stuck(s: Store, pc: Pc) {
    match pc
    case ProbeCount => true
    case FetchCount => Data(SimCount) in s
    case FetchCountMeta(cell) => Lookup(s, Data(SimCount)) == Some(cell)
    case ProbeQuery(it) => 0 < it && IterationRead(s) == Some(it)
    case FetchQuery(it) => 0 < it && IterationRead(s) == Some(it) && Data(Query(it - 1)) in s
    case FetchQueryMeta(it, cell) =>
      0 < it && IterationRead(s) == Some(it) && Lookup(s, Data(Query(it - 1))) == Some(cell)
    case Failed => true
    case _ => false
  }

  /** A launch that misses its query points, or whose counter is not an `int`, publishes nothing: no
      rank reaches its first write, in any interleaving. */
  lemma {:induction false} CannotLaunch(s: Store, n: nat, k: nat, events: seq<Event>)
    requires !CanLaunch(s) && OnlySteps(events)
    ensures var c := Play(Launch(s, n, k), events);
            c.store == s && forall r :: 0 <= r < n ==> Stuck(s, c.ranks[r])
  {
    if events != [] {
      var last := |events| - 1;
      assert events[last] in events;
      CannotLaunch(s, n, k, events[..last]);
      assert forall r :: 0 <= r < n ==> Stuck(s, Play(Launch(s, n, k), events[..last]).ranks[r]);
    }
  }

  lemma LaunchEffectUnique(s: Store, a: Store, b: Store, n: nat, k: nat, len: nat)
    requires LaunchEffect(s, a, n, k, len) && LaunchEffect(s, b, n, k, len)
    ensures a == b
  {
    forall slot: Slot
      ensures Lookup(a, slot) == Lookup(b, slot)
    {
    }
    assert forall slot: Slot :: slot in a <==> Lookup(a, slot).Some?;
    assert forall slot: Slot :: slot in b <==> Lookup(b, slot).Some?;
    assert forall slot: Slot :: slot in a ==> Lookup(a, slot) == Some(a[slot]);
    assert forall slot: Slot :: slot in b ==> Lookup(b, slot) == Some(b[slot]);
  }

  /** Whatever their interleavings, two executions of a launch from one store end in one store. */
  lemma LaunchDeterministic(s: Store, n: nat, k: nat, one: seq<Event>, other: seq<Event>)
    requires LaunchReady(s, n, k) && OnlySteps(one) && OnlySteps(other)
    requires AllFinished(Play(Launch(s, n, k), one).ranks)
    requires AllFinished(Play(Launch(s, n, k), other).ranks)
    ensures Play(Launch(s, n, k), one).store == Play(Launch(s, n, k), other).store
  {
    LaunchCorrect(s, n, k, one);
    LaunchCorrect(s, n, k, other);
    LaunchEffectUnique(s, Play(Launch(s, n, k), one).store, Play(Launch(s, n, k), other).store,
                       n, k, SampleLength(s, k));
  }

  /** The number of accesses a rank still has to make, at most. */
  function Left(pc: Pc): nat {
    match pc
    case ProbeCount => 13
    case FetchCount => 12
    case FetchCountMeta(_) => 11
    case ProbeQuery(_) => 10
    case FetchQuery(_) => 9
    case FetchQueryMeta(_, _) => 8
    case PutXMeta(_, _) => 7
    case PutX(_, _) => 6
    case PutYMeta(_, _) => 5
    case PutY(_, _) => 4
    case AtBarrier(_) => 3
    case BumpMeta(_) => 2
    case BumpCount(_) => 1
    case Finished(_) => 0
    case Failed => 0
  }

  /** Every access that changes a rank brings it nearer to its end. */
  lemma StepShrinks(c: Sim, r: nat)
    requires r < |c.ranks|
    ensures var pc' := Next(c, Step(r)).ranks[r];
            pc' == c.ranks[r] || Left(pc') < Left(c.ranks[r])
  {
  }

  /** No deadlock: until all ranks are finished some rank's next access brings it nearer to its
      end, so the barrier is always passed. */
  lemma LaunchProgress(s: Store, c: Sim, n: nat, k: nat) returns (r: nat)
    requires OnCourse(s, c, n, k) && !AllFinished(c.ranks)
    ensures r < n && Left(Next(c, Step(r)).ranks[r]) < Left(c.ranks[r])
  {
    if AllArrived(c.ranks) {
      r :| 0 <= r < n && !c.ranks[r].Finished?;
    } else {
      r :| 0 <= r < n && !Arrived(c.ranks[r]);
    }
    OwnRankOnCourse(s, c, n, k, r);
    StepShrinks(c, r);
  }
}
