/** The shared key-value store with any number of processes working on any handles.

    The two-key protocol is stated here on real keys. As long as names do not collide, what a run
    does to one handle is a run of that handle's two cells alone (module TwoKey): the other
    handles are invisible, and every result about the two cells holds in the shared store. */
module SharedStore {
  import opened ByteCodec
  import opened Handles
  import opened Register
  import opened MetaData
  import opened TwoKey
  import opened Wrappers

  datatype History = History(metas: seq<Item>, datas: seq<Item>, latest: Option<Item>)

  datatype Proc = Proc(name: string, pc: Pc)

  datatype World = World(store: Store, past: map<string, History>, procs: seq<Proc>)

  datatype Event = Call(p: nat, name: string, op: Op) | Step(p: nat) | GiveUpWait(p: nat)

  function Past(w: World, name: string): History {
    if name in w.past then w.past[name] else History([], [], None)
  }

  function CellsOf(w: World, name: string): Cells {
    var h := Past(w, name);
    Cells(Lookup(w.store, MetadataKey(name)), Lookup(w.store, DataKey(name)),
          h.metas, h.datas, h.latest)
  }

  /** The store after the next access of `proc`; reads and probes leave it alone. */
  function StoreAfter(store: Store, proc: Proc): Store {
    match proc.pc
    case PutMeta(item) => store[MetadataKey(proc.name) := item.meta]
    case PutData(item) => store[DataKey(proc.name) := item.data]
    case DeleteData => store - {DataKey(proc.name)}
    case DeleteMeta => store - {MetadataKey(proc.name)}
    case _ => store
  }

  function PastAfter(w: World, proc: Proc): History {
    var h := Past(w, proc.name);
    match proc.pc
    case PutMeta(item) => h.(metas := h.metas + [item])
    case PutData(item) => h.(datas := h.datas + [item], latest := Some(item))
    case ProbeMeta => if MetadataKey(proc.name) in w.store then h else h.(latest := None)
    case DeleteMeta => h.(latest := None)
    case _ => h
  }

  function PcAfter(w: World, proc: Proc): Pc {
    var dataKey, metaKey, h := DataKey(proc.name), MetadataKey(proc.name), Past(w, proc.name);
    match proc.pc
    case PutMeta(item) => PutData(item)
    case PutData(_) => Idle
    case Probe => if dataKey in w.store then FetchData else Probe
    case FetchData =>
      if dataKey in w.store then FetchMeta(w.store[dataKey], |h.datas| - 1) else Returned(NoData)
    case FetchMeta(data, i) =>
      Returned(if metaKey in w.store then Got(Item(w.store[metaKey], data), i, |h.metas| - 1)
               else NoMeta)
    case DeleteData => ProbeMeta
    case ProbeMeta => if metaKey in w.store then DeleteMeta else Idle
    case DeleteMeta => Idle
    case pc => pc
  }

  function Next(w: World, e: Event): (w': World)
    ensures |w'.procs| == |w.procs|
  {
    match e
    case Call(p, name, op) =>
      if p < |w.procs| && Free(w.procs[p].pc)
      then w.(procs := w.procs[p := Proc(name, Start(op))]) else w
    case Step(p) =>
      if p < |w.procs| then
        var proc := w.procs[p];
        World(StoreAfter(w.store, proc), w.past[proc.name := PastAfter(w, proc)],
              w.procs[p := proc.(pc := PcAfter(w, proc))])
      else w
    case GiveUpWait(p) =>
      if p < |w.procs| && w.procs[p].pc.Probe? && DataKey(w.procs[p].name) !in w.store
      then w.(procs := w.procs[p := w.procs[p].(pc := Returned(TimedOut))]) else w
  }

  function Play(w: World, run: seq<Event>): (w': World)
    ensures |w'.procs| == |w.procs|
  {
    if run == [] then w else Next(Play(w, run[..|run| - 1]), run[|run| - 1])
  }

  function EmptyWorld(n: nat): World {
    World(map[], map[], seq(n, _ => Proc("", Idle)))
  }

  // Projection to one handle.

  function ProjPc(proc: Proc, h: string): Pc {
    if proc.name == h then proc.pc else Idle
  }

  function Proj(w: World, h: string): Config {
    Config(CellsOf(w, h), seq(|w.procs|, p requires 0 <= p < |w.procs| => ProjPc(w.procs[p], h)))
  }

  function ProjEvent(w: World, e: Event, h: string): Label {
    if e.p >= |w.procs| then Tau
    else
      var proc := w.procs[e.p];
      match e
      case Call(p, name, op) =>
        if !Free(proc.pc) then Tau
        else if name == h then Begin(p, op)
        else if proc.name == h then Leave(p)
        else Tau
      case Step(p) => if proc.name == h then Run(p) else Tau
      case GiveUpWait(p) => if proc.name == h then Expire(p) else Tau
  }

  function ProjRun(w: World, run: seq<Event>, h: string): (r: seq<Label>)
    ensures |r| == |run|
  {
    if run == [] then []
    else
      var before := run[..|run| - 1];
      ProjRun(w, before, h) + [ProjEvent(Play(w, before), run[|run| - 1], h)]
  }

  /** Whoever is at work is at work on `h` or on a name apart from it. */
  predicate WorkersApart(w: World, h: string) {
    forall p :: 0 <= p < |w.procs| && !Free(w.procs[p].pc) ==>
      w.procs[p].name == h || Apart(w.procs[p].name, h)
  }

  predicate CallsApart(run: seq<Event>, h: string) {
    forall k :: 0 <= k < |run| && run[k].Call? ==> run[k].name == h || Apart(run[k].name, h)
  }

  predicate CallsIn(run: seq<Event>, names: set<string>) {
    forall k :: 0 <= k < |run| && run[k].Call? ==> run[k].name in names
  }

  lemma CallsInApart(run: seq<Event>, names: set<string>, h: string)
    requires NonColliding(names) && CallsIn(run, names) && h in names
    ensures CallsApart(run, h)
  {
  }

  lemma CellsAfterAccess(w: World, p: nat, h: string)
    requires p < |w.procs| && WorkersApart(w, h)
    ensures var proc := w.procs[p];
            CellsOf(Next(w, Step(p)), h) ==
            if proc.name == h then Access(CellsOf(w, h), proc.pc).0 else CellsOf(w, h)
  {
    MetadataKeyInjective(w.procs[p].name, h);
    MetadataKeyInjective(h, h);
  }

  lemma ProjAccess(w: World, p: nat, h: string)
    requires p < |w.procs| && WorkersApart(w, h)
    ensures Proj(Next(w, Step(p)), h) == Apply(Proj(w, h), ProjEvent(w, Step(p), h))
    ensures WorkersApart(Next(w, Step(p)), h)
  {
    CellsAfterAccess(w, p, h);
    var w', c' := Next(w, Step(p)), Apply(Proj(w, h), ProjEvent(w, Step(p), h));
    var proc := w.procs[p];
    if proc.name == h {
      assert Access(CellsOf(w, h), proc.pc).1 == PcAfter(w, proc);
    }
    assert Proj(w', h).procs == c'.procs;
  }

  lemma ProjStep(w: World, e: Event, h: string)
    requires WorkersApart(w, h)
    requires e.Call? ==> e.name == h || Apart(e.name, h)
    ensures Proj(Next(w, e), h) == Apply(Proj(w, h), ProjEvent(w, e, h))
    ensures WorkersApart(Next(w, e), h)
  {
    if e.Step? && e.p < |w.procs| {
      ProjAccess(w, e.p, h);
    } else {
      assert Next(w, e).store == w.store && Next(w, e).past == w.past;
      assert Proj(Next(w, e), h).procs == Apply(Proj(w, h), ProjEvent(w, e, h)).procs;
    }
  }

  /** What a run of the shared store does to one handle is a run of its two cells alone. */
  lemma {:induction false} OtherHandlesInvisible(n: nat, run: seq<Event>, h: string)
    requires CallsApart(run, h)
    ensures Proj(Play(EmptyWorld(n), run), h) == Exec(Init(n), ProjRun(EmptyWorld(n), run, h))
    ensures WorkersApart(Play(EmptyWorld(n), run), h)
  {
    if run == [] {
      assert Proj(EmptyWorld(n), h).procs == Init(n).procs;
    } else {
      var k := |run| - 1;
      var before := run[..k];
      forall m | 0 <= m < |before| && before[m].Call?
        ensures before[m].name == h || Apart(before[m].name, h)
      {
        assert before[m] == run[m];
      }
      OtherHandlesInvisible(n, before, h);
      assert run[k].Call? ==> run[k].name == h || Apart(run[k].name, h);
      ProjStep(Play(EmptyWorld(n), before), run[k], h);
      assert ProjRun(EmptyWorld(n), run, h)[..k] == ProjRun(EmptyWorld(n), before, h);
    }
  }

  // The results about two cells, in the shared store.

  predicate StableOn(run: seq<Event>, h: string, meta: Bytes) {
    forall k :: 0 <= k < |run| && run[k].Call? && run[k].name == h ==>
      StableLabel(Begin(run[k].p, run[k].op), meta)
  }

  lemma {:induction false} ProjStable(w: World, run: seq<Event>, h: string, meta: Bytes)
    requires StableOn(run, h, meta)
    ensures StableRun(ProjRun(w, run, h), meta)
  {
    if run != [] {
      var k := |run| - 1;
      forall m | 0 <= m < k && run[..k][m].Call? && run[..k][m].name == h
        ensures StableLabel(Begin(run[..k][m].p, run[..k][m].op), meta)
      {
        assert run[..k][m] == run[m];
      }
      ProjStable(w, run[..k], h, meta);
    }
  }

  /** In the shared store, any traffic on other handles included, a handle put with only one
      metadata record is an atomic register. */
  lemma SharedLinearizable(n: nat, run: seq<Event>, names: set<string>, h: string, meta: Bytes)
    requires NonColliding(names) && CallsIn(run, names) && h in names
    requires StableOn(run, h, meta)
    ensures Abs(Proj(Play(EmptyWorld(n), run), h), meta) ==
            RegExec(RegInit(n), AbsRun(Init(n), ProjRun(EmptyWorld(n), run, h)))
  {
    CallsInApart(run, names, h);
    OtherHandlesInvisible(n, run, h);
    ProjStable(EmptyWorld(n), run, h, meta);
    Linearizable(n, ProjRun(EmptyWorld(n), run, h), meta);
  }

  lemma {:induction false} ProjEventBack(n: nat, run: seq<Event>, h: string, k: nat, p: nat)
    requires k < |run| && ProjRun(EmptyWorld(n), run, h)[k] == Run(p)
    ensures run[k] == Step(p) && p < n
    ensures Play(EmptyWorld(n), run[..k]).procs[p].name == h
  {
    ProjRunPrefix(EmptyWorld(n), run, h, k);
  }

  /** Everything put to `h` has this metadata record. */
  predicate RecordOn(run: seq<Event>, h: string, meta: Bytes) {
    forall k :: 0 <= k < |run| && run[k].Call? && run[k].name == h && run[k].op.Put? ==>
      run[k].op.item.meta == meta
  }

  lemma {:induction false} ProjRecord(w: World, run: seq<Event>, h: string, meta: Bytes)
    requires RecordOn(run, h, meta)
    ensures RecordRun(ProjRun(w, run, h), meta)
  {
    if run != [] {
      var k := |run| - 1;
      forall m | 0 <= m < k && run[..k][m].Call? && run[..k][m].name == h && run[..k][m].op.Put?
        ensures run[..k][m].op.item.meta == meta
      {
        assert run[..k][m] == run[m];
      }
      ProjRecord(w, run[..k], h, meta);
    }
  }

  /** The reader is about to fetch the data of `item`, the current item of `h`. */
  predicate FetchesFrom(w: World, p: nat, h: string, item: Item) {
    && p < |w.procs| && w.procs[p] == Proc(h, FetchData)
    && Lookup(w.store, DataKey(h)) == Some(item.data)
    && Past(w, h).datas != [] && Past(w, h).datas[|Past(w, h).datas| - 1] == item
  }

  /** The process is in, or has returned from, a read of `h` that fetched the data of `item`. */
  predicate HoldsItem(w: World, p: nat, h: string, item: Item) {
    p < |w.procs| && w.procs[p].name == h && ReadItem(w.procs[p].pc, item.meta) == Some(item)
  }

  /** Step `k` is the data fetch of the read of `h` that holds or returned `item`, the item current
      there. */
  predicate OwnFetchFrom(n: nat, run: seq<Event>, p: nat, h: string, item: Item, k: nat) {
    && k < |run| && run[k] == Step(p)
    && FetchesFrom(Play(EmptyWorld(n), run[..k]), p, h, item)
    && forall m :: k < m <= |run| ==> HoldsItem(Play(EmptyWorld(n), run[..m]), p, h, item)
  }

  /** In the shared store, each read of such a handle that returns a value returns the item that was
      current at its own data fetch. */
  lemma SharedReadReturnsCurrent(n: nat, run: seq<Event>, h: string, meta: Bytes, p: nat, item: Item)
    returns (k: nat)
    requires CallsApart(run, h) && RecordOn(run, h, meta) && p < n
    requires var proc := Play(EmptyWorld(n), run).procs[p];
             proc.name == h && ReadItem(proc.pc, meta) == Some(item)
    ensures OwnFetchFrom(n, run, p, h, item, k)
  {
    var w0 := EmptyWorld(n);
    var labels := ProjRun(w0, run, h);
    OtherHandlesInvisible(n, run, h);
    ProjRecord(w0, run, h, meta);
    assert Proj(Play(w0, run), h).procs[p] == Play(w0, run).procs[p].pc;
    k := ReadReturnsCurrentItem(n, labels, meta, p);
    ProjEventBack(n, run, h, k, p);
    ProjAt(n, run, h, k);
    ProjFetches(Play(w0, run[..k]), h, p, item);
    forall m | k < m <= |run|
      ensures HoldsItem(Play(w0, run[..m]), p, h, item)
    {
      ProjAt(n, run, h, m);
      assert Proj(Play(w0, run[..m]), h).procs[p] == ProjPc(Play(w0, run[..m]).procs[p], h);
    }
  }

  /** A prefix of a run projects to a prefix. */
  lemma ProjAt(n: nat, run: seq<Event>, h: string, k: nat)
    requires CallsApart(run, h) && k <= |run|
    ensures Proj(Play(EmptyWorld(n), run[..k]), h) ==
            Exec(Init(n), ProjRun(EmptyWorld(n), run, h)[..k])
  {
    var labels := ProjRun(EmptyWorld(n), run, h);
    if k < |run| {
      ProjRunPrefix(EmptyWorld(n), run, h, k);
    } else {
      assert run[..k] == run && labels[..k] == labels;
    }
    assert CallsApart(run[..k], h);
    OtherHandlesInvisible(n, run[..k], h);
  }

  lemma ProjFetches(w: World, h: string, p: nat, item: Item)
    requires p < |w.procs| && w.procs[p].name == h
    requires FetchesCurrent(Proj(w, h), p, item)
    ensures FetchesFrom(w, p, h, item)
  {
    assert Proj(w, h).procs[p] == ProjPc(w.procs[p], h);
  }

  /** No put or delete is in progress on `h`. */
  predicate NoWriterOn(w: World, h: string) {
    forall p :: 0 <= p < |w.procs| ==> !(w.procs[p].name == h && Writer(w.procs[p].pc))
  }

  /** Puts and deletes on `h` are called only while no other is in progress on `h`. */
  predicate SerialisedOn(w: World, e: Event, h: string) {
    e.Call? && e.name == h && TwoKey.Writing(e.op) ==> NoWriterOn(w, h)
  }

  lemma ProjNoWriter(w: World, h: string)
    ensures NoWriterOn(w, h) <==> NoWriter(Proj(w, h))
  {
    assert forall p :: 0 <= p < |w.procs| ==> Proj(w, h).procs[p] == ProjPc(w.procs[p], h);
  }

  predicate SerialisedPlay(w: World, run: seq<Event>, h: string) {
    forall k :: 0 <= k < |run| ==> SerialisedOn(Play(w, run[..k]), run[k], h)
  }

  lemma ProjSerialised(n: nat, run: seq<Event>, h: string)
    requires CallsApart(run, h) && SerialisedPlay(EmptyWorld(n), run, h)
    ensures SerialisedRun(Init(n), ProjRun(EmptyWorld(n), run, h))
  {
    var labels := ProjRun(EmptyWorld(n), run, h);
    forall k | 0 <= k < |labels|
      ensures Serialised(Exec(Init(n), labels[..k]), labels[k])
    {
      ProjRunPrefix(EmptyWorld(n), run, h, k);
      ProjAt(n, run, h, k);
      var w := Play(EmptyWorld(n), run[..k]);
      assert SerialisedOn(w, run[k], h);
      ProjNoWriter(w, h);
    }
  }

  /** A put on `h` is called only while no delete of `h` is in progress, and a delete only while no
      put is. */
  predicate ExclusiveOn(w: World, e: Event, h: string) {
    e.Call? && e.name == h ==>
      forall p :: 0 <= p < |w.procs| && w.procs[p].name == h ==>
        && (e.op.Put? ==> !Deleting(w.procs[p].pc))
        && (e.op.Delete? ==> !Putting(w.procs[p].pc))
  }

  predicate ExclusivePlay(w: World, run: seq<Event>, h: string) {
    forall k :: 0 <= k < |run| ==> ExclusiveOn(Play(w, run[..k]), run[k], h)
  }

  lemma ProjExclusive(n: nat, run: seq<Event>, h: string)
    requires CallsApart(run, h) && ExclusivePlay(EmptyWorld(n), run, h)
    ensures ExclusiveRun(Init(n), ProjRun(EmptyWorld(n), run, h))
  {
    var labels := ProjRun(EmptyWorld(n), run, h);
    forall k | 0 <= k < |labels|
      ensures Exclusive(Exec(Init(n), labels[..k]), labels[k])
    {
      ProjRunPrefix(EmptyWorld(n), run, h, k);
      ProjAt(n, run, h, k);
      var w := Play(EmptyWorld(n), run[..k]);
      assert ExclusiveOn(w, run[k], h);
      assert forall p :: 0 <= p < |w.procs| ==> Proj(w, h).procs[p] == ProjPc(w.procs[p], h);
    }
  }

  lemma {:induction false} ProjRunPrefix(w: World, run: seq<Event>, h: string, k: nat)
    requires k < |run|
    ensures ProjRun(w, run, h)[..k] == ProjRun(w, run[..k], h)
    ensures ProjRun(w, run, h)[k] == ProjEvent(Play(w, run[..k]), run[k], h)
  {
    var last := |run| - 1;
    assert ProjRun(w, run, h)[..last] == ProjRun(w, run[..last], h);
    if k < last {
      ProjRunPrefix(w, run[..last], h, k);
      assert run[..last][..k] == run[..k];
    }
  }

  /** In the shared store: data of a handle is never there without metadata, as long as no delete of
      the handle overlaps a put of it. */
  lemma SharedDataImpliesMetadata(n: nat, run: seq<Event>, names: set<string>, h: string)
    requires NonColliding(names) && CallsIn(run, names) && h in names
    requires ExclusivePlay(EmptyWorld(n), run, h)
    ensures var s := Play(EmptyWorld(n), run).store; DataKey(h) in s ==> MetadataKey(h) in s
  {
    CallsInApart(run, names, h);
    OtherHandlesInvisible(n, run, h);
    ProjExclusive(n, run, h);
    DataImpliesMetadata(n, ProjRun(EmptyWorld(n), run, h));
  }

  /** In the shared store, with serialised owners: while no put or delete of the handle is in progress
      its two keys are those of its last put, or both absent. */
  lemma SharedPairIsLatest(n: nat, run: seq<Event>, names: set<string>, h: string)
    requires NonColliding(names) && CallsIn(run, names) && h in names
    requires SerialisedPlay(EmptyWorld(n), run, h)
    ensures var w := Play(EmptyWorld(n), run); NoWriterOn(w, h) ==> HoldsLatest(CellsOf(w, h))
  {
    CallsInApart(run, names, h);
    OtherHandlesInvisible(n, run, h);
    ProjSerialised(n, run, h);
    PairIsLatest(n, ProjRun(EmptyWorld(n), run, h));
    ProjNoWriter(Play(EmptyWorld(n), run), h);
  }

  /** In the shared store, with serialised owners: every completed read pairs data of one version
      with metadata of a version that is not older. */
  lemma SharedVersionMonotone(n: nat, run: seq<Event>, names: set<string>, h: string, p: nat,
                              item: Item, i: int, j: int)
    requires NonColliding(names) && CallsIn(run, names) && h in names
    requires SerialisedPlay(EmptyWorld(n), run, h) && p < n
    requires Play(EmptyWorld(n), run).procs[p] == Proc(h, Returned(Got(item, i, j)))
    ensures ReadOfVersions(CellsOf(Play(EmptyWorld(n), run), h), item, i, j)
  {
    CallsInApart(run, names, h);
    OtherHandlesInvisible(n, run, h);
    ProjSerialised(n, run, h);
    VersionMonotone(n, ProjRun(EmptyWorld(n), run, h), p);
    var w := Play(EmptyWorld(n), run);
    assert Proj(w, h).procs[p] == ProjPc(w.procs[p], h);
  }

  predicate NeverDeleted(run: seq<Event>, h: string) {
    forall k :: 0 <= k < |run| && run[k].Call? && run[k].name == h ==> !run[k].op.Delete?
  }

  lemma {:induction false} ProjNoDeletes(w: World, run: seq<Event>, h: string)
    requires NeverDeleted(run, h)
    ensures NoDeletes(ProjRun(w, run, h))
  {
    if run != [] {
      var k := |run| - 1;
      forall m | 0 <= m < k && run[..k][m].Call? && run[..k][m].name == h
        ensures !run[..k][m].op.Delete?
      {
        assert run[..k][m] == run[m];
      }
      ProjNoDeletes(w, run[..k], h);
    }
  }

  /** In the shared store, a handle that nobody deletes never makes a read fail on missing metadata,
      whatever its writers do and however they race. */
  lemma SharedUndeletedKeepsMetadata(n: nat, run: seq<Event>, names: set<string>, h: string, p: nat)
    requires NonColliding(names) && CallsIn(run, names) && h in names
    requires NeverDeleted(run, h) && p < n
    ensures Play(EmptyWorld(n), run).procs[p] != Proc(h, Returned(NoMeta))
  {
    CallsInApart(run, names, h);
    OtherHandlesInvisible(n, run, h);
    ProjNoDeletes(EmptyWorld(n), run, h);
    UndeletedKeepsMetadata(n, ProjRun(EmptyWorld(n), run, h));
    var w := Play(EmptyWorld(n), run);
    assert Proj(w, h).procs[p] == ProjPc(w.procs[p], h);
  }

  /** The process is in a read of `h` that has its data, or has returned from it without metadata. */
  predicate HasDataOf(w: World, p: nat, h: string) {
    p < |w.procs| && w.procs[p].name == h && HasData(w.procs[p].pc)
  }

  /** A step of `run` removes the metadata of `h` while the read that `p` ends with has its data. */
  predicate DeletedUnderRead(n: nat, run: seq<Event>, p: nat, h: string, m: nat) {
    && m < |run| && run[m].Step? && run[m].p < n && p < n
    && Play(EmptyWorld(n), run[..m]).procs[run[m].p] == Proc(h, DeleteMeta)
    && Play(EmptyWorld(n), run[..m]).procs[p].pc.FetchMeta?
    && forall j :: m <= j <= |run| ==> HasDataOf(Play(EmptyWorld(n), run[..j]), p, h)
  }

  lemma ProjHasData(n: nat, run: seq<Event>, h: string, p: nat, j: nat)
    requires CallsApart(run, h) && p < n && j <= |run|
    requires HasData(Exec(Init(n), ProjRun(EmptyWorld(n), run, h)[..j]).procs[p])
    ensures HasDataOf(Play(EmptyWorld(n), run[..j]), p, h)
  {
    ProjAt(n, run, h, j);
    var w := Play(EmptyWorld(n), run[..j]);
    assert Proj(w, h).procs[p] == ProjPc(w.procs[p], h);
  }

  /** In the shared store, a read or wait fails on missing metadata only if a delete of that handle
      removed it after that same read had fetched its data. */
  lemma SharedNeverMissingMetadata(n: nat, run: seq<Event>, names: set<string>, h: string, p: nat)
    returns (m: nat)
    requires NonColliding(names) && CallsIn(run, names) && h in names
    requires ExclusivePlay(EmptyWorld(n), run, h) && p < n
    requires Play(EmptyWorld(n), run).procs[p] == Proc(h, Returned(NoMeta))
    ensures DeletedUnderRead(n, run, p, h, m)
  {
    var w0 := EmptyWorld(n);
    CallsInApart(run, names, h);
    OtherHandlesInvisible(n, run, h);
    ProjExclusive(n, run, h);
    assert Proj(Play(w0, run), h).procs[p] == ProjPc(Play(w0, run).procs[p], h);
    m := NeverMissingMetadata(n, ProjRun(w0, run, h), p);
    var q := ProjRun(w0, run, h)[m].p;
    ProjEventBack(n, run, h, m, q);
    ProjAt(n, run, h, m);
    assert Proj(Play(w0, run[..m]), h).procs[q] == ProjPc(Play(w0, run[..m]).procs[q], h);
    forall j | m <= j <= |run|
      ensures HasDataOf(Play(w0, run[..j]), p, h)
    {
      ProjHasData(n, run, h, p, j);
    }
    ProjHasData(n, run, h, p, m);
    assert Proj(Play(w0, run[..m]), h).procs[p] == ProjPc(Play(w0, run[..m]).procs[p], h);
  }
}
