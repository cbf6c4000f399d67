/** Concurrent typed exchange: the two-key protocol and the codec together.

    Any number of processes put and read one tensor handle while others work on other handles. */
module TypedExchange {
  import opened ByteCodec
  import opened Client
  import opened Handles
  import opened Machine
  import opened MetaData
  import opened SharedStore
  import opened TwoKey
  import opened Wrappers

  /** The item of a tensor of type `t` and shape `dims`. */
  predicate TensorOf(item: Item, t: DType, dims: seq<Word>)
    requires |dims| <= MAX_DIMS
  {
    item.meta == Encode(t.Code(), dims) && |item.data| == Product(dims) * t.Width()
  }

  /** Everything put to `h` is a tensor of this type and shape. */
  predicate TypedOn(run: seq<Event>, h: string, t: DType, dims: seq<Word>)
    requires |dims| <= MAX_DIMS
  {
    forall k :: 0 <= k < |run| && run[k].Call? && run[k].name == h && run[k].op.Put? ==>
      TensorOf(run[k].op.item, t, dims)
  }

  lemma {:induction false} ProjTyped(w: World, run: seq<Event>, h: string, t: DType, dims: seq<Word>)
    requires |dims| <= MAX_DIMS && TypedOn(run, h, t, dims)
    ensures GoodPuts(ProjRun(w, run, h), item => TensorOf(item, t, dims))
  {
    if run != [] {
      var k := |run| - 1;
      forall m | 0 <= m < k && run[..k][m].Call? && run[..k][m].name == h && run[..k][m].op.Put?
        ensures TensorOf(run[..k][m].op.item, t, dims)
      {
        assert run[..k][m] == run[m];
      }
      ProjTyped(w, run[..k], h, t, dims);
    }
  }

  lemma AssembleTensorOf(item: Item, t: DType, dims: seq<Word>)
    requires 0 < |dims| <= MAX_DIMS && Product(dims) < TWO_31 && TensorOf(item, t, dims)
    ensures AssembleTensor(t, item).Ok?
    ensures AssembleTensor(t, item).value.dims == dims
    ensures ImageAll(t.Width(), AssembleTensor(t, item).value.data) == item.data
  {
    var p := Product(dims);
    var xs := LoadAll(t.Width(), p, item.data);
    ImageAllLoadAll(t.Width(), p, item.data);
    LoadAllFits(t.Width(), p, item.data);
    AssembleWhole(t, dims, xs);
  }

  lemma CurrentIsTensor(n: nat, run: seq<Event>, h: string, t: DType, dims: seq<Word>)
    requires CallsApart(run, h) && |dims| <= MAX_DIMS && TypedOn(run, h, t, dims)
    ensures forall item | item in Past(Play(EmptyWorld(n), run), h).datas :: TensorOf(item, t, dims)
  {
    OtherHandlesInvisible(n, run, h);
    ProjTyped(EmptyWorld(n), run, h, t, dims);
    OnlyPutItems(n, ProjRun(EmptyWorld(n), run, h), item => TensorOf(item, t, dims));
  }

  /** Never torn, never mistyped: with any interleaving of any writers, readers and deletes, every
      read of the handle that returns a value decodes to a tensor of the right type and shape whose
      bytes are exactly those that were current at the reader's own data fetch. */
  lemma ReadsAreWholeTensors(n: nat, run: seq<Event>, names: set<string>, h: string,
                             t: DType, dims: seq<Word>, p: nat, item: Item)
    returns (k: nat)
    requires NonColliding(names) && CallsIn(run, names) && h in names
    requires 0 < |dims| <= MAX_DIMS && Product(dims) < TWO_31 && TypedOn(run, h, t, dims)
    requires p < n
    requires var proc := Play(EmptyWorld(n), run).procs[p];
             proc.name == h && ReadItem(proc.pc, Encode(t.Code(), dims)) == Some(item)
    ensures OwnFetchFrom(n, run, p, h, item, k)
    ensures var r := AssembleTensor(t, item);
            r.Ok? && r.value.dims == dims && ImageAll(t.Width(), r.value.data) == item.data
  {
    CallsInApart(run, names, h);
    k := SharedReadReturnsCurrent(n, run, h, Encode(t.Code(), dims), p, item);
    assert TypedOn(run[..k], h, t, dims) && CallsApart(run[..k], h);
    CurrentIsTensor(n, run[..k], h, t, dims);
    AssembleTensorOf(item, t, dims);
  }

  // Undisturbed calls are the client's calls.

  /** `n` more accesses of process `p`. */
  function Steps(w: World, p: nat, n: nat): (w': World)
    ensures |w'.procs| == |w.procs|
  {
    if n == 0 then w else Next(Steps(w, p, n - 1), Step(p))
  }

  /** A put that nobody disturbs is the client's put. */
  lemma UndisturbedPut(w: World, p: nat, name: string, item: Item)
    requires p < |w.procs| && Free(w.procs[p].pc)
    ensures var w' := Steps(Next(w, Call(p, name, Put(item))), p, 2);
            w'.store == PutItem(w.store, name, item) && w'.procs[p] == Proc(name, Idle)
  {
    var w1 := Next(w, Call(p, name, Put(item)));
    assert w1.procs[p] == Proc(name, PutMeta(item));
    var w2 := Next(w1, Step(p));
    assert w2.procs[p] == Proc(name, PutData(item));
    assert Steps(w1, p, 1) == w2 && Steps(w1, p, 2) == Next(w2, Step(p));
  }

  /** A delete that nobody disturbs is the client's delete. */
  lemma UndisturbedDelete(w: World, p: nat, name: string)
    requires p < |w.procs| && Free(w.procs[p].pc)
    ensures var w' := Steps(Next(w, Call(p, name, Delete)), p, 3);
            w'.store == DeleteItem(w.store, name) && w'.procs[p] == Proc(name, Idle)
  {
    MetadataKeyInjective(name, name);
    var w1 := Next(w, Call(p, name, Delete));
    var w2 := Next(w1, Step(p));
    assert w2.procs[p] == Proc(name, ProbeMeta);
    var w3 := Next(w2, Step(p));
    assert Steps(w1, p, 1) == w2 && Steps(w1, p, 2) == w3 && Steps(w1, p, 3) == Next(w3, Step(p));
    assert MetadataKey(name) !in w.store ==> w3.procs[p] == Proc(name, Idle) && w3.store == w2.store;
    assert MetadataKey(name) in w.store ==> w3.procs[p] == Proc(name, DeleteMeta) && w3.store == w2.store;
  }

  /** What the client makes of a finished read. */
  function Decoded(outcome: Outcome): Result<Item> {
    match outcome
    case Got(item, _, _) =>
      (match FromBuffer(item.meta)
       case Ok(_) => Ok(item)
       case Err(e) => Err(e))
    case NoData => Err(KeyNotFound)
    case NoMeta => Err(KeyNotFound)
    case TimedOut => Err(Timeout)
  }

  /** A get that nobody disturbs is the client's get, and so is a wait whose data is there. */
  lemma UndisturbedRead(w: World, p: nat, name: string)
    requires p < |w.procs| && Free(w.procs[p].pc)
    ensures var pc := Steps(Next(w, Call(p, name, Get)), p, 2).procs[p].pc;
            pc.Returned? && Decoded(pc.outcome) == GetItem(w.store, name)
    ensures DataKey(name) in w.store ==>
              var pc := Steps(Next(w, Call(p, name, Wait)), p, 3).procs[p].pc;
              pc.Returned? && Decoded(pc.outcome) == GetItem(w.store, name)
  {
    var g1 := Next(w, Call(p, name, Get));
    FetchTwice(g1, p, name);
    if DataKey(name) in w.store {
      var w1 := Next(w, Call(p, name, Wait));
      var w2 := Next(w1, Step(p));
      assert w2.procs[p] == Proc(name, FetchData) && w2.store == w.store;
      FetchTwice(w2, p, name);
      assert Steps(w1, p, 1) == w2;
      assert Steps(w1, p, 2) == Next(w2, Step(p)) == Steps(w2, p, 1);
      assert Steps(w1, p, 3) == Steps(w2, p, 2);
    }
  }

  /** A wait that gives up on a missing key reports a timeout and leaves the store alone. */
  lemma UndisturbedTimeout(w: World, p: nat, name: string)
    requires p < |w.procs| && Free(w.procs[p].pc) && DataKey(name) !in w.store
    ensures var w' := Next(Steps(Next(w, Call(p, name, Wait)), p, 1), GiveUpWait(p));
            && w'.store == w.store && w'.procs[p].pc.Returned?
            && Decoded(w'.procs[p].pc.outcome) == Err(Timeout)
  {
    var w1 := Next(w, Call(p, name, Wait));
    assert Steps(w1, p, 1) == Next(Steps(w1, p, 0), Step(p)) == Next(w1, Step(p));
  }

  lemma FetchTwice(w: World, p: nat, name: string)
    requires p < |w.procs| && w.procs[p] == Proc(name, FetchData)
    ensures var pc := Steps(w, p, 2).procs[p].pc;
            pc.Returned? && Decoded(pc.outcome) == GetItem(w.store, name)
  {
    var w1 := Next(w, Step(p));
    assert Steps(w, p, 1) == w1 && Steps(w, p, 2) == Next(w1, Step(p));
    assert w1.store == w.store;
  }
}
