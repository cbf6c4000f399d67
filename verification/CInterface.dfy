/** The client object and the C tensor routines, step by step over caller-supplied arrays. */
module CInterface {
  import opened ByteCodec
  import opened Client
  import opened Handles
  import opened Machine
  import opened MetaData
  import opened WaitLoop
  import opened Wrappers

  datatype Status = OK | Failed(error: Error)

  /** The target of a `size_t *` argument. */
  class OutParam {
    var value: Word

    constructor (value: Word)
      ensures this.value == value
    {
      this.value := value;
    }
  }

  /** Memory `before` after `xs`, which fits, was copied to its start. */
  function Overwritten<T>(before: seq<T>, xs: seq<T>): seq<T> {
    if |xs| <= |before| then xs + before[|xs|..] else xs
  }

  lemma OverwrittenAt<T>(before: seq<T>, xs: seq<T>, i: nat)
    requires |xs| <= |before| && i < |before|
    ensures |Overwritten(before, xs)| == |before|
    ensures Overwritten(before, xs)[i] == if i < |xs| then xs[i] else before[i]
  {
  }

  /** The contents of the three outputs of a tensor read; a null array has none. */
  datatype Outputs = Outputs(data: Option<seq<nat>>, rank: Word, dims: Option<seq<Word>>)

  function Contents<T>(a: array?<T>): Option<seq<T>>
    reads a
  {
    if a == null then None else Some(a[..])
  }

  function OutputsOf(outData: array?<nat>, outRank: OutParam, outDims: array?<Word>): Outputs
    reads outData, outRank, outDims
  {
    Outputs(Contents(outData), outRank.value, Contents(outDims))
  }

  function Copy<T>(before: Option<seq<T>>, xs: seq<T>): Option<seq<T>> {
    if before.Some? then Some(Overwritten(before.value, xs)) else None
  }

  /** The outputs after a successful read. */
  function Filled(before: Outputs, data: seq<nat>, rank: Word, dims: seq<Word>): Outputs {
    Outputs(Copy(before.data, data), rank, Copy(before.dims, dims))
  }

  /** One access to the byte store. */
  datatype Access = Puts(key: string) | Gets(key: string) | Looks(key: string) | Deletes(key: string)

  /** The accesses of a put: metadata, then data. */
  function PutAccesses(name: string): seq<Access> {
    [Puts(MetadataKey(name)), Puts(DataKey(name))]
  }

  /** The capacity checks, in the order the routines make them. */
  function CheckCapacity(r: Result<Tensor>, maxElements: Word, maxDims: Word): Status {
    match r
    case Err(e) => Failed(e)
    case Ok(tensor) =>
      if |tensor.data| > maxElements then Failed(BufferTooSmall)
      else if |tensor.dims| > maxDims then Failed(RankMismatch)
      else OK
  }

  method CopyInto<T>(xs: seq<T>, out: array?<T>)
    requires out != null ==> |xs| <= out.Length
    modifies out
    ensures out != null ==> out[..] == Overwritten(old(out[..]), xs)
  {
    if out != null {
      for i := 0 to |xs|
        invariant out[..i] == xs[..i]
        invariant out[i..] == old(out[i..])
      {
        out[i] := xs[i];
        assert out[..i + 1] == out[..i] + [xs[i]];
      }
      assert out[..] == out[..|xs|] + out[|xs|..];
    }
  }

  class Session {
    var store: Store

    /** Every access made so far, in order. */
    ghost var accesses: seq<Access>

    constructor ()
      ensures store == map[] && accesses == []
    {
      store, accesses := map[], [];
    }

    method Contains(key: string) returns (found: bool)
      modifies this`accesses
      ensures found <==> key in store
      ensures accesses == old(accesses) + [Looks(key)]
    {
      found := key in store;
      accesses := accesses + [Looks(key)];
    }

    method PutBytes(key: string, bytes: Bytes)
      modifies this
      ensures store == old(store)[key := bytes]
      ensures accesses == old(accesses) + [Puts(key)]
    {
      store := store[key := bytes];
      accesses := accesses + [Puts(key)];
    }

    method GetBytes(key: string) returns (r: Result<Bytes>)
      modifies this`accesses
      ensures r == if key in store then Ok(store[key]) else Err(KeyNotFound)
      ensures accesses == old(accesses) + [Gets(key)]
    {
      r := if key in store then Ok(store[key]) else Err(KeyNotFound);
      accesses := accesses + [Gets(key)];
    }

    method DeleteKey(key: string)
      modifies this
      ensures store == old(store) - {key}
      ensures accesses == old(accesses) + [Deletes(key)]
    {
      store := store - {key};
      accesses := accesses + [Deletes(key)];
    }

    method PutScalar(name: string, t: DType, x: nat)
      requires x < Patterns(t.Width())
      modifies this
      ensures store == PutItem(old(store), name, ScalarItem(t, x))
      ensures GetScalar(store, name, t) == Ok(x)
      ensures accesses == old(accesses) + PutAccesses(name)
    {
      var noDims := new Word[0];
      var meta := MakeBuffer(t, noDims);
      assert noDims[..] == [];
      PutBytes(MetadataKey(name), meta);
      PutBytes(DataKey(name), Image(t.Width(), x));
      ScalarReadBack(old(store), name, t, x, t);
    }

    method PutTensor(name: string, t: DType, dims: array<Word>, elements: array<nat>, n: Word)
      requires dims.Length <= MAX_DIMS && Copied(t, n) <= elements.Length
      modifies this
      ensures store == PutItem(old(store), name, TensorItem(t, dims[..], elements[..], n))
      ensures accesses == old(accesses) + PutAccesses(name)
    {
      var meta := MakeBuffer(t, dims);
      PutBytes(MetadataKey(name), meta);
      BytesFit(t, n, elements.Length);
      PutBytes(DataKey(name), ImageAll(t.Width(), elements[..])[..ByteCount(t, n)]);
    }

    method DeleteItem(name: string)
      modifies this
      ensures store == Client.DeleteItem(old(store), name)
      ensures store == old(store) - {DataKey(name), MetadataKey(name)}
      ensures GetItem(store, name) == Err(KeyNotFound)
      ensures accesses == old(accesses) + [Deletes(DataKey(name)), Looks(MetadataKey(name))]
                          + if old(MetadataKey(name) in store) then [Deletes(MetadataKey(name))] else []
    {
      MetadataKeyInjective(name, name);
      DeleteKey(DataKey(name));
      var found := Contains(MetadataKey(name));
      if found {
        DeleteKey(MetadataKey(name));
      }
    }

    method GetItemInfo(name: string) returns (r: Result<Item>)
      modifies this`accesses
      ensures r == GetItem(store, name)
      ensures accesses == old(accesses) + [Gets(DataKey(name))]
                          + if DataKey(name) in store then [Gets(MetadataKey(name))] else []
    {
      var data := GetBytes(DataKey(name));
      if data.Err? {
        return Err(data.error);
      }
      var meta := GetBytes(MetadataKey(name));
      if meta.Err? {
        return Err(meta.error);
      }
      var record := FromBuffer(meta.value);
      r := if record.Ok? then Ok(Item(record.value, data.value)) else Err(record.error);
    }

    /** Put a tensor whose element count is the `std::size_t` product of its dimensions. */
    method CPutTensor(name: string, t: DType, data: array<nat>, dims: array<Word>)
      returns (status: Status)
      requires dims.Length <= MAX_DIMS
      requires dims.Length != 0 ==>
        Copied(t, Wrap(Product(dims[..]))) <= data.Length
      modifies this
      ensures dims.Length == 0 ==> status == Failed(RankMismatch) && store == old(store) && accesses == old(accesses)
      ensures dims.Length != 0 ==>
        && status == OK
        && store == PutItem(old(store), name,
                            TensorItem(t, dims[..], data[..], Wrap(Product(dims[..]))))
        && accesses == old(accesses) + PutAccesses(name)
    {
      if dims.Length == 0 {
        return Failed(RankMismatch);
      }
      var nElements: Word := 1;
      var i := 0;
      while i < dims.Length
        invariant 0 <= i <= dims.Length
        invariant store == old(store) && accesses == old(accesses)
        invariant Remaining(nElements, dims[i..]) == Remaining(1, dims[..])
      {
        RemainingStep(nElements, dims[i..]);
        assert dims[i..][1..] == dims[i + 1..];
        nElements := Wrap(nElements * dims[i]);
        i := i + 1;
      }
      assert dims[i..] == [];
      RemainingEnds(nElements, dims[..]);
      PutTensor(name, t, dims, data, nElements);
      status := OK;
    }

    /** Read a tensor into caller memory. A null `outData` or `outDims` is skipped. */
    method CGetTensor(name: string, t: DType, outData: array?<nat>, maxElements: Word,
                      outRank: OutParam, outDims: array?<Word>, maxDims: Word)
      returns (status: Status)
      requires outData != null ==> maxElements <= outData.Length
      requires outDims != null ==> maxDims <= outDims.Length
      modifies this`accesses, outData, outRank, outDims
      ensures status == CheckCapacity(GetTensor(store, name, t), maxElements, maxDims)
      ensures GetTensor(store, name, t).Err? ==> status == Failed(GetTensor(store, name, t).error)
      ensures status == OK ==>
        && |GetTensor(store, name, t).value.dims| < TWO_64
        && OutputsOf(outData, outRank, outDims) ==
           var tensor := GetTensor(store, name, t).value;
           Filled(old(OutputsOf(outData, outRank, outDims)), tensor.data, |tensor.dims|, tensor.dims)
      ensures status != OK ==> OutputsOf(outData, outRank, outDims) == old(OutputsOf(outData, outRank, outDims))
    {
      var info := GetItemInfo(name);
      if info.Err? {
        return Failed(info.error);
      }
      var r := AssembleTensor(t, info.value);
      if r.Err? {
        return Failed(r.error);
      }
      var tensor := r.value;
      if |tensor.data| > maxElements {
        return Failed(BufferTooSmall);
      }
      if |tensor.dims| > maxDims {
        return Failed(RankMismatch);
      }
      CopyInto(tensor.data, outData);
      CopyInto(tensor.dims, outDims);
      outRank.value := |tensor.dims|;
      status := OK;
    }
  }

  // The waiting read.

  /** The result of a waiting read whose loop stops at probe `k`: data from the wait, then metadata
      from the store as it is `lag` later. */
  function WaitResult(w: Waiting, k: nat, name: string, t: DType, lag: nat): Result<Tensor> {
    match w.ResultAt(k)
    case Err(e) => Err(e)
    case Ok(data) =>
      match WithMetadata(w.env(w.EndTime(k) + lag), name, data)
      case Err(e) => Err(e)
      case Ok(item) => AssembleTensor(t, item)
  }

  /** The waiting read goes through an `int` on its way to `*out_rank`. */
  function RankThroughInt(rank: Word): Word {
    SignExtend(Truncate(rank))
  }

  method CWaitTensor(w: Waiting, name: string, t: DType, lag: nat,
                     outData: array?<nat>, maxElements: Word,
                     outRank: OutParam, outDims: array?<Word>, maxDims: Word, ghost tick: nat)
    returns (status: Status, k: nat)
    requires w.key == DataKey(name) && Advances(w.sch, tick)
    requires outData != null ==> maxElements <= outData.Length
    requires outDims != null ==> maxDims <= outDims.Length
    modifies outData, outRank, outDims
    ensures w.StopsAt(k)
    ensures status == CheckCapacity(WaitResult(w, k, name, t, lag), maxElements, maxDims)
    ensures WaitResult(w, k, name, t, lag).Err? ==> status == Failed(WaitResult(w, k, name, t, lag).error)
    ensures status == OK ==>
      && |WaitResult(w, k, name, t, lag).value.dims| < TWO_64
      && OutputsOf(outData, outRank, outDims) ==
         var tensor := WaitResult(w, k, name, t, lag).value;
         Filled(old(OutputsOf(outData, outRank, outDims)), tensor.data, RankThroughInt(|tensor.dims|), tensor.dims)
    ensures status != OK ==> OutputsOf(outData, outRank, outDims) == old(OutputsOf(outData, outRank, outDims))
  {
    var data, now;
    data, now, k := WaitForBytes(w, tick);
    if data.Err? {
      return Failed(data.error), k;
    }
    var item := WithMetadata(w.env(now + lag), name, data.value);
    if item.Err? {
      return Failed(item.error), k;
    }
    var r := AssembleTensor(t, item.value);
    if r.Err? {
      return Failed(r.error), k;
    }
    var tensor := r.value;
    if |tensor.data| > maxElements {
      return Failed(BufferTooSmall), k;
    }
    if |tensor.dims| > maxDims {
      return Failed(RankMismatch), k;
    }
    CopyInto(tensor.data, outData);
    CopyInto(tensor.dims, outDims);
    outRank.value := SignExtend(Truncate(|tensor.dims|));
    status := OK;
  }

  /** On a store that does not change, waiting for a present item reads exactly what getting it
      reads, whatever the timeout, and waiting for an absent one times out. */
  lemma WaitIsGetOnSteadyStore(w: Waiting, k: nat, s: Store, name: string, t: DType, lag: nat)
    requires w.key == DataKey(name) && w.StopsAt(k)
    requires forall time: int :: w.env(time) == s
    ensures WaitResult(w, k, name, t, lag) ==
            if DataKey(name) in s then GetTensor(s, name, t) else Err(Timeout)
    ensures DataKey(name) in s ==> k == 0
  {
    if DataKey(name) in s {
      assert !w.GoesOn(0);
    }
  }

  /** The rank survives the waiting read exactly when it is below 2^31; its low 32 bits always do. */
  lemma RankThroughIntIff(rank: Word)
    requires rank <= MAX_DIMS
    ensures RankThroughInt(rank) == rank <==> rank < TWO_31
    ensures RankThroughInt(rank) % TWO_32 == rank % TWO_32
  {
    TruncateLow(rank);
    SignExtendCongruent(Truncate(rank));
    SignExtendTruncateFixed(rank);
  }

  /** A waiting read of an item that another process puts while it waits: once the data has come, in
      time, it reads that data with whatever record the metadata key holds at the moment of the
      second fetch, `lag` after the first. */
  lemma WaitReadsMetadataLast(w: Waiting, k: nat, arrival: int, data: Bytes, poll: nat, slack: nat,
                              name: string, t: DType, lag: nat)
    requires w.StopsAt(k) && ArrivesWith(w, arrival, data) && Prompt(w.sch, poll, slack)
    requires arrival <= w.start || arrival <= w.start + w.timeout - slack
    ensures var instant := ProbeTime(w.start, w.sch, k) + w.sch.fetch + lag;
            WaitResult(w, k, name, t, lag) ==
            match Lookup(w.env(instant), MetadataKey(name))
            case None => Err(KeyNotFound)
            case Some(meta) =>
              match FromBuffer(meta)
              case Err(e) => Err(e)
              case Ok(_) => AssembleTensor(t, Item(meta, data))
  {
    DelayedPutIsReturned(w, k, arrival, data, poll, slack);
  }

  /** Waiting for a tensor that is put, metadata first, while the wait is on: it comes back whole. */
  lemma WaitForDelayedTensor(w: Waiting, k: nat, arrival: int, poll: nat, slack: nat,
                             name: string, t: DType, dims: seq<Word>, xs: seq<nat>, lag: nat)
    requires 0 < |dims| <= MAX_DIMS && AllFit(t.Width(), xs) && Product(dims) == |xs| < TWO_31
    requires w.StopsAt(k) && Prompt(w.sch, poll, slack)
    requires ArrivesWith(w, arrival, ImageAll(t.Width(), xs))
    requires forall time: int :: arrival <= time ==>
               Lookup(w.env(time), MetadataKey(name)) == Some(Encode(t.Code(), dims))
    requires arrival <= w.start || arrival <= w.start + w.timeout - slack
    ensures WaitResult(w, k, name, t, lag) == Ok(Tensor(dims, xs))
  {
    var data := ImageAll(t.Width(), xs);
    DelayedPutIsReturned(w, k, arrival, data, poll, slack);
    WaitReadsMetadataLast(w, k, arrival, data, poll, slack, name, t, lag);
    DecodeEncode(t.Code(), dims);
    AssembleWhole(t, dims, xs);
  }

  // A put followed by a read, as a caller sees it.

  /** The number of elements that a reader counts, if it can. */
  function ReadCount(dims: seq<Word>): nat {
    Product(dims) % TWO_32
  }

  /** What `CGetTensor` reads after `CPutTensor`. */
  lemma RoundTrip(s: Store, name: string, t: DType, u: DType, dims: seq<Word>, mem: seq<nat>)
    returns (r: Result<Tensor>)
    requires 0 < |dims| <= MAX_DIMS && AllFit(t.Width(), mem)
    requires Copied(t, Wrap(Product(dims))) <= |mem|
    ensures ReadCount(dims) <= |mem|
    ensures r == GetTensor(PutItem(s, name, TensorItem(t, dims, mem, Wrap(Product(dims)))), name, u)
    ensures r == if u != t then Err(DTypeMismatch)
                 else if ReadCount(dims) < TWO_31 then Ok(Tensor(dims, mem[..ReadCount(dims)]))
                 else Err(Undefined)
  {
    CopiedLow(t, Product(dims));
    if u == t {
      r := CReadBack(s, name, t, dims, mem);
    } else {
      TensorReadBack(s, name, t, dims, mem, Wrap(Product(dims)), u);
      r := Err(DTypeMismatch);
    }
  }

  lemma CapacityAfterPut(r: Result<Tensor>, count: nat, maxElements: Word, maxDims: Word)
    requires r.Ok? ==> |r.value.data| == count
    ensures r.Err? ==> CheckCapacity(r, maxElements, maxDims) == Failed(r.error)
    ensures r.Ok? && maxElements < count ==> CheckCapacity(r, maxElements, maxDims) == Failed(BufferTooSmall)
    ensures r.Ok? && count <= maxElements ==>
      CheckCapacity(r, maxElements, maxDims) == if maxDims < |r.value.dims| then Failed(RankMismatch) else OK
  {
  }

  /** The waiting read on a store that nobody changes meanwhile: it is the plain read if the item is
      there, for any timeout and schedule of the loop, except that the rank goes through an `int`. */
  method CWaitQuiet(session: Session, name: string, t: DType, start: int, timeout: int, sch: Schedule,
                    lag: nat, outData: array?<nat>, maxElements: Word,
                    outRank: OutParam, outDims: array?<Word>, maxDims: Word, ghost tick: nat)
    returns (status: Status)
    requires Advances(sch, tick) && DataKey(name) in session.store
    requires outData != null ==> maxElements <= outData.Length
    requires outDims != null ==> maxDims <= outDims.Length
    modifies outData, outRank, outDims
    ensures session.store == old(session.store)
    ensures status == CheckCapacity(GetTensor(session.store, name, t), maxElements, maxDims)
    ensures status == OK ==>
      && |GetTensor(session.store, name, t).value.dims| < TWO_64
      && OutputsOf(outData, outRank, outDims) ==
         var tensor := GetTensor(session.store, name, t).value;
         Filled(old(OutputsOf(outData, outRank, outDims)), tensor.data, RankThroughInt(|tensor.dims|), tensor.dims)
    ensures status != OK ==> OutputsOf(outData, outRank, outDims) == old(OutputsOf(outData, outRank, outDims))
  {
    var s := session.store;
    var w := Waiting(time => s, DataKey(name), start, timeout, sch);
    var k;
    status, k := CWaitTensor(w, name, t, lag, outData, maxElements, outRank, outDims, maxDims, tick);
    WaitIsGetOnSteadyStore(w, k, s, name, t, lag);
  }

  /** A C put, told by what a read then gives. */
  method PutForReads(session: Session, name: string, t: DType, data: array<nat>, dims: array<Word>, ghost u: DType)
    returns (status: Status, ghost read: Result<Tensor>)
    requires 0 < dims.Length <= MAX_DIMS && AllFit(t.Width(), data[..])
    requires Copied(t, Wrap(Product(dims[..]))) <= data.Length
    modifies session
    ensures status == OK && ReadCount(dims[..]) <= data.Length
    ensures DataKey(name) in session.store && GetTensor(session.store, name, u) == read
    ensures read == if u != t then Err(DTypeMismatch)
                    else if ReadCount(dims[..]) < TWO_31 then Ok(Tensor(dims[..], data[..ReadCount(dims[..])]))
                    else Err(Undefined)
  {
    read := RoundTrip(session.store, name, t, u, dims[..], data[..]);
    assert data[..][..ReadCount(dims[..])] == data[..ReadCount(dims[..])];
    status := session.CPutTensor(name, t, data, dims);
  }

  /** The C round trip as a caller makes it, for every shape, requested type and capacity: put, then
      get. Success gives rank, dimensions and elements and touches nothing behind them; every
      failure leaves all three outputs unchanged. */
  method PutThenGet(session: Session, name: string, t: DType, data: array<nat>, dims: array<Word>,
                    u: DType, outData: array?<nat>, maxElements: Word,
                    outRank: OutParam, outDims: array?<Word>, maxDims: Word)
    returns (status: Status)
    requires 0 < dims.Length <= MAX_DIMS && AllFit(t.Width(), data[..])
    requires Copied(t, Wrap(Product(dims[..]))) <= data.Length
    requires outData != null ==> maxElements <= outData.Length
    requires outDims != null ==> maxDims <= outDims.Length
    modifies session, outData, outRank, outDims
    ensures var count := old(ReadCount(dims[..]));
            && (u != t ==> status == Failed(DTypeMismatch))
            && (u == t && TWO_31 <= count ==> status == Failed(Undefined))
            && (u == t && maxElements < count < TWO_31 ==> status == Failed(BufferTooSmall))
            && (u == t && count < TWO_31 && count <= maxElements ==>
                  status == if maxDims < dims.Length then Failed(RankMismatch) else OK)
    ensures old(ReadCount(dims[..])) <= data.Length
    ensures status == OK ==>
      && OutputsOf(outData, outRank, outDims) ==
         Filled(old(OutputsOf(outData, outRank, outDims)),
                old(data[..ReadCount(dims[..])]), dims.Length, old(dims[..]))
    ensures status != OK ==> OutputsOf(outData, outRank, outDims) == old(OutputsOf(outData, outRank, outDims))
  {
    ghost var read;
    status, read := PutForReads(session, name, t, data, dims, u);
    CapacityAfterPut(read, ReadCount(dims[..]), maxElements, maxDims);
    status := session.CGetTensor(name, u, outData, maxElements, outRank, outDims, maxDims);
  }

  /** The same round trip through the waiting read, for any timeout and schedule of the loop, on a
      store that nobody else changes; the rank is as an `int` carries it. */
  method PutThenWait(session: Session, name: string, t: DType, data: array<nat>, dims: array<Word>,
                     start: int, timeout: int, sch: Schedule, lag: nat,
                     u: DType, outData: array?<nat>, maxElements: Word,
                     outRank: OutParam, outDims: array?<Word>, maxDims: Word, ghost tick: nat)
    returns (status: Status)
    requires 0 < dims.Length <= MAX_DIMS && AllFit(t.Width(), data[..])
    requires Copied(t, Wrap(Product(dims[..]))) <= data.Length
    requires outData != null ==> maxElements <= outData.Length
    requires outDims != null ==> maxDims <= outDims.Length
    requires Advances(sch, tick)
    modifies session, outData, outRank, outDims
    ensures var count := old(ReadCount(dims[..]));
            && (u != t ==> status == Failed(DTypeMismatch))
            && (u == t && TWO_31 <= count ==> status == Failed(Undefined))
            && (u == t && maxElements < count < TWO_31 ==> status == Failed(BufferTooSmall))
            && (u == t && count < TWO_31 && count <= maxElements ==>
                  status == if maxDims < dims.Length then Failed(RankMismatch) else OK)
    ensures old(ReadCount(dims[..])) <= data.Length
    ensures status == OK ==>
      && (outRank.value == dims.Length <==> dims.Length < TWO_31)
      && outRank.value % TWO_32 == dims.Length % TWO_32
      && OutputsOf(outData, outRank, outDims) ==
         Filled(old(OutputsOf(outData, outRank, outDims)),
                old(data[..ReadCount(dims[..])]), outRank.value, old(dims[..]))
    ensures status != OK ==> OutputsOf(outData, outRank, outDims) == old(OutputsOf(outData, outRank, outDims))
  {
    ghost var read;
    status, read := PutForReads(session, name, t, data, dims, u);
    CapacityAfterPut(read, ReadCount(dims[..]), maxElements, maxDims);
    RankThroughIntIff(dims.Length);
    status := CWaitQuiet(session, name, u, start, timeout, sch, lag, outData, maxElements,
                         outRank, outDims, maxDims, tick);
  }

  /** Reading a deleted tensor fails as a missing key and leaves the outputs alone. */
  method DeleteThenGet(session: Session, name: string, t: DType, outData: array?<nat>, maxElements: Word,
                       outRank: OutParam, outDims: array?<Word>, maxDims: Word)
    returns (status: Status)
    requires outData != null ==> maxElements <= outData.Length
    requires outDims != null ==> maxDims <= outDims.Length
    modifies session, outData, outRank, outDims
    ensures status == Failed(KeyNotFound)
    ensures OutputsOf(outData, outRank, outDims) == old(OutputsOf(outData, outRank, outDims))
  {
    session.DeleteItem(name);
    status := session.CGetTensor(name, t, outData, maxElements, outRank, outDims, maxDims);
  }

  /** The wrapped product of a count and the dimensions still to come. */
  function Remaining(n: Word, dims: seq<Word>): Word {
    Wrap(n * Product(dims))
  }

  lemma RemainingStep(n: Word, dims: seq<Word>)
    requires dims != []
    ensures Remaining(Wrap(n * dims[0]), dims[1..]) == Remaining(n, dims)
  {
    var d, rest := dims[0], Product(dims[1..]);
    ModMul(Wrap(n * d), n * d, rest, TWO_64);
    assert (n * d) * rest == n * (d * rest);
  }

  lemma RemainingEnds(n: Word, dims: seq<Word>)
    ensures Remaining(n, []) == n && Remaining(1, dims) == Wrap(Product(dims))
  {
    WrapFixed(n);
  }
}
