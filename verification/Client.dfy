/** Typed items over the byte store: what one client's calls do when nobody interferes.

    The functions state each call on the store as a value; the class performs the same calls step
    by step on its own field. Results are characterised for every input, including the reads that
    leave the buffers. */
module Client {
  import opened ByteCodec
  import opened Handles
  import opened Machine
  import opened MetaData
  import opened Wrappers

  datatype Tensor = Tensor(dims: seq<Word>, data: seq<nat>)

  /** The number of bytes a put of `n` elements copies. */
  function ByteCount(t: DType, n: Word): Word {
    Wrap(n * t.Width())
  }

  /** The number of elements a put of `n` elements copies. */
  function Copied(t: DType, n: Word): nat {
    n % (TWO_64 / t.Width())
  }

  /** The byte count wraps at 2^64, so a multiple of 2^64 / width elements is dropped. */
  lemma BytesCopied(t: DType, n: Word)
    ensures ByteCount(t, n) == Copied(t, n) * t.Width()
    ensures Copied(t, n) <= n
  {
    var w := t.Width();
    var m := TWO_64 / w;
    assert m * w == TWO_64;
    var q, c := n / m, n % m;
    assert n == q * m + c;
    assert n * w == q * TWO_64 + c * w;
    MulMono(c + 1, m, w);
    assert (c + 1) * w == c * w + w;
    DivModUnique(n * w, q, c * w, TWO_64);
  }

  lemma BytesFit(t: DType, n: Word, length: nat)
    requires Copied(t, n) <= length
    ensures ByteCount(t, n) <= length * t.Width()
  {
    BytesCopied(t, n);
    MulMono(Copied(t, n), length, t.Width());
  }

  function PutItem(s: Store, name: string, item: Item): Store {
    s[MetadataKey(name) := item.meta][DataKey(name) := item.data]
  }

  function ScalarItem(t: DType, x: nat): Item {
    Item(Encode(t.Code(), []), Image(t.Width(), x))
  }

  /** The item a put of a tensor writes: `n` elements are copied from the caller's memory `mem`,
      whatever the dimensions say. */
  function TensorItem(t: DType, dims: seq<Word>, mem: seq<nat>, n: Word): Item
    requires |dims| <= MAX_DIMS && Copied(t, n) <= |mem|
  {
    BytesFit(t, n, |mem|);
    Item(Encode(t.Code(), dims), ImageAll(t.Width(), mem)[..ByteCount(t, n)])
  }

  function DeleteItem(s: Store, name: string): Store {
    var s' := s - {DataKey(name)};
    if MetadataKey(name) in s' then s' - {MetadataKey(name)} else s'
  }

  /** The second fetch of a read: the metadata that goes with data already fetched. */
  function WithMetadata(s: Store, name: string, data: Bytes): Result<Item> {
    if MetadataKey(name) !in s then Err(KeyNotFound)
    else
      match FromBuffer(s[MetadataKey(name)])
      case Ok(record) => Ok(Item(record, data))
      case Err(e) => Err(e)
  }

  /** The two fetches of a read, data first. */
  function GetItem(s: Store, name: string): Result<Item> {
    if DataKey(name) !in s then Err(KeyNotFound) else WithMetadata(s, name, s[DataKey(name)])
  }

  function AssembleScalar(t: DType, item: Item): Result<nat> {
    if |item.meta| < 16 then Err(Undefined)
    else if NDims(item.meta) != 0 then Err(RankMismatch)
    else if TypeCode(item.meta) != t.Code() then Err(DTypeMismatch)
    else if |item.data| < t.Width() then Err(Undefined)
    else Ok(Load(item.data[..t.Width()]))
  }

  function AssembleTensor(t: DType, item: Item): Result<Tensor> {
    if |item.meta| < 16 then Err(Undefined)
    else if NDims(item.meta) == 0 then Err(RankMismatch)
    else if TypeCode(item.meta) != t.Code() then Err(DTypeMismatch)
    else if !DimsInside(item.meta) then Err(Undefined)
    else
      var dims := Dims(item.meta);
      var n := NElements(dims);
      if |item.data| < n * t.Width() then Err(Undefined)
      else Ok(Tensor(dims, LoadAll(t.Width(), n, item.data)))
  }

  function GetScalar(s: Store, name: string, t: DType): Result<nat> {
    match GetItem(s, name)
    case Ok(item) => AssembleScalar(t, item)
    case Err(e) => Err(e)
  }

  function GetTensor(s: Store, name: string, t: DType): Result<Tensor> {
    match GetItem(s, name)
    case Ok(item) => AssembleTensor(t, item)
    case Err(e) => Err(e)
  }

  // What reads give back.

  /** A scalar put is read back by its own type only; other requests name the mismatch. */
  lemma ScalarReadBack(s: Store, name: string, t: DType, x: nat, u: DType)
    requires x < Patterns(t.Width())
    ensures var s' := PutItem(s, name, ScalarItem(t, x));
            && GetScalar(s', name, u) == (if u == t then Ok(x) else Err(DTypeMismatch))
            && GetTensor(s', name, u) == Err(RankMismatch)
  {
    DecodeEncode(t.Code(), []);
    MetadataKeyInjective(name, name);
    LoadImage(t.Width(), x);
    assert Image(t.Width(), x)[..t.Width()] == Image(t.Width(), x);
  }

  /** Which reads find no item: those of a missing data key, and those of data stored without a record,
      as bytes put under a bare key are. */
  lemma NotFoundIff(s: Store, name: string, t: DType)
    ensures GetTensor(s, name, t) == Err(KeyNotFound) <==> DataKey(name) !in s || MetadataKey(name) !in s
    ensures GetScalar(s, name, t) == Err(KeyNotFound) <==> DataKey(name) !in s || MetadataKey(name) !in s
  {
  }

  /** Which reads report a malformed record: those of an item whose record has another length than it
      announces, modulo 2^64, whatever type is asked for; without a whole header there is no answer. */
  lemma MalformedIff(s: Store, name: string, t: DType)
    requires DataKey(name) in s && MetadataKey(name) in s && |s[MetadataKey(name)]| < TWO_64
    ensures |s[MetadataKey(name)]| < 16 ==>
      GetTensor(s, name, t) == Err(Undefined) && GetScalar(s, name, t) == Err(Undefined)
    ensures 16 <= |s[MetadataKey(name)]| ==>
            var meta := s[MetadataKey(name)];
            var malformed := |meta| % 8 != 0 || NDims(meta) % TWO_61 != |meta| / 8 - 2;
            && (GetTensor(s, name, t) == Err(Metadata) <==> malformed)
            && (GetScalar(s, name, t) == Err(Metadata) <==> malformed)
  {
    if 16 <= |s[MetadataKey(name)]| {
      FromBufferAccepts(s[MetadataKey(name)]);
    }
  }

  /** Reading a tensor item whose data is the image of `xs`: the reader's element count decides
      whether it gets all elements, a prefix, or leaves the buffer. */
  lemma AssembleImage(t: DType, dims: seq<Word>, xs: seq<nat>, u: DType)
    requires 0 < |dims| <= MAX_DIMS && AllFit(t.Width(), xs)
    ensures var r := AssembleTensor(u, Item(Encode(t.Code(), dims), ImageAll(t.Width(), xs)));
            r == if u != t then Err(DTypeMismatch)
                 else if NElements(dims) <= |xs| then Ok(Tensor(dims, xs[..NElements(dims)]))
                 else Err(Undefined)
  {
    DecodeEncode(t.Code(), dims);
    var n, w := NElements(dims), t.Width();
    MulOrder(n, |xs|, w);
    if u == t && n <= |xs| {
      ImagePrefix(w, xs, n);
    }
  }

  /** The count a reader computes for a shape whose product fits a `std::size_t` well. */
  lemma CountBelow(dims: seq<Word>)
    requires Product(dims) < TWO_64 - TWO_31
    ensures NElements(dims) <= Product(dims) <==> Product(dims) % TWO_32 < TWO_31
    ensures NElements(dims) == Product(dims) <==> Product(dims) < TWO_31
    ensures Product(dims) % TWO_32 < TWO_31 ==> NElements(dims) == Product(dims) % TWO_32
  {
    NElementsCharacterised(dims);
    NElementsExact(dims);
  }

  lemma AssembleWhole(t: DType, dims: seq<Word>, xs: seq<nat>)
    requires 0 < |dims| <= MAX_DIMS && AllFit(t.Width(), xs)
    requires Product(dims) == |xs| < TWO_31
    ensures AssembleTensor(t, Item(Encode(t.Code(), dims), ImageAll(t.Width(), xs))) == Ok(Tensor(dims, xs))
  {
    AssembleImage(t, dims, xs, t);
    CountBelow(dims);
    assert xs[..|xs|] == xs;
  }

  lemma GetAfterPut(s: Store, name: string, item: Item)
    ensures FromBuffer(item.meta).Ok? ==> GetItem(PutItem(s, name, item), name) == Ok(item)
  {
    MetadataKeyInjective(name, name);
  }

  /** Without wrap-around a put copies the image of the first `p` elements. */
  lemma CopiedBytes(t: DType, mem: seq<nat>, p: nat)
    requires p <= |mem| && p * t.Width() < TWO_64
    ensures 4 * p < TWO_64 && Copied(t, p) == p && ByteCount(t, p) == p * t.Width() <= |mem| * t.Width()
    ensures ImageAll(t.Width(), mem)[..ByteCount(t, p)] == ImageAll(t.Width(), mem[..p])
  {
    var w := t.Width();
    MulMono(4, w, p);
    assert 4 * p <= p * w;
    WrapFixed(p * w);
    BytesCopied(t, p);
    MulOrder(p, Copied(t, p), w);
    ImagePrefix(w, mem, p);
  }

  /** What is stored: the image of the first elements of the caller's memory. */
  lemma StoredElements(t: DType, dims: seq<Word>, mem: seq<nat>, n: Word)
    requires |dims| <= MAX_DIMS && Copied(t, n) <= |mem|
    ensures TensorItem(t, dims, mem, n) == Item(Encode(t.Code(), dims), ImageAll(t.Width(), mem[..Copied(t, n)]))
  {
    BytesFit(t, n, |mem|);
    BytesCopied(t, n);
    ImagePrefix(t.Width(), mem, Copied(t, n));
  }

  /** Any tensor put, read back by type `u`: the reader's element count, against the number of elements
      copied, decides whether the reader gets the first elements of the caller's memory or leaves the
      buffer. */
  lemma TensorReadBack(s: Store, name: string, t: DType, dims: seq<Word>, mem: seq<nat>, n: Word, u: DType)
    requires 0 < |dims| <= MAX_DIMS && AllFit(t.Width(), mem) && Copied(t, n) <= |mem|
    ensures GetTensor(PutItem(s, name, TensorItem(t, dims, mem, n)), name, u) ==
            if u != t then Err(DTypeMismatch)
            else if NElements(dims) <= Copied(t, n) then Ok(Tensor(dims, mem[..NElements(dims)]))
            else Err(Undefined)
    ensures GetScalar(PutItem(s, name, TensorItem(t, dims, mem, n)), name, u) == Err(RankMismatch)
  {
    var c := Copied(t, n);
    AllFitPrefix(t.Width(), mem, c);
    StoredElements(t, dims, mem, n);
    DecodeEncode(t.Code(), dims);
    GetAfterPut(s, name, TensorItem(t, dims, mem, n));
    AssembleImage(t, dims, mem[..c], u);
    if NElements(dims) <= c {
      assert mem[..c][..NElements(dims)] == mem[..NElements(dims)];
    }
  }

  lemma AssembleFirst(t: DType, xs: seq<nat>, u: DType)
    requires AllFit(t.Width(), xs)
    ensures AssembleScalar(u, Item(Encode(t.Code(), []), ImageAll(t.Width(), xs))) ==
            if u != t then Err(DTypeMismatch) else if xs == [] then Err(Undefined) else Ok(xs[0])
  {
    DecodeEncode(t.Code(), []);
    if xs != [] {
      ImageAllAt(t.Width(), xs, 0);
      LoadImage(t.Width(), xs[0]);
    }
  }

  /** A tensor put without dimensions, as the C++ interface allows, is a scalar: its first element. */
  lemma RankZeroReadBack(s: Store, name: string, t: DType, mem: seq<nat>, n: Word, u: DType)
    requires AllFit(t.Width(), mem) && Copied(t, n) <= |mem|
    ensures var s' := PutItem(s, name, TensorItem(t, [], mem, n));
            && GetTensor(s', name, u) == Err(RankMismatch)
            && GetScalar(s', name, u) == if u != t then Err(DTypeMismatch)
                                         else if Copied(t, n) == 0 then Err(Undefined)
                                         else Ok(mem[0])
  {
    AllFitPrefix(t.Width(), mem, Copied(t, n));
    StoredElements(t, [], mem, n);
    DecodeEncode(t.Code(), []);
    GetAfterPut(s, name, TensorItem(t, [], mem, n));
    AssembleFirst(t, mem[..Copied(t, n)], u);
  }

  /** A reader's count is the product modulo 2^32, or else close to 2^64. */
  lemma ReaderCount(dims: seq<Word>)
    ensures var low := Product(dims) % TWO_32;
            if low < TWO_31 then NElements(dims) == low else TWO_64 - TWO_31 <= NElements(dims)
  {
    NElementsCharacterised(dims);
  }

  /** The number of elements that a C put copies has the product's low 32 bits. */
  lemma CopiedLow(t: DType, p: nat)
    ensures p % TWO_32 <= Copied(t, Wrap(p)) < TWO_64 - TWO_31
  {
    var k := TWO_32 / t.Width();
    assert TWO_64 / t.Width() == k * TWO_32;
    WrapLow(p);
    ModMod(Wrap(p), TWO_32, k);
  }

  lemma SmallerPrefix(mem: seq<nat>, low: nat, p: nat)
    requires low <= p <= |mem| && low != p
    ensures mem[..low] != mem[..p]
  {
    assert |mem[..low]| != |mem[..p]|;
  }

  /** What a C put and a read of the same type give, for every shape, products that do not fit a
      `std::size_t` included: the read succeeds exactly when the product modulo 2^32 is below 2^31,
      and then gives that many elements from the start of the caller's memory. */
  lemma CReadBack(s: Store, name: string, t: DType, dims: seq<Word>, mem: seq<nat>)
    returns (r: Result<Tensor>)
    requires 0 < |dims| <= MAX_DIMS && AllFit(t.Width(), mem)
    requires Copied(t, Wrap(Product(dims))) <= |mem|
    ensures r == GetTensor(PutItem(s, name, TensorItem(t, dims, mem, Wrap(Product(dims)))), name, t)
    ensures var low := Product(dims) % TWO_32;
            if low < TWO_31 then low <= |mem| && r == Ok(Tensor(dims, mem[..low]))
            else r == Err(Undefined)
  {
    var n := Wrap(Product(dims));
    TensorReadBack(s, name, t, dims, mem, n, t);
    r := GetTensor(PutItem(s, name, TensorItem(t, dims, mem, n)), name, t);
    ReaderCount(dims);
    CopiedLow(t, Product(dims));
  }

  lemma CopiedAtMost(t: DType, p: nat)
    ensures Copied(t, Wrap(p)) <= p
  {
    BytesCopied(t, Wrap(p));
  }

  lemma WholeOrPrefix(r: Result<Tensor>, dims: seq<Word>, mem: seq<nat>, p: nat)
    requires p <= |mem|
    requires var low := p % TWO_32;
             if low < TWO_31 then r == Ok(Tensor(dims, mem[..low])) else r == Err(Undefined)
    ensures r == Ok(Tensor(dims, mem[..p])) <==> p < TWO_31
  {
    if TWO_31 <= p && r.Ok? {
      SmallerPrefix(mem, p % TWO_32, p);
    }
  }

  /** Which tensors round-trip: from the start of a memory that holds them, exactly those with fewer
      than 2^31 elements. */
  lemma TensorRoundTripIff(s: Store, name: string, t: DType, dims: seq<Word>, mem: seq<nat>)
    requires 0 < |dims| <= MAX_DIMS && AllFit(t.Width(), mem)
    requires Product(dims) <= |mem|
    ensures Copied(t, Wrap(Product(dims))) <= |mem|
    ensures var p := Product(dims);
            var r := GetTensor(PutItem(s, name, TensorItem(t, dims, mem, Wrap(p))), name, t);
            r == Ok(Tensor(dims, mem[..p])) <==> p < TWO_31
  {
    var p := Product(dims);
    CopiedAtMost(t, p);
    var r := CReadBack(s, name, t, dims, mem);
    WholeOrPrefix(r, dims, mem, p);
  }

  // Store coherence.

  /** The record is well formed and the data has exactly the length that type and dimensions say. */
  predicate CoherentItem(item: Item) {
    && 16 <= |item.meta| && FromBuffer(item.meta).Ok? && DimsInside(item.meta)
    && exists t: DType :: t.Code() == TypeCode(item.meta)
                          && |item.data| == Product(Dims(item.meta)) * t.Width()
  }

  predicate CoherentAt(s: Store, name: string) {
    && (DataKey(name) in s <==> MetadataKey(name) in s)
    && (DataKey(name) in s ==> CoherentItem(Item(s[MetadataKey(name)], s[DataKey(name)])))
  }

  datatype ClientOp =
    | ScalarPut(name: string, t: DType, x: nat)
    | TensorPut(name: string, t: DType, dims: seq<Word>, mem: seq<nat>)
    | Remove(name: string)

  /** A completed C-interface call: a tensor has at least one dimension, its size fits a
      `std::size_t`, and the caller's memory holds its elements. */
  predicate Valid(op: ClientOp) {
    op.TensorPut? ==>
      && 0 < |op.dims| <= MAX_DIMS
      && Product(op.dims) <= |op.mem| && Product(op.dims) * op.t.Width() < TWO_64
  }

  function Perform(s: Store, op: ClientOp): Store
    requires Valid(op)
  {
    match op
    case ScalarPut(name, t, x) => PutItem(s, name, ScalarItem(t, x))
    case TensorPut(name, t, dims, mem) =>
      CopiedBytes(t, mem, Product(dims));
      PutItem(s, name, TensorItem(t, dims, mem, Product(dims)))
    case Remove(name) => DeleteItem(s, name)
  }

  function PerformAll(s: Store, ops: seq<ClientOp>): Store
    requires forall k :: 0 <= k < |ops| ==> Valid(ops[k])
  {
    if ops == [] then s else Perform(PerformAll(s, ops[..|ops| - 1]), ops[|ops| - 1])
  }

  lemma CoherentAfterPut(s: Store, name: string, item: Item)
    requires CoherentItem(item)
    ensures CoherentAt(PutItem(s, name, item), name)
  {
    MetadataKeyInjective(name, name);
  }

  lemma CoherentPut(t: DType, dims: seq<Word>, data: Bytes)
    requires |dims| <= MAX_DIMS && |data| == Product(dims) * t.Width()
    ensures CoherentItem(Item(Encode(t.Code(), dims), data))
  {
    DecodeEncode(t.Code(), dims);
  }

  lemma PerformOwn(s: Store, op: ClientOp)
    requires Valid(op)
    ensures CoherentAt(Perform(s, op), op.name)
  {
    match op
    case ScalarPut(name, t, x) =>
      CoherentPut(t, [], Image(t.Width(), x));
      CoherentAfterPut(s, name, ScalarItem(t, x));
    case TensorPut(name, t, dims, mem) =>
      CopiedBytes(t, mem, Product(dims));
      var item := TensorItem(t, dims, mem, Product(dims));
      CoherentPut(t, dims, item.data);
      CoherentAfterPut(s, name, item);
    case Remove(name) =>
      MetadataKeyInjective(name, name);
  }

  /** A call on one handle leaves every other handle's keys, and so every read of it, alone. */
  lemma PerformOther(s: Store, op: ClientOp, name: string)
    requires Valid(op) && name != op.name && Apart(name, op.name)
    ensures var s' := Perform(s, op);
            && Lookup(s', DataKey(name)) == Lookup(s, DataKey(name))
            && Lookup(s', MetadataKey(name)) == Lookup(s, MetadataKey(name))
            && GetItem(s', name) == GetItem(s, name)
  {
    MetadataKeyInjective(name, op.name);
  }

  /** After any sequence of scalar puts, C-interface tensor puts and deletes under names that do not
      collide, every stored item has the data length its record announces. */
  lemma {:induction false} StoreCoherent(names: set<string>, ops: seq<ClientOp>, name: string)
    requires NonColliding(names) && name in names
    requires forall k :: 0 <= k < |ops| ==> Valid(ops[k]) && ops[k].name in names
    ensures CoherentAt(PerformAll(map[], ops), name)
  {
    if ops != [] {
      var k := |ops| - 1;
      StoreCoherent(names, ops[..k], name);
      assert Valid(ops[k]) && ops[k].name in names;
      if ops[k].name == name {
        PerformOwn(PerformAll(map[], ops[..k]), ops[k]);
      } else {
        PerformOther(PerformAll(map[], ops[..k]), ops[k], name);
      }
    }
  }

  /** What a read by type `u` gives after a call on the handle; for a tensor, when a reader can count it. */
  lemma ReadAfterCall(s: Store, op: ClientOp, u: DType)
    requires Valid(op)
    requires op.ScalarPut? ==> op.x < Patterns(op.t.Width())
    requires op.TensorPut? ==> AllFit(op.t.Width(), op.mem) && Product(op.dims) < TWO_31
    ensures var scalar, tensor := GetScalar(Perform(s, op), op.name, u), GetTensor(Perform(s, op), op.name, u);
            match op
            case ScalarPut(_, t, x) =>
              scalar == (if u == t then Ok(x) else Err(DTypeMismatch)) && tensor == Err(RankMismatch)
            case TensorPut(_, t, dims, mem) =>
              && scalar == Err(RankMismatch)
              && tensor == if u == t then Ok(Tensor(dims, mem[..Product(dims)])) else Err(DTypeMismatch)
            case Remove(_) => scalar == Err(KeyNotFound) && tensor == Err(KeyNotFound)
  {
    match op
    case ScalarPut(name, t, x) => ScalarReadBack(s, name, t, x, u);
    case TensorPut(name, t, dims, mem) =>
      CopiedBytes(t, mem, Product(dims));
      CountBelow(dims);
      TensorReadBack(s, name, t, dims, mem, Product(dims), u);
    case Remove(name) => MetadataKeyInjective(name, name);
  }

  /** Reading a coherent item stays inside its data exactly when its product, modulo 2^32, is below
      2^31, and returns all of its elements exactly when the product itself is. */
  lemma CoherentRead(item: Item, t: DType)
    requires CoherentItem(item) && NDims(item.meta) != 0 && TypeCode(item.meta) == t.Code()
    requires |item.data| < TWO_64
    ensures var p, r := Product(Dims(item.meta)), AssembleTensor(t, item);
            && (r == Err(Undefined) <==> p % TWO_32 >= TWO_31)
            && (r.Ok? && |r.value.data| == p <==> p < TWO_31)
  {
    var p := Product(Dims(item.meta));
    assert |item.data| == p * t.Width();
    CountBelow(Dims(item.meta));
    var n := NElements(Dims(item.meta));
    MulOrder(n, p, t.Width());
  }

  /** Calls on other handles, as many as there are, leave every read of `name` as it was: its last call
      decides what it gives. */
  lemma {:induction false} PerformAllOther(s: Store, ops: seq<ClientOp>, name: string)
    requires forall k :: 0 <= k < |ops| ==> Valid(ops[k]) && ops[k].name != name && Apart(name, ops[k].name)
    ensures GetItem(PerformAll(s, ops), name) == GetItem(s, name)
  {
    if ops != [] {
      var k := |ops| - 1;
      PerformAllOther(s, ops[..k], name);
      assert Valid(ops[k]) && ops[k].name != name && Apart(name, ops[k].name);
      PerformOther(PerformAll(s, ops[..k]), ops[k], name);
    }
  }

  /** Every run of calls on handle `a` leaves every read of `b` unchanged. */
  ghost predicate Harmless(a: string, b: string) {
    forall s: Store, ops: seq<ClientOp> |
      (forall k :: 0 <= k < |ops| ==> Valid(ops[k]) && ops[k].name == a) ::
      GetItem(PerformAll(s, ops), b) == GetItem(s, b)
  }

  /** Runs of calls on one handle are harmless to another exactly when the names do not collide. */
  lemma NonInterferenceIff(a: string, b: string)
    requires a != b
    ensures Apart(a, b) <==> Harmless(a, b)
  {
    if Apart(a, b) {
      forall s: Store, ops: seq<ClientOp> |
        (forall k :: 0 <= k < |ops| ==> Valid(ops[k]) && ops[k].name == a)
        ensures GetItem(PerformAll(s, ops), b) == GetItem(s, b)
      {
        PerformAllOther(s, ops, b);
      }
    } else {
      var item := ScalarItem(INT32, 0);
      var s := PutItem(map[], b, item);
      var ops := [Remove(a)];
      MetadataKeyInjective(a, a);
      MetadataKeyInjective(b, b);
      DecodeEncode(INT32.Code(), []);
      assert ops[..0] == [];
      assert PerformAll(s, ops) == DeleteItem(s, a);
      assert GetItem(PerformAll(s, ops), b) != GetItem(s, b);
    }
  }
}
