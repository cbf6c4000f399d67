/** Tensors as multi-dimensional arrays: row-major flattening on a Python put, rebuilding on a
    Python get. */
module RowMajor {
  import opened ByteCodec
  import opened Client
  import opened Handles
  import opened Machine
  import opened MetaData
  import opened Wrappers

  type Index = seq<nat>

  predicate InShape(idx: Index, dims: seq<Word>) {
    |idx| == |dims| && forall i :: 0 <= i < |dims| ==> idx[i] < dims[i]
  }

  /** The position of a multi-index in row-major order. */
  function Flat(dims: seq<Word>, idx: Index): nat
    requires |idx| == |dims|
  {
    if dims == [] then 0 else idx[0] * Product(dims[1..]) + Flat(dims[1..], idx[1..])
  }

  /** The multi-index at a position. */
  function Unflat(dims: seq<Word>, position: nat): Index
    requires position < Product(dims)
  {
    if dims == [] then []
    else
      InnerPositive(dims);
      [position / Product(dims[1..])] + Unflat(dims[1..], position % Product(dims[1..]))
  }

  lemma InnerPositive(dims: seq<Word>)
    requires dims != [] && 0 < Product(dims)
    ensures 0 < Product(dims[1..])
  {
  }

  /** Two-digit arithmetic: `a * m + b` below `n * m`, and its digits. */
  lemma Digits(a: nat, b: nat, n: nat, m: nat)
    requires b < m
    ensures a < n <==> a * m + b < n * m
    ensures (a * m + b) / m == a && (a * m + b) % m == b
  {
    DivModUnique(a * m + b, a, b, m);
    if a < n {
      MulMono(a + 1, n, m);
      assert (a + 1) * m == a * m + m;
    } else {
      MulMono(n, a, m);
    }
  }

  lemma SplitPosition(position: nat, n: nat, m: nat) returns (q: nat, r: nat)
    requires 0 < m && position < n * m
    ensures q == position / m && r == position % m
    ensures q < n && r < m && position == q * m + r
  {
    q, r := position / m, position % m;
    Digits(q, r, n, m);
  }

  /** Flattening maps the multi-indices of a shape into its positions, injectively: the index can be
      recovered. */
  lemma {:induction false} UnflatFlat(dims: seq<Word>, idx: Index)
    requires InShape(idx, dims)
    ensures Flat(dims, idx) < Product(dims) && Unflat(dims, Flat(dims, idx)) == idx
  {
    if dims != [] {
      UnflatFlat(dims[1..], idx[1..]);
      Digits(idx[0], Flat(dims[1..], idx[1..]), dims[0], Product(dims[1..]));
      assert idx == [idx[0]] + idx[1..];
    }
  }

  lemma ConsInShape(q: nat, rest: Index, dims: seq<Word>)
    requires dims != [] && q < dims[0] && InShape(rest, dims[1..])
    ensures InShape([q] + rest, dims)
    ensures Flat(dims, [q] + rest) == q * Product(dims[1..]) + Flat(dims[1..], rest)
  {
    var idx := [q] + rest;
    assert idx[1..] == rest;
    assert forall i :: 0 < i < |dims| ==> idx[i] == rest[i - 1] && dims[i] == dims[1..][i - 1];
  }

  /** And every position is the position of a multi-index: the two maps are inverse bijections. */
  lemma {:induction false} FlatUnflat(dims: seq<Word>, position: nat)
    requires position < Product(dims)
    ensures InShape(Unflat(dims, position), dims) && Flat(dims, Unflat(dims, position)) == position
  {
    if dims != [] {
      InnerPositive(dims);
      var m := Product(dims[1..]);
      var q, r := SplitPosition(position, dims[0], m);
      FlatUnflat(dims[1..], r);
      ConsInShape(q, Unflat(dims[1..], r), dims);
    }
  }

  /** The first index in which they differ is smaller in `a`. */
  predicate Before(a: Index, b: Index)
    requires |a| == |b|
  {
    a != [] && (a[0] < b[0] || (a[0] == b[0] && Before(a[1..], b[1..])))
  }

  lemma LeadingDigit(a: nat, b: nat, x: nat, y: nat, m: nat)
    requires a < b && x < m
    ensures a * m + x < b * m + y
  {
    MulMono(a + 1, b, m);
    assert (a + 1) * m == a * m + m;
  }

  /** Row-major order: positions follow the indices lexicographically, the last one varying fastest. */
  lemma {:induction false} FlatOrder(dims: seq<Word>, a: Index, b: Index)
    requires InShape(a, dims) && InShape(b, dims) && Before(a, b)
    ensures Flat(dims, a) < Flat(dims, b)
  {
    UnflatFlat(dims[1..], a[1..]);
    if a[0] < b[0] {
      LeadingDigit(a[0], b[0], Flat(dims[1..], a[1..]), Flat(dims[1..], b[1..]), Product(dims[1..]));
    } else {
      FlatOrder(dims[1..], a[1..], b[1..]);
    }
  }

  /** An n-dimensional array: its type, shape and elements. */
  datatype NdArray = NdArray(t: DType, dims: seq<Word>, at: Index -> nat)

  function Size(a: NdArray): nat {
    Product(a.dims)
  }

  predicate ValidArray(a: NdArray) {
    && |a.dims| <= MAX_DIMS && Size(a) * a.t.Width() < TWO_64
    && forall p | 0 <= p < Size(a) :: a.at(Unflat(a.dims, p)) < Patterns(a.t.Width())
  }

  function Ravel(a: NdArray): (data: seq<nat>)
    ensures |data| == Size(a)
  {
    seq<nat>(Size(a), p requires 0 <= p < Size(a) => a.at(Unflat(a.dims, p)))
  }

  lemma RavelAt(a: NdArray, idx: Index)
    requires InShape(idx, a.dims)
    ensures Flat(a.dims, idx) < Size(a) && Ravel(a)[Flat(a.dims, idx)] == a.at(idx)
  {
    UnflatFlat(a.dims, idx);
  }

  /** The put takes the address of the first dimension and of the first element, so an array with
      no dimensions or no elements raises an index error before anything is stored. */
  function PyPutTensor(s: Store, name: string, a: NdArray): Result<Store>
    requires ValidArray(a)
  {
    if a.dims == [] || Ravel(a) == [] then Err(IndexError)
    else
      CopiedBytes(a.t, Ravel(a), Size(a));
      Ok(PutItem(s, name, TensorItem(a.t, a.dims, Ravel(a), Size(a))))
  }

  datatype Rebuilt = Rebuilt(t: DType, dims: seq<Word>, data: seq<nat>) {
    function At(idx: Index): nat
      requires InShape(idx, dims) && |data| == Product(dims)
    {
      UnflatFlat(dims, idx);
      data[Flat(dims, idx)]
    }
  }

  function TypeOfCode(code: nat): Option<DType> {
    if code == 0 then Some(INT32) else if code == 1 then Some(INT64)
    else if code == 2 then Some(FLOAT32) else if code == 3 then Some(FLOAT64) else None
  }

  /** Rebuilding takes the element type from the record; a view needs a positive length that fits a
      signed 64-bit size, and the reshape needs exactly the product of the dimensions. */
  function ConstructTensor(item: Item): Result<Rebuilt> {
    if |item.meta| < 16 then Err(Undefined)
    else if NDims(item.meta) == 0 then Err(RankMismatch)
    else if !DimsInside(item.meta) then Err(Undefined)
    else
      var dims := Dims(item.meta);
      var n := NElements(dims);
      match TypeOfCode(TypeCode(item.meta))
      case None => Err(TypeError)
      case Some(t) =>
        if n == 0 || TWO_64 / 2 <= n then Err(ValueError)
        else if |item.data| < n * t.Width() then Err(Undefined)
        else if n != Product(dims) then Err(ValueError)
        else Ok(Rebuilt(t, dims, LoadAll(t.Width(), n, item.data)))
  }

  function PyGetTensor(s: Store, name: string): Result<Rebuilt> {
    match GetItem(s, name)
    case Err(e) => Err(e)
    case Ok(item) => ConstructTensor(item)
  }

  /** Which puts are refused: those of arrays without dimensions or without elements; every other put
      stores the record of type and shape and the elements in row-major order. */
  lemma PyPutIff(s: Store, name: string, a: NdArray)
    requires ValidArray(a)
    ensures PyPutTensor(s, name, a) == Err(IndexError) <==> a.dims == [] || Size(a) == 0
    ensures a.dims != [] && Size(a) != 0 ==>
      PyPutTensor(s, name, a) ==
      Ok(PutItem(s, name, Item(Encode(a.t.Code(), a.dims), ImageAll(a.t.Width(), Ravel(a)))))
  {
    CopiedBytes(a.t, Ravel(a), Size(a));
    assert Ravel(a)[..Size(a)] == Ravel(a);
  }

  /** A scalar is refused before its type is looked at, and a type code that stands for no type after
      that. */
  lemma ConstructRefuses(item: Item)
    requires 16 <= |item.meta| && DimsInside(item.meta)
    ensures ConstructTensor(item) == Err(RankMismatch) <==> NDims(item.meta) == 0
    ensures ConstructTensor(item) == Err(TypeError) <==> NDims(item.meta) != 0 && 4 <= TypeCode(item.meta)
  {
  }

  lemma CoherentType(item: Item) returns (t: DType)
    requires CoherentItem(item)
    ensures TypeOfCode(TypeCode(item.meta)) == Some(t)
    ensures |item.data| == Product(Dims(item.meta)) * t.Width()
  {
    t :| t.Code() == TypeCode(item.meta) && |item.data| == Product(Dims(item.meta)) * t.Width();
  }

  /** Reading a coherent tensor never leaves its data, and succeeds exactly when its product is
      positive and below 2^31; any other product makes the rebuild raise a value error. */
  lemma ConstructIff(item: Item)
    requires CoherentItem(item) && NDims(item.meta) != 0 && |item.data| < TWO_64
    ensures var p := Product(Dims(item.meta));
            if 0 < p < TWO_31 then
              && ConstructTensor(item).Ok?
              && ConstructTensor(item).value.dims == Dims(item.meta)
              && |ConstructTensor(item).value.data| == p
            else ConstructTensor(item) == Err(ValueError)
  {
    var dims := Dims(item.meta);
    var p, n := Product(dims), NElements(dims);
    var t := CoherentType(item);
    MulMono(4, t.Width(), p);
    CountBelow(dims);
    CountRange(dims);
    MulOrder(n, p, t.Width());
  }

  /** A count is either its product modulo 2^32, or in the upper range that no view accepts. */
  lemma CountRange(dims: seq<Word>)
    ensures NElements(dims) < TWO_31 || TWO_64 - TWO_31 <= NElements(dims)
  {
    NElementsCharacterised(dims);
  }

  lemma ConstructImage(t: DType, dims: seq<Word>, xs: seq<nat>)
    requires 0 < |dims| <= MAX_DIMS && AllFit(t.Width(), xs)
    requires 0 < Product(dims) < TWO_31 && Product(dims) <= |xs|
    ensures ConstructTensor(Item(Encode(t.Code(), dims), ImageAll(t.Width(), xs))) ==
            Ok(Rebuilt(t, dims, xs[..Product(dims)]))
  {
    DecodeEncode(t.Code(), dims);
    CountBelow(dims);
    ImagePrefix(t.Width(), xs, Product(dims));
  }

  lemma PyReadImage(s: Store, name: string, t: DType, dims: seq<Word>, xs: seq<nat>)
    requires 0 < |dims| <= MAX_DIMS && AllFit(t.Width(), xs)
    requires 0 < Product(dims) < TWO_31 && Product(dims) <= |xs|
    ensures PyGetTensor(PutItem(s, name, Item(Encode(t.Code(), dims), ImageAll(t.Width(), xs))), name) ==
            Ok(Rebuilt(t, dims, xs[..Product(dims)]))
  {
    PyGetAfterPut(s, name, t, dims, ImageAll(t.Width(), xs));
    ConstructImage(t, dims, xs);
  }

  lemma ShorterPrefix(mem: seq<nat>, p: nat, c: nat)
    requires p <= c <= |mem|
    ensures mem[..c][..p] == mem[..p]
  {
  }

  /** A tensor put by the C++ or C interface, read from Python: a shape with fewer than 2^31 elements
      comes back with the first of the elements copied, as many as the shape has. */
  lemma PyReadBack(s: Store, name: string, t: DType, dims: seq<Word>, mem: seq<nat>, n: Word)
    requires 0 < |dims| <= MAX_DIMS && AllFit(t.Width(), mem)
    requires Copied(t, n) <= |mem| && 0 < Product(dims) < TWO_31 && Product(dims) <= Copied(t, n)
    ensures PyGetTensor(PutItem(s, name, TensorItem(t, dims, mem, n)), name) ==
            Ok(Rebuilt(t, dims, mem[..Product(dims)]))
  {
    var xs := mem[..Copied(t, n)];
    AllFitPrefix(t.Width(), mem, Copied(t, n));
    StoredElements(t, dims, mem, n);
    ShorterPrefix(mem, Product(dims), Copied(t, n));
    PyReadImage(s, name, t, dims, xs);
  }

  lemma PyGetAfterPut(s: Store, name: string, t: DType, dims: seq<Word>, data: Bytes)
    requires |dims| <= MAX_DIMS
    ensures var item := Item(Encode(t.Code(), dims), data);
            PyGetTensor(PutItem(s, name, item), name) == ConstructTensor(item)
  {
    DecodeEncode(t.Code(), dims);
    GetAfterPut(s, name, Item(Encode(t.Code(), dims), data));
  }

  /** Row-major exchange: an array put from Python and read back has its type, its shape, and every
      element at its multi-index, for every non-empty shape whose product is below 2^31. */
  lemma PyRoundTrip(s: Store, name: string, a: NdArray)
    requires ValidArray(a) && a.dims != [] && 0 < Size(a) < TWO_31
    ensures PyPutTensor(s, name, a).Ok?
    ensures var r := PyGetTensor(PyPutTensor(s, name, a).value, name);
            && r.Ok? && r.value.t == a.t && r.value.dims == a.dims
            && |r.value.data| == Size(a)
            && forall idx: Index | InShape(idx, a.dims) :: r.value.At(idx) == a.at(idx)
  {
    var data := Ravel(a);
    CopiedBytes(a.t, data, Size(a));
    assert data[..Size(a)] == data;
    DecodeEncode(a.t.Code(), a.dims);
    var item := TensorItem(a.t, a.dims, data, Size(a));
    GetAfterPut(s, name, item);
    ConstructImage(a.t, a.dims, data);
    forall idx: Index | InShape(idx, a.dims)
      ensures Rebuilt(a.t, a.dims, data).At(idx) == a.at(idx)
    {
      UnflatFlat(a.dims, idx);
    }
  }
}
