/** The metadata record of a stored item: a word array holding the element type, the number of
    dimensions and the dimensions themselves. All sizes are computed in `std::size_t`. */
module MetaData {
  import opened Machine
  import opened ByteCodec
  import opened Wrappers

  const WORD: int := 8
  const END_OF_HEADER: int := 2

  /** The largest dimension count whose record size does not wrap. */
  const MAX_DIMS: int := TWO_61 - 3

  datatype DType = INT32 | INT64 | FLOAT32 | FLOAT64 {
    function Code(): Word {
      match this
      case INT32 => 0
      case INT64 => 1
      case FLOAT32 => 2
      case FLOAT64 => 3
    }

    function Width(): (w: nat)
      ensures w == 4 || w == 8
    {
      match this
      case INT32 => 4
      case INT64 => 8
      case FLOAT32 => 4
      case FLOAT64 => 8
    }
  }

  /** The two byte strings that make up one stored item: its metadata record and its elements. */
  datatype Item = Item(meta: Bytes, data: Bytes)

  /** The record for a type code and dimensions; a scalar has no dimensions. */
  function Encode(code: Word, dims: seq<Word>): Bytes
    requires |dims| <= MAX_DIMS
  {
    ImageAll(WORD, [code, |dims|] + dims)
  }

  function WordAt(buf: Bytes, i: nat): nat
    requires (i + 1) * WORD <= |buf|
  {
    Load(buf[i * WORD..(i + 1) * WORD])
  }

  function TypeCode(buf: Bytes): nat
    requires 16 <= |buf|
  {
    WordAt(buf, 0)
  }

  function NDims(buf: Bytes): nat
    requires 16 <= |buf|
  {
    WordAt(buf, 1)
  }

  /** The dimensions a reader walks over lie inside the buffer. */
  predicate DimsInside(buf: Bytes)
    requires 16 <= |buf|
  {
    NDims(buf) * WORD <= |buf| - 16
  }

  function Dims(buf: Bytes): seq<Word>
    requires 16 <= |buf| && DimsInside(buf)
  {
    WordPatterns();
    LoadAllFits(WORD, NDims(buf), buf[16..]);
    LoadAll(WORD, NDims(buf), buf[16..])
  }

  /** The decoder. Its size test is one wrapping addition and one wrapping multiplication; a
      buffer without a whole header is read past its end. */
  function FromBuffer(buf: Bytes): Result<Bytes> {
    if |buf| < 16 then Err(Undefined)
    else
      var expectedSize := Wrap(Wrap(NDims(buf) + END_OF_HEADER) * WORD);
      if |buf| != expectedSize then Err(Metadata) else Ok(buf)
  }

  lemma WordPatterns()
    ensures Patterns(WORD) == TWO_64
  {
    assert Patterns(4) == TWO_32;
  }

  lemma HeaderWordBound(buf: Bytes, i: nat)
    requires (i + 1) * WORD <= |buf|
    ensures WordAt(buf, i) < TWO_64
  {
    WordPatterns();
    ImageLoad(buf[i * WORD..(i + 1) * WORD]);
  }

  /** The size computed for a record is eight times the word count modulo 2^61. */
  lemma ExpectedSize(n: Word)
    ensures Wrap(Wrap(n + END_OF_HEADER) * WORD) == WORD * ((n + END_OF_HEADER) % TWO_61)
  {
    var words := n + END_OF_HEADER;
    ModMul(words % TWO_64, words, WORD, TWO_64);
    assert words * WORD == (words / TWO_61) * TWO_64 + (words % TWO_61) * WORD;
    DivModUnique(words * WORD, words / TWO_61, (words % TWO_61) * WORD, TWO_64);
  }

  lemma CountCongruent(n: nat, words: int)
    requires END_OF_HEADER <= words < TWO_61
    ensures (n + END_OF_HEADER) % TWO_61 == words <==> n % TWO_61 == words - END_OF_HEADER
  {
    var q := n / TWO_61;
    if n % TWO_61 == words - END_OF_HEADER {
      DivModUnique(n + END_OF_HEADER, q, words, TWO_61);
    }
    if (n + END_OF_HEADER) % TWO_61 == words {
      DivModUnique(n, (n + END_OF_HEADER) / TWO_61, words - END_OF_HEADER, TWO_61);
    }
  }

  /** A buffer of `count` dimension words is accepted if it announces `count`, or `count` plus a
      multiple of 2^61. */
  lemma AcceptsCongruent(buf: Bytes, count: nat, k: nat)
    requires count <= MAX_DIMS && |buf| == 16 + WORD * count
    requires NDims(buf) == count + k * TWO_61
    ensures FromBuffer(buf) == Ok(buf)
  {
    HeaderWordBound(buf, 1);
    ExpectedSize(NDims(buf));
    DivModUnique(NDims(buf) + END_OF_HEADER, k, count + END_OF_HEADER, TWO_61);
  }

  /** Exactly which buffers the decoder accepts: whole words, and a dimension count congruent
      modulo 2^61 to the number of words after the header. */
  lemma FromBufferAccepts(buf: Bytes)
    requires 16 <= |buf| < TWO_64
    ensures FromBuffer(buf).Ok? <==>
            |buf| % WORD == 0 && NDims(buf) % TWO_61 == |buf| / WORD - END_OF_HEADER
    ensures FromBuffer(buf) == Ok(buf) || FromBuffer(buf) == Err(Metadata)
  {
    var n := NDims(buf);
    HeaderWordBound(buf, 1);
    ExpectedSize(n);
    CountCongruent(n, |buf| / WORD);
    var residue := (n + END_OF_HEADER) % TWO_61;
    assert |buf| == WORD * residue <==> |buf| % WORD == 0 && |buf| / WORD == residue;
  }

  /** For an accepted record the dimensions are inside the buffer exactly when the count did not
      wrap, and then they are the whole rest of the buffer. */
  lemma AcceptedDimsRegion(buf: Bytes)
    requires 16 <= |buf| < TWO_64 && FromBuffer(buf).Ok?
    ensures DimsInside(buf) <==> NDims(buf) <= MAX_DIMS
    ensures DimsInside(buf) ==> NDims(buf) * WORD == |buf| - 16
  {
    FromBufferAccepts(buf);
  }

  /** The words of a record, whatever count its header announces. */
  lemma RecordWords(code: Word, count: Word, dims: seq<Word>)
    ensures var buf := ImageAll(WORD, [code, count] + dims);
            && |buf| == 16 + WORD * |dims|
            && TypeCode(buf) == code && NDims(buf) == count
            && LoadAll(WORD, |dims|, buf[16..]) == dims
  {
    WordPatterns();
    RecordImage(WORD, code, count, dims);
    var buf := ImageAll(WORD, [code, count] + dims);
    assert buf[0..WORD] == buf[..WORD];
  }

  /** A wrapped count is accepted: any record whose count is 2^61 too large passes the size test,
      and then announces dimensions that are not there. */
  lemma WrappedCountAccepted(code: Word, dims: seq<Word>, count: Word)
    requires |dims| <= MAX_DIMS && count == |dims| + TWO_61
    ensures var buf := ImageAll(WORD, [code, count] + dims);
            && FromBuffer(buf) == Ok(buf) && NDims(buf) == count && !DimsInside(buf)
  {
    RecordWords(code, count, dims);
    AcceptsCongruent(ImageAll(WORD, [code, count] + dims), |dims|, 1);
  }

  /** Decoding an encoded record gives back its type code and dimensions. */
  lemma DecodeEncode(code: Word, dims: seq<Word>)
    requires |dims| <= MAX_DIMS
    ensures var buf := Encode(code, dims);
            && |buf| == 16 + WORD * |dims|
            && FromBuffer(buf) == Ok(buf)
            && TypeCode(buf) == code
            && NDims(buf) == |dims|
            && DimsInside(buf)
            && Dims(buf) == dims
  {
    RecordWords(code, |dims|, dims);
    AcceptsCongruent(Encode(code, dims), |dims|, 0);
  }

  /** Encoding what was decoded from an accepted record gives back the same bytes. */
  lemma EncodeDecode(buf: Bytes)
    requires 16 <= |buf| < TWO_64 && FromBuffer(buf).Ok? && NDims(buf) <= MAX_DIMS
    ensures TypeCode(buf) < TWO_64 && DimsInside(buf)
    ensures Encode(TypeCode(buf), Dims(buf)) == buf
  {
    AcceptedDimsRegion(buf);
    WordPatterns();
    RecordLoad(WORD, NDims(buf), buf[0..WORD], buf[WORD..2 * WORD], buf[16..]);
    assert buf == buf[0..WORD] + buf[WORD..2 * WORD] + buf[16..];
  }

  /** The record in absolute terms: little-endian 8-byte words, first the type code, then the number of
      dimensions, then the dimensions from the outermost on. */
  lemma RecordLayout(code: Word, dims: seq<Word>)
    requires |dims| <= MAX_DIMS
    ensures var buf := Encode(code, dims);
            && |buf| == 16 + 8 * |dims|
            && Load(buf[0..8]) == code
            && Load(buf[8..16]) == |dims|
            && forall i :: 0 <= i < |dims| ==> Load(buf[16 + 8 * i..24 + 8 * i]) == dims[i]
  {
    var words := [code, |dims|] + dims;
    WordPatterns();
    forall k | 0 <= k < |words|
      ensures Load(Encode(code, dims)[8 * k..8 * k + 8]) == words[k]
    {
      ImageAllAt(WORD, words, k);
      LoadImage(WORD, words[k]);
    }
    assert words[0] == code && words[1] == |dims|;
    forall i | 0 <= i < |dims|
      ensures Load(Encode(code, dims)[16 + 8 * i..24 + 8 * i]) == dims[i]
    {
      assert words[i + 2] == dims[i];
      assert 8 * (i + 2) == 16 + 8 * i;
    }
  }

  /** The four types on the wire: the first byte of a record, and the size of an element. */
  lemma TypesOnTheWire(dims: seq<Word>, x: nat)
    requires |dims| <= MAX_DIMS
    ensures Encode(INT32.Code(), dims)[..8] == [0, 0, 0, 0, 0, 0, 0, 0] && |Image(INT32.Width(), x)| == 4
    ensures Encode(INT64.Code(), dims)[..8] == [1, 0, 0, 0, 0, 0, 0, 0] && |Image(INT64.Width(), x)| == 8
    ensures Encode(FLOAT32.Code(), dims)[..8] == [2, 0, 0, 0, 0, 0, 0, 0] && |Image(FLOAT32.Width(), x)| == 4
    ensures Encode(FLOAT64.Code(), dims)[..8] == [3, 0, 0, 0, 0, 0, 0, 0] && |Image(FLOAT64.Width(), x)| == 8
  {
    forall code: Word | code < 4
      ensures Encode(code, dims)[..8] == [code, 0, 0, 0, 0, 0, 0, 0]
    {
      ImageAllAt(WORD, [code, |dims|] + dims, 0);
      SmallImage(WORD, code);
      assert Image(WORD, code) == [code] + Zeros(7);
      assert Zeros(7) == [0, 0, 0, 0, 0, 0, 0];
    }
  }

  function Zeros(n: nat): Bytes {
    seq(n, _ => 0)
  }

  lemma {:induction false} SmallImage(width: nat, x: nat)
    requires 0 < width && x < 256
    ensures Image(width, x) == [x] + Zeros(width - 1)
  {
    if width == 1 {
      assert Image(0, x / 256) == [];
    } else {
      SmallImage(width - 1, 0);
      assert Image(width, x) == [x] + Image(width - 1, 0);
      assert Zeros(width - 1) == [0] + Zeros(width - 2);
    }
  }

  /** The encoder writes the header words, then copies the dimensions behind them. */
  method MakeBuffer(dtype: DType, dims: array<Word>) returns (bytes: Bytes)
    requires dims.Length <= MAX_DIMS
    ensures bytes == Encode(dtype.Code(), dims[..])
    ensures FromBuffer(bytes) == Ok(bytes) && |bytes| < TWO_64
  {
    var nWords := Wrap(dims.Length + END_OF_HEADER);
    var buf := new nat[nWords];
    buf[0] := dtype.Code();
    buf[1] := dims.Length;
    for i := 0 to dims.Length
      invariant buf[0] == dtype.Code() && buf[1] == dims.Length
      invariant forall k :: 0 <= k < i ==> buf[END_OF_HEADER + k] == dims[k]
    {
      buf[END_OF_HEADER + i] := dims[i];
    }
    assert buf[..] == [dtype.Code(), dims.Length] + dims[..];
    DecodeEncode(dtype.Code(), dims[..]);
    bytes := ImageAll(WORD, buf[..]);
  }

  // The element count.

  /** The true number of elements of a shape. */
  function Product(dims: seq<Word>): nat {
    if dims == [] then 1 else dims[0] * Product(dims[1..])
  }

  /** One step of the fold: the `int` accumulator is converted to `std::size_t`, multiplied there
      and converted back. */
  function Multiply(acc: Int32, d: Word): Int32 {
    Truncate(Wrap(SignExtend(acc) * d))
  }

  function Accumulate(acc: Int32, dims: seq<Word>): Int32
    decreases |dims|
  {
    if dims == [] then acc else Accumulate(Multiply(acc, dims[0]), dims[1..])
  }

  /** The element count that every reader uses. */
  function NElements(dims: seq<Word>): Word {
    SignExtend(Accumulate(1, dims))
  }

  method ComputeNElements(dims: array<Word>) returns (n: Word)
    ensures n == NElements(dims[..])
    ensures n == SignExtend(Truncate(Product(dims[..])))
  {
    var acc: Int32 := 1;
    var i := 0;
    while i < dims.Length
      invariant 0 <= i <= dims.Length
      invariant Accumulate(acc, dims[i..]) == Accumulate(1, dims[..])
    {
      assert dims[i..][1..] == dims[i + 1..];
      acc := Multiply(acc, dims[i]);
      i := i + 1;
    }
    NElementsCharacterised(dims[..]);
    n := SignExtend(acc);
  }

  lemma MultiplyLow(acc: Int32, d: Word)
    ensures Multiply(acc, d) % TWO_32 == (acc * d) % TWO_32
  {
    var exact := SignExtend(acc) * d;
    TruncateLow(Wrap(exact));
    WrapLow(exact);
    SignExtendCongruent(acc);
    ModMul(SignExtend(acc), acc, d, TWO_32);
  }

  lemma {:induction false} AccumulateLow(acc: Int32, dims: seq<Word>)
    ensures Accumulate(acc, dims) == Truncate(acc * Product(dims))
    decreases |dims|
  {
    if dims == [] {
      TruncateFixed(acc);
    } else {
      var acc', rest := Multiply(acc, dims[0]), Product(dims[1..]);
      AccumulateLow(acc', dims[1..]);
      MultiplyLow(acc, dims[0]);
      ModMul(acc', acc * dims[0], rest, TWO_32);
      assert (acc * dims[0]) * rest == acc * Product(dims);
    }
  }

  /** The fold is the sign extension of the true product modulo 2^32, however the partial products
      overflowed. */
  lemma NElementsCharacterised(dims: seq<Word>)
    ensures NElements(dims) == SignExtend(Truncate(Product(dims)))
  {
    AccumulateLow(1, dims);
  }

  /** The two ranges of values that survive conversion to `int` and back. */
  predicate SurvivesInt(x: int) {
    0 <= x < TWO_31 || TWO_64 - TWO_31 <= x < TWO_64
  }

  /** The count is the true product exactly when the product survives the `int` accumulator. */
  lemma NElementsExact(dims: seq<Word>)
    ensures NElements(dims) == Product(dims) <==> SurvivesInt(Product(dims))
  {
    NElementsCharacterised(dims);
    if Product(dims) < TWO_64 {
      SignExtendTruncateFixed(Product(dims));
    }
  }

  /** The count equals the `std::size_t` product that the C writer computes exactly when that
      product survives the `int` accumulator. */
  lemma NElementsAgreesWithWriter(dims: seq<Word>)
    ensures NElements(dims) == Wrap(Product(dims)) <==> SurvivesInt(Wrap(Product(dims)))
  {
    NElementsCharacterised(dims);
    WrapLow(Product(dims));
    SignExtendTruncateFixed(Wrap(Product(dims)));
  }
}
