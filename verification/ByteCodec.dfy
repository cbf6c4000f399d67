/** Little-endian memory images of fixed-width values.

    One image serves the words of a metadata record (width 8) and the elements of scalars and
    tensors (width 4 or 8), whose meaning as integers or floats never matters to the library. */
module ByteCodec {

  type Byte = b: int | 0 <= b < 256
  type Bytes = seq<Byte>

  /** The number of bit patterns of `width` bytes. */
  function Patterns(width: nat): (n: nat)
    ensures 0 < n
  {
    if width == 0 then 1 else 256 * Patterns(width - 1)
  }

  /** Every value of `xs` is a bit pattern of `width` bytes. */
  predicate AllFit(width: nat, xs: seq<nat>) {
    forall i :: 0 <= i < |xs| ==> xs[i] < Patterns(width)
  }

  lemma AllFitPrefix(width: nat, xs: seq<nat>, n: nat)
    requires AllFit(width, xs) && n <= |xs|
    ensures AllFit(width, xs[..n])
  {
  }

  function Image(width: nat, x: nat): (bs: Bytes)
    ensures |bs| == width
  {
    if width == 0 then [] else [x % 256] + Image(width - 1, x / 256)
  }

  function Load(bs: Bytes): nat {
    if bs == [] then 0 else bs[0] + 256 * Load(bs[1..])
  }

  function ImageAll(width: nat, xs: seq<nat>): (bs: Bytes)
    ensures |bs| == |xs| * width
  {
    if xs == [] then []
    else
      assert |xs| * width == |xs[1..]| * width + width;
      Image(width, xs[0]) + ImageAll(width, xs[1..])
  }

  /** The first `n` values of `width` bytes stored in `bs`. */
  function LoadAll(width: nat, n: nat, bs: Bytes): (xs: seq<nat>)
    requires n * width <= |bs|
    ensures |xs| == n
  {
    if n == 0 then []
    else
      assert n * width == (n - 1) * width + width && 0 <= (n - 1) * width;
      [Load(bs[..width])] + LoadAll(width, n - 1, bs[width..])
  }

  lemma {:induction false} LoadImage(width: nat, x: nat)
    requires x < Patterns(width)
    ensures Load(Image(width, x)) == x
  {
    if width != 0 {
      LoadImage(width - 1, x / 256);
      assert Image(width, x)[1..] == Image(width - 1, x / 256);
    }
  }

  lemma {:induction false} ImageLoad(bs: Bytes)
    ensures Load(bs) < Patterns(|bs|) && Image(|bs|, Load(bs)) == bs
  {
    if bs != [] {
      ImageLoad(bs[1..]);
      assert Load(bs) % 256 == bs[0] && Load(bs) / 256 == Load(bs[1..]);
    }
  }

  /** Little-endian: each further byte counts for more than all before it. */
  lemma {:induction false} LoadSnoc(bs: Bytes, b: Byte)
    ensures Load(bs + [b]) == Load(bs) + b * Patterns(|bs|)
  {
    if bs != [] {
      LoadSnoc(bs[1..], b);
      assert (bs + [b])[1..] == bs[1..] + [b];
      assert 256 * (b * Patterns(|bs| - 1)) == b * Patterns(|bs|);
    } else {
      assert (bs + [b])[1..] == [];
    }
  }

  /** Values lie one after the other, in order. */
  lemma {:induction false} ImageAllAt(width: nat, xs: seq<nat>, i: nat)
    requires i < |xs|
    ensures 0 <= i * width <= (i + 1) * width <= |ImageAll(width, xs)|
    ensures ImageAll(width, xs)[i * width..(i + 1) * width] == Image(width, xs[i])
  {
    var bs, tail := ImageAll(width, xs), ImageAll(width, xs[1..]);
    assert |xs| * width == (|xs| - 1) * width + width;
    assert (i + 1) * width == i * width + width;
    if i == 0 {
      assert bs[..width] == Image(width, xs[0]);
    } else {
      ImageAllAt(width, xs[1..], i - 1);
      assert i * width == (i - 1) * width + width;
      assert bs[i * width..(i + 1) * width] == tail[(i - 1) * width..i * width];
    }
  }

  lemma LoadAllCons(width: nat, n: nat, head: Bytes, tail: Bytes)
    requires |head| == width && n * width <= |tail|
    ensures (n + 1) * width <= |head + tail|
    ensures LoadAll(width, n + 1, head + tail) == [Load(head)] + LoadAll(width, n, tail)
  {
    assert (n + 1) * width == n * width + width;
    assert (head + tail)[..width] == head && (head + tail)[width..] == tail;
  }

  /** Reading back the first values of an image, whatever follows it. */
  lemma {:induction false} LoadAllImageAll(width: nat, xs: seq<nat>, rest: Bytes)
    requires AllFit(width, xs)
    ensures LoadAll(width, |xs|, ImageAll(width, xs) + rest) == xs
  {
    if xs != [] {
      var n := |xs| - 1;
      var head, tail := Image(width, xs[0]), ImageAll(width, xs[1..]) + rest;
      LoadImage(width, xs[0]);
      LoadAllImageAll(width, xs[1..], rest);
      LoadAllCons(width, n, head, tail);
      assert ImageAll(width, xs) + rest == head + tail;
      assert LoadAll(width, n + 1, head + tail) == [xs[0]] + xs[1..];
    }
  }

  lemma {:induction false} LoadAllFits(width: nat, n: nat, bs: Bytes)
    requires n * width <= |bs|
    ensures AllFit(width, LoadAll(width, n, bs))
  {
    if n != 0 {
      assert n * width == (n - 1) * width + width && 0 <= (n - 1) * width;
      ImageLoad(bs[..width]);
      LoadAllFits(width, n - 1, bs[width..]);
    }
  }

  lemma {:induction false} ImageAllLoadAll(width: nat, n: nat, bs: Bytes)
    requires |bs| == n * width
    ensures ImageAll(width, LoadAll(width, n, bs)) == bs
  {
    if n != 0 {
      assert n * width == (n - 1) * width + width && 0 <= (n - 1) * width;
      ImageLoad(bs[..width]);
      ImageAllLoadAll(width, n - 1, bs[width..]);
      assert bs == bs[..width] + bs[width..];
      assert LoadAll(width, n, bs)[1..] == LoadAll(width, n - 1, bs[width..]);
    }
  }

  lemma {:induction false} ImageAllConcat(width: nat, xs: seq<nat>, ys: seq<nat>)
    ensures ImageAll(width, xs + ys) == ImageAll(width, xs) + ImageAll(width, ys)
  {
    if xs == [] {
      assert xs + ys == ys;
    } else {
      assert (xs + ys)[1..] == xs[1..] + ys;
      ImageAllConcat(width, xs[1..], ys);
    }
  }

  /** The first `n` values of an image are its first `n * width` bytes, in both directions. */
  lemma ImagePrefix(width: nat, xs: seq<nat>, n: nat)
    requires n <= |xs|
    ensures n * width <= |xs| * width
    ensures ImageAll(width, xs)[..n * width] == ImageAll(width, xs[..n])
    ensures AllFit(width, xs) ==> LoadAll(width, n, ImageAll(width, xs)) == xs[..n]
  {
    assert xs == xs[..n] + xs[n..];
    ImageAllConcat(width, xs[..n], xs[n..]);
    if AllFit(width, xs) {
      LoadAllImageAll(width, xs[..n], ImageAll(width, xs[n..]));
    }
  }

  lemma ImageAllHeader(width: nat, a: nat, b: nat, xs: seq<nat>)
    ensures ImageAll(width, [a, b] + xs) == Image(width, a) + Image(width, b) + ImageAll(width, xs)
  {
    assert ([a, b] + xs)[1..] == [b] + xs;
    assert ([b] + xs)[1..] == xs;
    assert ImageAll(width, [b] + xs) == Image(width, b) + ImageAll(width, xs);
    assert ImageAll(width, [a, b] + xs) == Image(width, a) + ImageAll(width, [b] + xs);
  }

  /** A header of two values followed by a list, read back piece by piece. */
  lemma RecordImage(width: nat, a: nat, b: nat, xs: seq<nat>)
    requires AllFit(width, [a, b] + xs)
    ensures var buf := ImageAll(width, [a, b] + xs);
            && |buf| == 2 * width + |xs| * width
            && Load(buf[..width]) == a
            && Load(buf[width..2 * width]) == b
            && LoadAll(width, |xs|, buf[2 * width..]) == xs
  {
    var buf := ImageAll(width, [a, b] + xs);
    ImageAllHeader(width, a, b, xs);
    assert ([a, b] + xs)[0] == a && ([a, b] + xs)[1] == b;
    assert forall i :: 0 <= i < |xs| ==> xs[i] == ([a, b] + xs)[i + 2];
    LoadImage(width, a);
    LoadImage(width, b);
    LoadAllImageAll(width, xs, []);
    assert buf[..width] == Image(width, a);
    assert buf[width..2 * width] == Image(width, b);
    assert buf[2 * width..] == ImageAll(width, xs) + [];
  }

  lemma RecordLoad(width: nat, n: nat, a: Bytes, b: Bytes, rest: Bytes)
    requires |a| == |b| == width && |rest| == n * width
    ensures var xs := [Load(a), Load(b)] + LoadAll(width, n, rest);
            ImageAll(width, xs) == a + b + rest && AllFit(width, xs)
  {
    var tail := LoadAll(width, n, rest);
    ImageLoad(a);
    ImageLoad(b);
    ImageAllLoadAll(width, n, rest);
    LoadAllFits(width, n, rest);
    ImageAllHeader(width, Load(a), Load(b), tail);
  }
}
