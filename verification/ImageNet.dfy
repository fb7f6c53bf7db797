/**
 Preprocessing: interleaved bytes (row, column, channel) become three planes of normalized
 numbers. Arithmetic is over the reals.
 */
module ImageNet {
  import opened Core
  import opened Memory

  function Mean(c: nat): real
    requires c < 3
  {
    [0.485, 0.456, 0.406][c]
  }

  function Deviation(c: nat): (d: real)
    requires c < 3
    ensures d > 0.0
  {
    [0.229, 0.224, 0.225][c]
  }

  function Normalize(pixel: byte, c: nat): real
    requires c < 3
  {
    ((pixel as int as real) / 255.0 - Mean(c)) / Deviation(c)
  }

  function Denormalize(value: real, c: nat): real
    requires c < 3
  {
    (value * Deviation(c) + Mean(c)) * 255.0
  }

  lemma NormalizeRoundTrip(pixel: byte, c: nat)
    requires c < 3
    ensures Denormalize(Normalize(pixel, c), c) == pixel as int as real
  {
    var x, d := (pixel as int as real) / 255.0 - Mean(c), Deviation(c);
    assert x / d * d == x;
  }

  /** Where channel c of pixel q comes from, and where it goes. */
  function Source(q: nat, c: nat): nat {
    q * 3 + c
  }

  function Target(area: nat, q: nat, c: nat): nat {
    c * area + q
  }

  lemma TargetBounds(area: nat, q: nat, c: nat)
    requires q < area && c < 3
    ensures Target(area, q, c) < 3 * area
  {
    if c == 0 { } else if c == 1 { } else { }
  }

  lemma TargetInjective(area: nat, q: nat, c: nat, p: nat, d: nat)
    requires q < area && p < area && c < 3 && d < 3 && Target(area, q, c) == Target(area, p, d)
    ensures q == p && c == d
  {
    assert c == 0 || c == 1 || c == 2;
    assert d == 0 || d == 1 || d == 2;
  }

  /** The index map of `transform` and its inverse. */
  function ToPlanar(area: nat, k: nat): nat {
    Target(area, k / 3, k % 3)
  }

  function ToInterleaved(area: nat, p: nat): nat
    requires area > 0
  {
    Source(p % area, p / area)
  }

  /** The index map is a bijection on 0 .. 3 * area - 1. */
  lemma IndexBijection(area: nat, k: nat)
    requires area > 0 && k < 3 * area
    ensures ToPlanar(area, k) < 3 * area && ToInterleaved(area, ToPlanar(area, k)) == k
    ensures ToInterleaved(area, k) < 3 * area && ToPlanar(area, ToInterleaved(area, k)) == k
  {
    TargetBounds(area, k / 3, k % 3);
    PlaneOf(area, k / 3, k % 3);
    var c, q := k / area, k % area;
    assert k == c * area + q;
    Multiples(c - 2, area);
    assert (c - 2) * area == c * area - 2 * area;
    assert Source(q, c) / 3 == q && Source(q, c) % 3 == c;
  }

  lemma PlaneOf(area: nat, q: nat, c: nat)
    requires q < area && c < 3
    ensures Target(area, q, c) / area == c && Target(area, q, c) % area == q
  {
    var p := Target(area, q, c);
    var d, r := p / area, p % area;
    assert p == d * area + r;
    assert (d - c) * area == d * area - c * area;
    Multiples(d - c, area);
  }

  predicate Done(t: seq<real>, pixels: seq<byte>, area: nat, q: nat, c: nat)
    requires c < 3
  {
    Target(area, q, c) < |t| && Source(q, c) < |pixels| && t[Target(area, q, c)] == Normalize(pixels[Source(q, c)], c)
  }

  /** All channels of the pixels before q, and the channels before c of pixel q. */
  predicate DoneUpTo(t: seq<real>, pixels: seq<byte>, area: nat, q: nat, c: nat) {
    && (forall p, d :: 0 <= p < q && 0 <= d < 3 ==> Done(t, pixels, area, p, d))
    && (forall d :: 0 <= d < c && d < 3 ==> Done(t, pixels, area, q, d))
  }

  lemma DoneStep(t: seq<real>, pixels: seq<byte>, area: nat, q: nat, c: nat)
    requires q < area && c < 3 && 3 * area <= |t| && 3 * area <= |pixels| && DoneUpTo(t, pixels, area, q, c)
    ensures Target(area, q, c) < |t| && Source(q, c) < |pixels|
    ensures DoneUpTo(t[Target(area, q, c) := Normalize(pixels[Source(q, c)], c)], pixels, area, q, c + 1)
  {
    TargetBounds(area, q, c);
    var i := Target(area, q, c);
    var r := t[i := Normalize(pixels[Source(q, c)], c)];
    forall p, d | 0 <= p <= q && 0 <= d < 3 && (p < q || d < c) ensures Done(r, pixels, area, p, d) {
      assert Done(t, pixels, area, p, d);
      if Target(area, p, d) == i { TargetInjective(area, q, c, p, d); }
    }
  }

  /** The loop over the channels of one pixel. */
  method TransformPixel(pixels: seq<byte>, tensor: array<real>, area: nat, q: nat)
    requires q < area && 3 * area <= |pixels| && 3 * area <= tensor.Length
    requires DoneUpTo(tensor[..], pixels, area, q, 0)
    modifies tensor
    ensures DoneUpTo(tensor[..], pixels, area, q + 1, 0)
    ensures tensor[3 * area..] == old(tensor[3 * area..])
  {
    var c := 0;
    while c < 3
      invariant c <= 3
      invariant DoneUpTo(tensor[..], pixels, area, q, c)
      invariant tensor[3 * area..] == old(tensor[3 * area..])
    {
      TargetBounds(area, q, c);
      DoneStep(tensor[..], pixels, area, q, c);
      ghost var before := tensor[..];
      tensor[Target(area, q, c)] := Normalize(pixels[Source(q, c)], c);
      assert tensor[..] == before[Target(area, q, c) := Normalize(pixels[Source(q, c)], c)];
      c := c + 1;
    }
  }

  /** The three planes, number by number: each channel of every pixel with its own mean and deviation. */
  predicate Planes(t: seq<real>, pixels: seq<byte>, area: nat) {
    && 3 * area <= |t| && 3 * area <= |pixels|
    && forall q :: 0 <= q < area ==> PixelPlanes(t, pixels, area, q)
  }

  predicate PixelPlanes(t: seq<real>, pixels: seq<byte>, area: nat, q: nat)
    requires q < area && 3 * area <= |t| && 3 * area <= |pixels|
  {
    && t[q] == ((pixels[3 * q] as int as real) / 255.0 - 0.485) / 0.229
    && t[area + q] == ((pixels[3 * q + 1] as int as real) / 255.0 - 0.456) / 0.224
    && t[2 * area + q] == ((pixels[3 * q + 2] as int as real) / 255.0 - 0.406) / 0.225
  }

  lemma PlanesDone(t: seq<real>, pixels: seq<byte>, area: nat)
    requires DoneUpTo(t, pixels, area, area, 0) && 3 * area <= |t| && 3 * area <= |pixels|
    ensures Planes(t, pixels, area)
  {
    forall q | 0 <= q < area ensures PixelPlanes(t, pixels, area, q) {
      assert Done(t, pixels, area, q, 0) && Done(t, pixels, area, q, 1) && Done(t, pixels, area, q, 2);
    }
  }

  /** The loops over rows and columns. */
  method Transform(pixels: seq<byte>, tensor: array<real>, width: nat, height: nat)
    requires 3 * (width * height) <= |pixels| && 3 * (width * height) <= tensor.Length
    modifies tensor
    ensures DoneUpTo(tensor[..], pixels, width * height, width * height, 0)
    ensures Planes(tensor[..], pixels, width * height)
    ensures tensor[3 * (width * height)..] == old(tensor[3 * (width * height)..])
  {
    var area := width * height;
    var y := 0;
    while y < height
      invariant y <= height
      invariant tensor[3 * area..] == old(tensor[3 * area..])
      invariant DoneUpTo(tensor[..], pixels, area, y * width, 0)
    {
      TransformRow(pixels, tensor, width, height, y);
      assert y * width + width == (y + 1) * width;
      y := y + 1;
    }
    assert height * width == area;
    PlanesDone(tensor[..], pixels, area);
  }

  method TransformRow(pixels: seq<byte>, tensor: array<real>, width: nat, height: nat, y: nat)
    requires y < height && 3 * (width * height) <= |pixels| && 3 * (width * height) <= tensor.Length
    requires DoneUpTo(tensor[..], pixels, width * height, y * width, 0)
    modifies tensor
    ensures DoneUpTo(tensor[..], pixels, width * height, y * width + width, 0)
    ensures tensor[3 * (width * height)..] == old(tensor[3 * (width * height)..])
  {
    var x, start := 0, y * width;
    RowStart(y, width, height);
    while x < width
      invariant x <= width
      invariant tensor[3 * (width * height)..] == old(tensor[3 * (width * height)..])
      invariant DoneUpTo(tensor[..], pixels, width * height, start + x, 0)
    {
      TransformPixel(pixels, tensor, width * height, start + x);
      x := x + 1;
    }
  }

  lemma RowStart(y: nat, width: nat, height: nat)
    requires y < height
    ensures y * width + width <= width * height
  {
    var rest: nat := height - y - 1;
    ProductNonNegative(rest, width);
    assert rest * width == width * height - y * width - width;
  }

  /** Each planar element is written once, so the interleaved image can be read back from the tensor. */
  lemma ImageRecoverable(t: seq<real>, pixels: seq<byte>, area: nat, k: nat)
    requires area > 0 && k < 3 * area && DoneUpTo(t, pixels, area, area, 0)
    ensures ToPlanar(area, k) < |t| && k < |pixels|
    ensures Denormalize(t[ToPlanar(area, k)], k % 3) == pixels[k] as int as real
  {
    assert Done(t, pixels, area, k / 3, k % 3);
    NormalizeRoundTrip(pixels[k], k % 3);
  }

  // ----- the payload guard of run -----

  /** The product of the positive dimensions. */
  function ElementCount(dims: seq<int64>): nat {
    if dims == [] then 1
    else
      var rest := ElementCount(dims[..|dims| - 1]);
      if dims[|dims| - 1] > 0 then rest * dims[|dims| - 1] else rest
  }

  /** What `run` computes: the product in 64 bits. */
  function CountWord(dims: seq<int64>): nat {
    ElementCount(dims) % TWO_64
  }

  lemma ProductInWords(a: nat, d: nat)
    ensures ((a % TWO_64) * d) % TWO_64 == (a * d) % TWO_64
  {
    var q, r, n := a / TWO_64, a % TWO_64, TWO_64;
    assert a == q * n + r;
    assert a * d == r * d + (q * d) * n;
    SameRemainder(a * d, r * d, n, q * d);
  }

  method CountElements(dims: seq<int64>) returns (count: nat)
    ensures count == CountWord(dims)
  {
    count := 1;
    for i := 0 to |dims|
      invariant count == CountWord(dims[..i])
    {
      assert dims[..i + 1][..i] == dims[..i];
      if dims[i] > 0 {
        ProductInWords(ElementCount(dims[..i]), dims[i]);
        count := (count * dims[i]) % TWO_64;
      }
    }
    assert dims[..|dims|] == dims;
  }

  /** A dimension passed on as size_t. */
  function AsSize(d: int64): nat {
    Unsigned(d)
  }

  /** `transform` reads 3 * height * width bytes and writes as many elements of a buffer of `count` elements. */
  predicate InBounds(dims: seq<int64>, payload: nat)
    requires |dims| == 4
  {
    var touched := 3 * (AsSize(dims[3]) * AsSize(dims[2]));
    touched <= payload && touched <= CountWord(dims)
  }

  /** The payload is short, or covers what `transform` touches. */
  predicate SafePayload(dims: seq<int64>, payload: nat) {
    |dims| == 4 && Addressable(dims) && (payload >= ElementCount(dims) ==> InBounds(dims, payload))
  }

  /** Every payload that the guard lets through keeps `transform` in bounds. */
  ghost predicate GuardWorks(dims: seq<int64>)
    requires |dims| == 4
  {
    forall payload: nat :: payload >= CountWord(dims) ==> InBounds(dims, payload)
  }

  /** A dimension that is not positive is left out of the count. */
  function Counted(d: int64): (k: nat)
    ensures k >= 1
  {
    if d > 0 then d else 1
  }

  lemma CountOfShape(n: int64, c: int64, h: int64, w: int64)
    ensures ElementCount([n, c, h, w]) == (Counted(n) * Counted(c)) * (Counted(h) * Counted(w))
  {
    var dims := [n, c, h, w];
    assert dims[..3] == [n, c, h] && dims[..3][..2] == [n, c] && [n, c][..1] == [n] && [n][..0] == [];
    assert ElementCount([n]) == Counted(n);
    assert ElementCount([n, c]) == Counted(n) * Counted(c);
    assert ElementCount([n, c, h]) == Counted(n) * Counted(c) * Counted(h);
  }

  /** The tensor of the shape has a size in bytes below 2^64. */
  predicate Addressable(dims: seq<int64>) {
    4 * ElementCount(dims) < TWO_64
  }

  /** No pixels at all, or a true area and at least three planes counted for it. */
  predicate Covered(n: int64, c: int64, h: int64, w: int64) {
    h == 0 || w == 0 || (h > 0 && w > 0 && Counted(n) * Counted(c) >= 3)
  }

  lemma PositiveArea(planes: nat, area: nat)
    requires area > 0
    ensures 3 * area <= planes * area <==> planes >= 3
  {
    assert (planes - 3) * area == planes * area - 3 * area;
    Multiples(planes - 3, area);
  }

  /** A negative side is handed to `transform` as at least 2^63 rows or columns. */
  lemma NegativeSide(a: int64, b: int64)
    requires a < 0 && b != 0
    ensures AsSize(a) * AsSize(b) >= TWO_64 / 2
  {
    Multiples(AsSize(b), AsSize(a));
  }

  lemma InBoundsExactlyWhen(n: int64, c: int64, h: int64, w: int64)
    requires Addressable([n, c, h, w])
    ensures InBounds([n, c, h, w], CountWord([n, c, h, w])) <==> Covered(n, c, h, w)
  {
    var dims, area := [n, c, h, w], AsSize(w) * AsSize(h);
    assert CountWord(dims) == ElementCount(dims);
    if h == 0 || w == 0 {
      assert area == 0;
    } else if h < 0 {
      NegativeSide(h, w);
    } else if w < 0 {
      NegativeSide(w, h);
    } else {
      PositiveSides(n, c, h, w);
    }
  }

  lemma PositiveSides(n: int64, c: int64, h: int64, w: int64)
    requires h > 0 && w > 0
    ensures 3 * (AsSize(w) * AsSize(h)) <= ElementCount([n, c, h, w]) <==> Counted(n) * Counted(c) >= 3
  {
    CountOfShape(n, c, h, w);
    assert w * h == h * w > 0;
    PositiveArea(Counted(n) * Counted(c), h * w);
  }

  /**
   The guard keeps every access of `transform` in bounds for every payload it lets through
   exactly when the image is empty, or height and width are positive and the counted batch
   times the counted channels is at least three. So it fails for every dynamic height or
   width, and for a dynamic channel count unless the batch makes up for it.
   */
  lemma GuardWorksExactlyWhen(n: int64, c: int64, h: int64, w: int64)
    requires Addressable([n, c, h, w])
    ensures GuardWorks([n, c, h, w]) <==> Covered(n, c, h, w)
  {
    var dims := [n, c, h, w];
    InBoundsExactlyWhen(n, c, h, w);
    if Covered(n, c, h, w) {
      forall payload: nat | payload >= CountWord(dims) ensures InBounds(dims, payload) {
        assert InBounds(dims, CountWord(dims));
      }
    } else {
      assert !InBounds(dims, CountWord(dims));
    }
  }

  /** Beyond 64 bits the count wraps: for 2^32 by 2^32 pixels it is 0, and the guard lets the empty payload through. */
  lemma WrappedCountAdmitsAll()
    ensures CountWord([1, 3, 0x1_0000_0000, 0x1_0000_0000]) == 0
    ensures !GuardWorks([1, 3, 0x1_0000_0000, 0x1_0000_0000])
  {
    CountOfShape(1, 3, 0x1_0000_0000, 0x1_0000_0000);
    assert !InBounds([1, 3, 0x1_0000_0000, 0x1_0000_0000], 0);
  }

  /**
   The part of `run` before inference: guard, buffer, transform. None is the size-mismatch
   answer. It demands only what memory safety does: a payload that passes the guard must
   cover what `transform` touches.
   */
  method Preprocess(task: InferenceTask, dims: seq<int64>) returns (tensor: Option<array<real>>)
    requires SafePayload(dims, |task.data|)
    ensures tensor.None? <==> |task.data| < ElementCount(dims)
    ensures tensor.Some? ==>
              && tensor.value.Length == ElementCount(dims)
              && Planes(tensor.value[..], task.data, AsSize(dims[3]) * AsSize(dims[2]))
  {
    var count := CountElements(dims);
    SmallCount(dims);
    if |task.data| < count {
      tensor := None;
    } else {
      var buffer := new real[count];
      Transform(task.data, buffer, AsSize(dims[3]), AsSize(dims[2]));
      tensor := Some(buffer);
    }
  }

  lemma SmallCount(dims: seq<int64>)
    requires Addressable(dims)
    ensures CountWord(dims) == ElementCount(dims)
  {
  }
}
