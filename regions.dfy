/** Image regions (the boxes of itk::ImageRegion) and the linear buffer
    address StencilFunctor::BufferIndex gives to the points of a region:
    prod[0] = 1, prod[i] = prod[i-1] * size[i-1], and
    BufferIndex(x) = sum over i of prod[i] * (x[i] - index[i]). */
module Regions {
  import opened Tensors

  /** The box of the points y with index[i] <= y[i] < index[i] + size[i]. */
  datatype Region = Region(index: Vec, size: seq<nat>)

  predicate WellFormed(r: Region)
  {
    |r.index| == |r.size|
  }

  /** itk::ImageRegion::IsInside. */
  predicate IsInside(r: Region, y: Vec)
  {
    |y| == |r.index| == |r.size|
    && forall i :: 0 <= i < |y| ==> r.index[i] <= y[i] < r.index[i] + r.size[i]
  }

  /** size[0] * ... * size[n-1]. */
  function Product(size: seq<nat>, n: nat): nat
    requires n <= |size|
  {
    if n == 0 then 1 else Product(size, n - 1) * size[n - 1]
  }

  /** The number of points of the region. */
  function PixelCount(r: Region): nat
  {
    Product(r.size, |r.size|)
  }

  /** The strides prod[i] = size[0] * ... * size[i-1]. */
  function Strides(size: seq<nat>): seq<int>
  {
    seq(|size|, i requires 0 <= i < |size| => Product(size, i))
  }

  /** The sum over i < n of prod[i] * (x[i] - origin[i]). */
  function LinearOffset(prod: seq<int>, origin: Vec, x: Vec, n: nat): int
    requires n <= |prod| && n <= |origin| && n <= |x|
  {
    if n == 0 then 0 else LinearOffset(prod, origin, x, n - 1) + prod[n - 1] * (x[n - 1] - origin[n - 1])
  }

  /** The linear address of the point x with the strides of the region. */
  function Address(r: Region, x: Vec): int
    requires WellFormed(r) && |x| == |r.index|
  {
    LinearOffset(Strides(r.size), r.index, x, |x|)
  }

  /** Digit i of k in the mixed radix of the sizes. */
  function Digit(size: seq<nat>, k: nat, i: nat): nat
    requires i < |size|
  {
    if size[i] == 0 || Product(size, i) == 0 then 0 else (k / Product(size, i)) % size[i]
  }

  /** The k-th point a region iterator visits, the first coordinate running fastest. */
  function RegionPoint(r: Region, k: nat): Vec
    requires WellFormed(r)
  {
    seq(|r.size|, i requires 0 <= i < |r.size| => r.index[i] + Digit(r.size, k, i))
  }

  // ---------------------------------------------------------------------
  // Arithmetic of the mixed radix.

  /** a + p c stays below p s when a is a digit of radix p and c one of radix s. */
  lemma MixedRadixBound(a: int, p: int, c: int, s: int)
    requires 0 <= a < p && 0 <= c < s
    ensures 0 <= a + p * c < p * s
  {
    assert p * c <= p * (s - 1);
  }

  /** Writing a number as a + p c with a digit a of radix p is unique. */
  lemma MixedRadixUnique(a: int, b: int, p: int, c: int, e: int)
    requires 0 <= a < p && 0 <= b < p && a + p * c == b + p * e
    ensures a == b && c == e
  {
    var d := c - e;
    assert p * c == p * e + p * d;
    assert p * d == b - a;
    if d > 0 {
      PositiveMultiple(p, d);
    } else if d < 0 {
      PositiveMultiple(p, -d);
    }
  }

  lemma PositiveMultiple(p: int, d: int)
    requires p > 0 && d >= 1
    ensures p * d >= p
  {
    assert p * d == p + p * (d - 1);
  }

  /** The remainder modulo p s, written in the radices p and s. */
  lemma ModProduct(k: nat, p: nat, s: nat)
    requires p > 0 && s > 0
    ensures k % (p * s) == k % p + p * ((k / p) % s)
  {
    var q, a := k / p, k % p;
    var t, b := q / s, q % s;
    assert k == p * q + a;
    assert q == s * t + b;
    assert p * q == (p * s) * t + p * b by {
      assert p * (s * t + b) == p * (s * t) + p * b;
    }
    MixedRadixBound(a, p, b, s);
    var m := p * s;
    assert k == m * (k / m) + k % m;
    assert 0 <= k % m < m;
    MixedRadixUnique(k % m, a + p * b, m, k / m, t);
  }

  lemma {:induction false} ProductPositive(size: seq<nat>, n: nat)
    requires n <= |size| && Product(size, |size|) > 0
    ensures Product(size, n) > 0
    ensures n < |size| ==> size[n] > 0
    decreases |size| - n
  {
    if n < |size| {
      ProductPositive(size, n + 1);
      assert Product(size, n + 1) == Product(size, n) * size[n];
    }
  }

  lemma DigitBound(size: seq<nat>, k: nat, i: nat)
    requires i < |size| && Product(size, |size|) > 0
    ensures 0 <= Digit(size, k, i) < size[i]
  {
    ProductPositive(size, i);
  }

  // ---------------------------------------------------------------------
  // BufferIndex maps the region one-to-one onto [0, PixelCount).

  lemma {:induction false} OffsetBounds(r: Region, x: Vec, n: nat)
    requires IsInside(r, x) && n <= |x|
    ensures 0 <= LinearOffset(Strides(r.size), r.index, x, n) < Product(r.size, n)
  {
    if n > 0 {
      OffsetBounds(r, x, n - 1);
      MixedRadixBound(LinearOffset(Strides(r.size), r.index, x, n - 1), Product(r.size, n - 1),
                      x[n - 1] - r.index[n - 1], r.size[n - 1]);
    }
  }

  /** The address of a point of the region lies in [0, PixelCount). */
  lemma AddressBounds(r: Region, x: Vec)
    requires IsInside(r, x)
    ensures 0 <= Address(r, x) < PixelCount(r)
  {
    OffsetBounds(r, x, |x|);
  }

  lemma {:induction false} OffsetInjective(r: Region, x: Vec, y: Vec, n: nat)
    requires IsInside(r, x) && IsInside(r, y) && n <= |x|
    requires LinearOffset(Strides(r.size), r.index, x, n) == LinearOffset(Strides(r.size), r.index, y, n)
    ensures x[..n] == y[..n]
  {
    if n > 0 {
      var m := n - 1;
      OffsetBounds(r, x, m);
      OffsetBounds(r, y, m);
      MixedRadixUnique(LinearOffset(Strides(r.size), r.index, x, m), LinearOffset(Strides(r.size), r.index, y, m),
                       Product(r.size, m), x[m] - r.index[m], y[m] - r.index[m]);
      OffsetInjective(r, x, y, m);
      assert x[..n] == x[..m] + [x[m]];
      assert y[..n] == y[..m] + [y[m]];
    }
  }

  /** Two points of the region with the same address are the same point. */
  lemma AddressInjective(r: Region, x: Vec, y: Vec)
    requires IsInside(r, x) && IsInside(r, y) && Address(r, x) == Address(r, y)
    ensures x == y
  {
    OffsetInjective(r, x, y, |x|);
    assert x == x[..|x|] && y == y[..|y|];
  }

  lemma {:induction false} PointOffset(r: Region, k: nat, n: nat)
    requires WellFormed(r) && k < PixelCount(r) && n <= |r.size| && Product(r.size, n) > 0
    ensures LinearOffset(Strides(r.size), r.index, RegionPoint(r, k), n) == k % Product(r.size, n)
  {
    if n > 0 {
      var m := n - 1;
      PointOffset(r, k, m);
      ProductPositive(r.size, m);
      ModProduct(k, Product(r.size, m), r.size[m]);
      assert RegionPoint(r, k)[m] - r.index[m] == (k / Product(r.size, m)) % r.size[m];
    }
  }

  /** The k-th point of the scan lies in the region and has address k. */
  lemma RegionPointAddress(r: Region, k: nat)
    requires WellFormed(r) && k < PixelCount(r)
    ensures IsInside(r, RegionPoint(r, k))
    ensures Address(r, RegionPoint(r, k)) == k
  {
    var y := RegionPoint(r, k);
    forall i | 0 <= i < |y|
      ensures r.index[i] <= y[i] < r.index[i] + r.size[i]
    {
      DigitBound(r.size, k, i);
    }
    PointOffset(r, k, |r.size|);
    SmallRemainder(k, PixelCount(r));
  }

  lemma SmallRemainder(k: nat, m: nat)
    requires k < m
    ensures k % m == k
  {
    MixedRadixUnique(k % m, k, m, k / m, 0);
  }

  /** Every point of the region is the scan point of its own address, so the
      scan order and the address order are the same. */
  lemma AddressOfPoint(r: Region, x: Vec)
    requires IsInside(r, x)
    ensures 0 <= Address(r, x) < PixelCount(r)
    ensures RegionPoint(r, Address(r, x)) == x
  {
    AddressBounds(r, x);
    var k := Address(r, x);
    RegionPointAddress(r, k);
    AddressInjective(r, RegionPoint(r, k), x);
  }
}
