/** StencilFunctor: at every point x of the region it rescales the tensor by
    the inverse spacing, runs Selling's algorithm, and turns each offset e of
    the local stencil into the buffer addresses of x + e and x - e, or into
    the sentinel OutsideBufferIndex when that neighbour is outside the region
    (the Neumann boundary condition). */
module Stencils {
  import opened Tensors
  import opened Selling
  import opened Regions

  /** NumericTraits<InternalSizeT>::max() for a 64-bit InternalSizeT. */
  const OutsideBufferIndex: int := 0xFFFF_FFFF_FFFF_FFFF

  /** The pair the functor returns: 2 K addresses (first), slot s using the
      coefficient second[s / 2] of K coefficients. */
  datatype Stencil = Stencil(first: seq<int>, second: seq<real>)

  /** The tensor as the functor rescales it: D(i, j) = tensor(i, j) inv_i inv_j
      on the stored upper triangle; the cells below the diagonal hold 0.0. */
  function Rescaled(m: Tensor, inv: seq<real>): Tensor
    requires IsTensor(m, |inv|)
  {
    seq(|inv|, i requires 0 <= i < |inv| =>
      seq(|inv|, j requires 0 <= j < |inv| => if i <= j then m[i][j] * inv[i] * inv[j] else 0.0))
  }

  /** The neighbour slot s points at: x + offsets[s / 2] for an even slot,
      x - offsets[s / 2] for an odd one. */
  function Target(x: Vec, offsets: seq<Vec>, s: nat): Vec
    requires s < 2 * |offsets| && |offsets[s / 2]| == |x|
  {
    if s % 2 == 0 then Add(x, offsets[s / 2]) else Sub(x, offsets[s / 2])
  }

  /** The content of a slot whose neighbour is y. */
  function SlotAddress(r: Region, y: Vec): int
    requires WellFormed(r) && |y| == |r.index|
  {
    if IsInside(r, y) then Address(r, y) else OutsideBufferIndex
  }

  predicate OffsetsOfDimension(offsets: seq<Vec>, d: nat)
  {
    forall k :: 0 <= k < |offsets| ==> |offsets[k]| == d
  }

  /** The address table of the stencil at x. */
  function AddressTable(r: Region, x: Vec, offsets: seq<Vec>): seq<int>
    requires WellFormed(r) && |x| == |r.index| && OffsetsOfDimension(offsets, |x|)
  {
    seq(2 * |offsets|, s requires 0 <= s < 2 * |offsets| => SlotAddress(r, Target(x, offsets, s)))
  }

  /** The local stencil of the rescaled tensor at x. */
  function LocalStencilAt(m: Tensor, inv: seq<real>): LocalStencil
    requires IsDimension(|inv|) && IsTensor(m, |inv|)
  {
    RescaledIsTensor(m, inv);
    SellingStencil(Rescaled(m, inv))
  }

  /** A stencil whose 2 K slots are each the sentinel or an index of a buffer of n points. */
  predicate WellAddressed(st: Stencil, n: nat)
  {
    |st.first| == 2 * |st.second|
    && forall s :: 0 <= s < |st.first| ==> st.first[s] == OutsideBufferIndex || 0 <= st.first[s] < n
  }

  /** The stencil the functor returns at the point x of the region r: HalfStencilSize
      coefficients, nonnegative once Selling's loop has stabilised, and twice as
      many slots, each the sentinel or a valid index of the buffer. */
  function StencilAt(r: Region, inv: seq<real>, m: Tensor, x: Vec): (st: Stencil)
    requires WellFormed(r) && IsDimension(|inv|) && IsTensor(m, |inv|) && |x| == |inv| == |r.index|
    ensures |st.second| == HalfStencilSize(|x|) && WellAddressed(st, PixelCount(r))
    ensures LocalStencilAt(m, inv).stabilized ==> forall k :: 0 <= k < |st.second| ==> st.second[k] >= 0.0
  {
    var L := LocalStencilAt(m, inv);
    RescaledIsTensor(m, inv);
    SellingStencilProperties(Rescaled(m, inv));
    AddressTableWellAddressed(r, x, L.offsets);
    Stencil(AddressTable(r, x, L.offsets), L.coefficients)
  }

  lemma RescaledIsTensor(m: Tensor, inv: seq<real>)
    requires IsTensor(m, |inv|)
    ensures IsTensor(Rescaled(m, inv), |inv|)
  {
  }

  // ---------------------------------------------------------------------
  // Properties of the stencil.

  /** A slot holds the sentinel exactly when its neighbour is outside the
      region; otherwise it holds the neighbour's address, a valid index of
      the buffer. */
  lemma SlotAddressProperties(r: Region, y: Vec)
    requires WellFormed(r) && |y| == |r.index| && PixelCount(r) <= OutsideBufferIndex
    ensures SlotAddress(r, y) == OutsideBufferIndex <==> !IsInside(r, y)
    ensures SlotAddress(r, y) != OutsideBufferIndex ==>
              0 <= SlotAddress(r, y) < PixelCount(r) && RegionPoint(r, SlotAddress(r, y)) == y
  {
    if IsInside(r, y) {
      AddressOfPoint(r, y);
    }
  }

  /** Slot s of the address table at x: the sentinel exactly when its
      neighbour is outside the region, otherwise the neighbour's address. */
  lemma AddressTableProperties(r: Region, x: Vec, offsets: seq<Vec>, s: nat)
    requires WellFormed(r) && |x| == |r.index| && OffsetsOfDimension(offsets, |x|)
    requires PixelCount(r) <= OutsideBufferIndex && s < 2 * |offsets|
    ensures |AddressTable(r, x, offsets)| == 2 * |offsets|
    ensures AddressTable(r, x, offsets)[s] == OutsideBufferIndex <==> !IsInside(r, Target(x, offsets, s))
    ensures AddressTable(r, x, offsets)[s] != OutsideBufferIndex ==>
              0 <= AddressTable(r, x, offsets)[s] < PixelCount(r) &&
              RegionPoint(r, AddressTable(r, x, offsets)[s]) == Target(x, offsets, s)
  {
    SlotAddressProperties(r, Target(x, offsets, s));
  }

  /** Every slot of the address table is the sentinel or a valid index of
      the buffer. */
  lemma AddressTableWellAddressed(r: Region, x: Vec, offsets: seq<Vec>)
    requires WellFormed(r) && |x| == |r.index| && OffsetsOfDimension(offsets, |x|)
    ensures forall s :: 0 <= s < |AddressTable(r, x, offsets)| ==>
              AddressTable(r, x, offsets)[s] == OutsideBufferIndex || 0 <= AddressTable(r, x, offsets)[s] < PixelCount(r)
  {
    forall s | 0 <= s < |AddressTable(r, x, offsets)|
      ensures AddressTable(r, x, offsets)[s] == OutsideBufferIndex || 0 <= AddressTable(r, x, offsets)[s] < PixelCount(r)
    {
      var y := Target(x, offsets, s);
      if IsInside(r, y) {
        AddressBounds(r, y);
      }
    }
  }

  // ---------------------------------------------------------------------
  // The rescaling on a grid of uniform spacing h multiplies the metric by 1 / h^2.

  function Uniform(d: nat, c: real): seq<real>
  {
    seq(d, _ => c)
  }

  /** The upper triangle of r is cc times that of m. */
  predicate ScaledBy(r: Tensor, m: Tensor, cc: real, d: nat)
    requires IsTensor(r, d) && IsTensor(m, d)
  {
    forall i, j :: 0 <= i <= j < d ==> r[i][j] == cc * m[i][j]
  }

  lemma ScaledTerm(x: real, cc: real, w: real)
    ensures (cc * x) * w == cc * (x * w)
  {
  }

  lemma ScaledSum(s: real, t: real, a: real, b: real, cc: real)
    requires s == cc * t && a == cc * b
    ensures s + a == cc * (t + b)
  {
  }

  lemma {:induction false} ScaledDiagonalTerms(r: Tensor, m: Tensor, cc: real, u: Vec, v: Vec, n: nat)
    requires IsTensor(r, |u|) && IsTensor(m, |u|) && ScaledBy(r, m, cc, |u|) && |v| == |u| && n <= |u|
    ensures DiagonalTerms(r, u, v, n) == cc * DiagonalTerms(m, u, v, n)
  {
    if n > 0 {
      ScaledDiagonalTerms(r, m, cc, u, v, n - 1);
      var x, w := m[n - 1][n - 1], (u[n - 1] as real) * (v[n - 1] as real);
      assert r[n - 1][n - 1] == cc * x;
      ScaledTerm(x, cc, w);
      assert r[n - 1][n - 1] * (u[n - 1] as real) * (v[n - 1] as real) == (cc * x) * w;
      assert x * (u[n - 1] as real) * (v[n - 1] as real) == x * w;
      ScaledSum(DiagonalTerms(r, u, v, n - 1), DiagonalTerms(m, u, v, n - 1), (cc * x) * w, x * w, cc);
    }
  }

  lemma {:induction false} ScaledColumnCross(r: Tensor, m: Tensor, cc: real, u: Vec, v: Vec, j: nat, k: nat)
    requires IsTensor(r, |u|) && IsTensor(m, |u|) && ScaledBy(r, m, cc, |u|) && |v| == |u| && k <= j < |u|
    ensures ColumnCross(r, u, v, j, k) == cc * ColumnCross(m, u, v, j, k)
  {
    if k > 0 {
      ScaledColumnCross(r, m, cc, u, v, j, k - 1);
      var x, w := m[k - 1][j], (u[k - 1] as real) * (v[j] as real) + (u[j] as real) * (v[k - 1] as real);
      assert r[k - 1][j] == cc * x;
      ScaledTerm(x, cc, w);
      ScaledSum(ColumnCross(r, u, v, j, k - 1), ColumnCross(m, u, v, j, k - 1), (cc * x) * w, x * w, cc);
    }
  }

  lemma {:induction false} ScaledCrossTerms(r: Tensor, m: Tensor, cc: real, u: Vec, v: Vec, n: nat)
    requires IsTensor(r, |u|) && IsTensor(m, |u|) && ScaledBy(r, m, cc, |u|) && |v| == |u| && n <= |u|
    ensures CrossTerms(r, u, v, n) == cc * CrossTerms(m, u, v, n)
  {
    if n > 0 {
      ScaledCrossTerms(r, m, cc, u, v, n - 1);
      ScaledColumnCross(r, m, cc, u, v, n - 1, n - 1);
      ScaledSum(CrossTerms(r, u, v, n - 1), CrossTerms(m, u, v, n - 1),
                ColumnCross(r, u, v, n - 1, n - 1), ColumnCross(m, u, v, n - 1, n - 1), cc);
    }
  }

  /** With every inverse spacing equal to c, the rescaled tensor is c^2 times the original. */
  lemma RescaledUniform(m: Tensor, c: real, d: nat)
    requires IsTensor(m, d)
    ensures IsTensor(Rescaled(m, Uniform(d, c)), d) && ScaledBy(Rescaled(m, Uniform(d, c)), m, c * c, d)
  {
    var r := Rescaled(m, Uniform(d, c));
    forall i, j | 0 <= i <= j < d
      ensures r[i][j] == (c * c) * m[i][j]
    {
      assert r[i][j] == m[i][j] * c * c;
    }
  }

  /** With every inverse spacing equal to c, the rescaled scalar product is
      c^2 times the original one. */
  lemma RescaledScalarProduct(m: Tensor, c: real, u: Vec, v: Vec)
    requires IsTensor(m, |u|) && |v| == |u|
    ensures ScalarProduct(Rescaled(m, Uniform(|u|, c)), u, v) == c * c * ScalarProduct(m, u, v)
  {
    var r := Rescaled(m, Uniform(|u|, c));
    RescaledUniform(m, c, |u|);
    ScaledDiagonalTerms(r, m, c * c, u, v, |u|);
    ScaledCrossTerms(r, m, c * c, u, v, |u|);
    ScaledSum(DiagonalTerms(r, u, v, |u|), DiagonalTerms(m, u, v, |u|),
              CrossTerms(r, u, v, |u|), CrossTerms(m, u, v, |u|), c * c);
  }

  // ---------------------------------------------------------------------

  /** The inverse grid spacing, 1 / spacing[i] on every axis. */
  function Inverses(spacing: seq<real>): (inv: seq<real>)
    requires forall i :: 0 <= i < |spacing| ==> spacing[i] != 0.0
    ensures |inv| == |spacing| && forall i :: 0 <= i < |spacing| ==> inv[i] * spacing[i] == 1.0
  {
    seq(|spacing|, i requires 0 <= i < |spacing| => 1.0 / spacing[i])
  }

  /** The functor: the region, its strides and the inverse spacing. */
  class StencilFunctor {
    var region: Region
    var prod: seq<int>
    var invSpacing: seq<real>

    predicate Valid()
      reads this
    {
      WellFormed(region) && IsDimension(|region.size|) && prod == Strides(region.size)
      && |invSpacing| == |region.size|
    }

    /** A functor not yet initialized: no region, no strides, no spacing. */
    constructor ()
      ensures region == Region([], []) && prod == [] && invSpacing == []
    {
      region := Region([], []);
      prod := [];
      invSpacing := [];
    }

    /** Stores the region, computes the strides prod and the inverse spacing. */
    method Initialize(region_: Region, spacing: seq<real>)
      requires WellFormed(region_) && IsDimension(|region_.size|) && |spacing| == |region_.size|
      requires forall i :: 0 <= i < |spacing| ==> spacing[i] != 0.0
      modifies this
      ensures Valid() && region == region_ && invSpacing == Inverses(spacing)
    {
      region := region_;
      var d := |region.size|;
      prod := [1];
      for i := 1 to d
        invariant region == region_
        invariant |prod| == i && forall k :: 0 <= k < i ==> prod[k] == Product(region.size, k)
      {
        prod := prod + [prod[i - 1] * region.size[i - 1]];
      }
      invSpacing := [];
      for i := 0 to d
        invariant region == region_ && prod == Strides(region.size)
        invariant invSpacing == Inverses(spacing)[..i]
      {
        invSpacing := invSpacing + [1.0 / spacing[i]];
      }
    }

    /** The linear address of x: inside the region it is the position of x
        in the scan order, a number in [0, PixelCount). */
    function BufferIndex(x: Vec): (a: int)
      reads this
      requires Valid() && |x| == |region.index|
      ensures IsInside(region, x) ==> 0 <= a < PixelCount(region) && RegionPoint(region, a) == x
    {
      if IsInside(region, x) then AddressOfPoint(region, x); LinearOffset(prod, region.index, x, |x|)
      else LinearOffset(prod, region.index, x, |x|)
    }

    /** operator(): the stencil at the point x for the tensor found there. */
    method Apply(tensor: Tensor, x: Vec) returns (stencil: Stencil, stabilized: bool)
      requires Valid() && IsTensor(tensor, |region.size|) && |x| == |region.size|
      ensures stencil == StencilAt(region, invSpacing, tensor, x)
      ensures stabilized == LocalStencilAt(tensor, invSpacing).stabilized
    {
      var D := Rescale(tensor);
      var offsets, coefficients;
      if |x| == 2 {
        offsets, coefficients, stabilized := Stencil2(D);
      } else {
        offsets, coefficients, stabilized := Stencil3(D);
      }
      SellingStencilProperties(D);
      var first := Addresses(x, offsets);
      stencil := Stencil(first, coefficients);
    }

    /** The rescaling loop of operator(): D(i, j) = tensor(i, j) inv_i inv_j for i <= j. */
    method Rescale(tensor: Tensor) returns (D: Tensor)
      requires Valid() && IsTensor(tensor, |region.size|)
      ensures D == Rescaled(tensor, invSpacing)
    {
      var d := |region.size|;
      ghost var R := Rescaled(tensor, invSpacing);
      D := [];
      for i := 0 to d
        invariant |D| == i && forall a :: 0 <= a < i ==> D[a] == R[a]
      {
        var row: seq<real> := seq(i, _ => 0.0);
        for j := i to d
          invariant |row| == j && forall b :: 0 <= b < j ==> row[b] == R[i][b]
        {
          row := row + [tensor[i][j] * invSpacing[i] * invSpacing[j]];
        }
        D := D + [row];
      }
    }

    /** The yIndex loop of operator(): slot 2 i, then slot 2 i + 1, of every offset. */
    method Addresses(x: Vec, offsets: seq<Vec>) returns (first: seq<int>)
      requires Valid() && |x| == |region.size| && OffsetsOfDimension(offsets, |x|)
      ensures first == AddressTable(region, x, offsets)
    {
      ghost var table := AddressTable(region, x, offsets);
      first := [];
      for i := 0 to |offsets|
        invariant first == table[..2 * i]
      {
        for orientation := 0 to 2
          invariant first == table[..2 * i + orientation]
        {
          var s := 2 * i + orientation;
          assert s / 2 == i && s % 2 == orientation;
          var y := if orientation == 1 then Sub(x, offsets[i]) else Add(x, offsets[i]);
          assert y == Target(x, offsets, s);
          if IsInside(region, y) {
            first := first + [BufferIndex(y)];
          } else {
            first := first + [OutsideBufferIndex];
          }
          assert table[..s + 1] == table[..s] + [table[s]];
        }
      }
      assert first == table;
    }
  }
}
