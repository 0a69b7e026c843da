/** Integer lattice vectors, symmetric tensors and the bilinear form
    ScalarProduct(m, u, v) = <m u, v> that Selling's algorithm evaluates. */
module Tensors {

  /** An integer vector of Z^d: a superbase vector or a grid offset. */
  type Vec = seq<int>

  /** A symmetric tensor of dimension |m|, held as a square matrix of which,
      as in itk::SymmetricSecondRankTensor, only the upper triangle (i <= j)
      is storage: the entry (i, j) with i > j is read at (j, i). */
  type Tensor = seq<seq<real>>

  predicate IsTensor(m: Tensor, d: nat)
  {
    |m| == d && forall i :: 0 <= i < d ==> |m[i]| == d
  }

  /** Entry (i, j) of the symmetric tensor, read from its storage. */
  function At(m: Tensor, i: nat, j: nat): real
    requires IsTensor(m, |m|) && i < |m| && j < |m|
  {
    if i <= j then m[i][j] else m[j][i]
  }

  function Add(a: Vec, b: Vec): Vec
    requires |a| == |b|
  {
    seq(|a|, k requires 0 <= k < |a| => a[k] + b[k])
  }

  function Sub(a: Vec, b: Vec): Vec
    requires |a| == |b|
  {
    seq(|a|, k requires 0 <= k < |a| => a[k] - b[k])
  }

  function Neg(a: Vec): Vec
  {
    seq(|a|, k requires 0 <= k < |a| => -a[k])
  }

  // ---------------------------------------------------------------------
  // ScalarProduct: the diagonal terms m(i,i) u_i v_i plus, for every i < j,
  // the cross terms m(i,j) (u_i v_j + u_j v_i).

  /** Sum over i < n of m(i,i) u_i v_i. */
  function DiagonalTerms(m: Tensor, u: Vec, v: Vec, n: nat): real
    requires IsTensor(m, |u|) && |v| == |u| && n <= |u|
  {
    if n == 0 then 0.0
    else DiagonalTerms(m, u, v, n - 1) + m[n - 1][n - 1] * (u[n - 1] as real) * (v[n - 1] as real)
  }

  /** Sum over i < k of m(i,j) (u_i v_j + u_j v_i): the cross terms of column j
      of the upper triangle. */
  function ColumnCross(m: Tensor, u: Vec, v: Vec, j: nat, k: nat): real
    requires IsTensor(m, |u|) && |v| == |u| && k <= j < |u|
  {
    if k == 0 then 0.0
    else ColumnCross(m, u, v, j, k - 1)
         + m[k - 1][j] * ((u[k - 1] as real) * (v[j] as real) + (u[j] as real) * (v[k - 1] as real))
  }

  /** Sum over i < j < n of m(i,j) (u_i v_j + u_j v_i). */
  function CrossTerms(m: Tensor, u: Vec, v: Vec, n: nat): real
    requires IsTensor(m, |u|) && |v| == |u| && n <= |u|
  {
    if n == 0 then 0.0 else CrossTerms(m, u, v, n - 1) + ColumnCross(m, u, v, n - 1, n - 1)
  }

  /** <m u, v> for the symmetric tensor m, reading only its upper triangle. */
  function ScalarProduct(m: Tensor, u: Vec, v: Vec): real
    requires IsTensor(m, |u|) && |v| == |u|
  {
    DiagonalTerms(m, u, v, |u|) + CrossTerms(m, u, v, |u|)
  }

  // ---------------------------------------------------------------------
  // Reference definition: the full double sum u^T m v = sum_i sum_j m(i,j) u_i v_j.

  /** Sum over j < n of m(i,j) u_i v_j. */
  function RowTerms(m: Tensor, u: Vec, v: Vec, i: nat, n: nat): real
    requires IsTensor(m, |u|) && |v| == |u| && i < |u| && n <= |u|
  {
    if n == 0 then 0.0 else RowTerms(m, u, v, i, n - 1) + At(m, i, n - 1) * (u[i] as real) * (v[n - 1] as real)
  }

  /** Sum over i < k, j < n of m(i,j) u_i v_j. */
  function BlockTerms(m: Tensor, u: Vec, v: Vec, k: nat, n: nat): real
    requires IsTensor(m, |u|) && |v| == |u| && k <= |u| && n <= |u|
  {
    if k == 0 then 0.0 else BlockTerms(m, u, v, k - 1, n) + RowTerms(m, u, v, k - 1, n)
  }

  /** Sum over i < k of m(i,n) u_i v_n. */
  function ColumnTerms(m: Tensor, u: Vec, v: Vec, k: nat, n: nat): real
    requires IsTensor(m, |u|) && |v| == |u| && k <= |u| && n < |u|
  {
    if k == 0 then 0.0 else ColumnTerms(m, u, v, k - 1, n) + At(m, k - 1, n) * (u[k - 1] as real) * (v[n] as real)
  }

  /** u^T m v over the whole matrix. */
  function Bilinear(m: Tensor, u: Vec, v: Vec): real
    requires IsTensor(m, |u|) && |v| == |u|
  {
    BlockTerms(m, u, v, |u|, |u|)
  }

  lemma {:induction false} BlockExtendColumn(m: Tensor, u: Vec, v: Vec, k: nat, n: nat)
    requires IsTensor(m, |u|) && |v| == |u| && k <= |u| && n < |u|
    ensures BlockTerms(m, u, v, k, n + 1) == BlockTerms(m, u, v, k, n) + ColumnTerms(m, u, v, k, n)
  {
    if k > 0 {
      BlockExtendColumn(m, u, v, k - 1, n);
    }
  }

  lemma {:induction false} ColumnAndRowCross(m: Tensor, u: Vec, v: Vec, k: nat, n: nat)
    requires IsTensor(m, |u|) && |v| == |u| && k <= n < |u|
    ensures ColumnTerms(m, u, v, k, n) + RowTerms(m, u, v, n, k) == ColumnCross(m, u, v, n, k)
  {
    if k > 0 {
      ColumnAndRowCross(m, u, v, k - 1, n);
      var a, b, c, e := u[k - 1] as real, v[n] as real, u[n] as real, v[k - 1] as real;
      assert At(m, k - 1, n) == m[k - 1][n] && At(m, n, k - 1) == m[k - 1][n];
      assert m[k - 1][n] * a * b + m[k - 1][n] * c * e == m[k - 1][n] * (a * b + c * e);
    }
  }

  lemma {:induction false} LeadingBlock(m: Tensor, u: Vec, v: Vec, n: nat)
    requires IsTensor(m, |u|) && |v| == |u| && n <= |u|
    ensures DiagonalTerms(m, u, v, n) + CrossTerms(m, u, v, n) == BlockTerms(m, u, v, n, n)
  {
    if n > 0 {
      var p := n - 1;
      LeadingBlock(m, u, v, p);
      BlockExtendColumn(m, u, v, p, p);
      ColumnAndRowCross(m, u, v, p, p);
      assert BlockTerms(m, u, v, n, n) == BlockTerms(m, u, v, p, n) + RowTerms(m, u, v, p, n);
      assert RowTerms(m, u, v, p, n) == RowTerms(m, u, v, p, p) + m[p][p] * (u[p] as real) * (v[p] as real);
    }
  }

  /** ScalarProduct is the bilinear form u^T m v of the symmetric matrix m. */
  lemma ScalarProductIsBilinear(m: Tensor, u: Vec, v: Vec)
    requires IsTensor(m, |u|) && |v| == |u|
    ensures ScalarProduct(m, u, v) == Bilinear(m, u, v)
  {
    LeadingBlock(m, u, v, |u|);
  }

  lemma {:induction false} DiagonalTermsSymmetric(m: Tensor, u: Vec, v: Vec, n: nat)
    requires IsTensor(m, |u|) && |v| == |u| && n <= |u|
    ensures DiagonalTerms(m, u, v, n) == DiagonalTerms(m, v, u, n)
  {
    if n > 0 {
      DiagonalTermsSymmetric(m, u, v, n - 1);
    }
  }

  lemma {:induction false} ColumnCrossSymmetric(m: Tensor, u: Vec, v: Vec, j: nat, k: nat)
    requires IsTensor(m, |u|) && |v| == |u| && k <= j < |u|
    ensures ColumnCross(m, u, v, j, k) == ColumnCross(m, v, u, j, k)
  {
    if k > 0 {
      ColumnCrossSymmetric(m, u, v, j, k - 1);
    }
  }

  lemma {:induction false} CrossTermsSymmetric(m: Tensor, u: Vec, v: Vec, n: nat)
    requires IsTensor(m, |u|) && |v| == |u| && n <= |u|
    ensures CrossTerms(m, u, v, n) == CrossTerms(m, v, u, n)
  {
    if n > 0 {
      CrossTermsSymmetric(m, u, v, n - 1);
      ColumnCrossSymmetric(m, u, v, n - 1, n - 1);
    }
  }

  /** <m u, v> == <m v, u>: the 3D stencil relies on it when it reads the
      weight (i, 3) that was written as (3, i). */
  lemma ScalarProductSymmetric(m: Tensor, u: Vec, v: Vec)
    requires IsTensor(m, |u|) && |v| == |u|
    ensures ScalarProduct(m, u, v) == ScalarProduct(m, v, u)
  {
    DiagonalTermsSymmetric(m, u, v, |u|);
    CrossTermsSymmetric(m, u, v, |u|);
  }

  /** ScalarProduct written out in dimension 2. */
  lemma ScalarProduct2(m: Tensor, u: Vec, v: Vec)
    requires IsTensor(m, 2) && |u| == 2 && |v| == 2
    ensures ScalarProduct(m, u, v) ==
            m[0][0] * (u[0] as real) * (v[0] as real) + m[1][1] * (u[1] as real) * (v[1] as real)
            + m[0][1] * ((u[0] as real) * (v[1] as real) + (u[1] as real) * (v[0] as real))
  {
    assert DiagonalTerms(m, u, v, 1) == m[0][0] * (u[0] as real) * (v[0] as real);
    assert CrossTerms(m, u, v, 1) == 0.0;
    assert ColumnCross(m, u, v, 1, 1) == m[0][1] * ((u[0] as real) * (v[1] as real) + (u[1] as real) * (v[0] as real));
  }

  /** ScalarProduct written out in dimension 3. */
  lemma ScalarProduct3(m: Tensor, u: Vec, v: Vec)
    requires IsTensor(m, 3) && |u| == 3 && |v| == 3
    ensures ScalarProduct(m, u, v) ==
            m[0][0] * (u[0] as real) * (v[0] as real) + m[1][1] * (u[1] as real) * (v[1] as real)
            + m[2][2] * (u[2] as real) * (v[2] as real)
            + m[0][1] * ((u[0] as real) * (v[1] as real) + (u[1] as real) * (v[0] as real))
            + m[0][2] * ((u[0] as real) * (v[2] as real) + (u[2] as real) * (v[0] as real))
            + m[1][2] * ((u[1] as real) * (v[2] as real) + (u[2] as real) * (v[1] as real))
  {
    assert DiagonalTerms(m, u, v, 1) == m[0][0] * (u[0] as real) * (v[0] as real);
    assert DiagonalTerms(m, u, v, 2) == DiagonalTerms(m, u, v, 1) + m[1][1] * (u[1] as real) * (v[1] as real);
    assert CrossTerms(m, u, v, 1) == 0.0;
    assert ColumnCross(m, u, v, 1, 1) == m[0][1] * ((u[0] as real) * (v[1] as real) + (u[1] as real) * (v[0] as real));
    assert ColumnCross(m, u, v, 2, 1) == m[0][2] * ((u[0] as real) * (v[2] as real) + (u[2] as real) * (v[0] as real));
    assert ColumnCross(m, u, v, 2, 2) == ColumnCross(m, u, v, 2, 1)
           + m[1][2] * ((u[1] as real) * (v[2] as real) + (u[2] as real) * (v[1] as real));
    assert CrossTerms(m, u, v, 2) == ColumnCross(m, u, v, 1, 1);
    assert CrossTerms(m, u, v, 3) == CrossTerms(m, u, v, 2) + ColumnCross(m, u, v, 2, 2);
    assert DiagonalTerms(m, u, v, 3) == DiagonalTerms(m, u, v, 2) + m[2][2] * (u[2] as real) * (v[2] as real);
  }
}
