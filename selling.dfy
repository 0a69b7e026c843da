/** Selling's algorithm: reduction of a superbase of Z^d (d = 2 or 3) until it
    is obtuse for a tensor D, and the stencil (integer offsets and
    nonnegative coefficients) read off from the reduced superbase. */
module Selling {
  import opened Tensors

  /** The iteration bound of the reduction loop. */
  const MaxIter: nat := 200

  datatype Option<T> = None | Some(value: T)

  /** A pair of superbase slots (i, j) with j < i. */
  datatype Pair = Pair(i: nat, j: nat)

  /** The outcome of the reduction: the last superbase, whether a full scan
      found it obtuse, and how many exchanges were made. */
  datatype Reduction = Reduction(superbase: seq<Vec>, stabilized: bool, exchanges: nat)

  /** The offsets, coefficients and stabilisation flag of one local stencil. */
  datatype LocalStencil = LocalStencil(offsets: seq<Vec>, coefficients: seq<real>, stabilized: bool)

  predicate IsDimension(d: nat)
  {
    d == 2 || d == 3
  }

  /** Number of stencil offsets (and coefficients): 3 in 2D, 6 in 3D. */
  function HalfStencilSize(d: nat): nat
  {
    if d == 2 then 3 else 6
  }

  // ---------------------------------------------------------------------
  // Superbases

  /** d + 1 vectors of dimension d. */
  predicate Shaped(sb: seq<Vec>, d: nat)
  {
    |sb| == d + 1 && forall k :: 0 <= k < |sb| ==> |sb[k]| == d
  }

  /** Sum over k < n of sb[k][c]. */
  function ColumnSum(sb: seq<Vec>, c: nat, n: nat): int
    requires n <= |sb| && forall k :: 0 <= k < |sb| ==> c < |sb[k]|
  {
    if n == 0 then 0 else ColumnSum(sb, c, n - 1) + sb[n - 1][c]
  }

  predicate ZeroSum(sb: seq<Vec>, d: nat)
    requires Shaped(sb, d)
  {
    forall c :: 0 <= c < d ==> ColumnSum(sb, c, |sb|) == 0
  }

  function Det2(a: Vec, b: Vec): int
    requires |a| == 2 && |b| == 2
  {
    a[0] * b[1] - a[1] * b[0]
  }

  function Det3(a: Vec, b: Vec, c: Vec): int
    requires |a| == 3 && |b| == 3 && |c| == 3
  {
    a[0] * (b[1] * c[2] - b[2] * c[1])
    - a[1] * (b[0] * c[2] - b[2] * c[0])
    + a[2] * (b[0] * c[1] - b[1] * c[0])
  }

  /** The first d vectors form a basis of the lattice Z^d (determinant +1 or -1). */
  predicate Unimodular(sb: seq<Vec>, d: nat)
    requires IsDimension(d) && Shaped(sb, d)
  {
    if d == 2 then Det2(sb[0], sb[1]) == 1 || Det2(sb[0], sb[1]) == -1
    else Det3(sb[0], sb[1], sb[2]) == 1 || Det3(sb[0], sb[1], sb[2]) == -1
  }

  /** A superbase of Z^d: d + 1 integer vectors that sum to zero, any d of
      which form a basis of the lattice. */
  predicate IsSuperbase(sb: seq<Vec>, d: nat)
  {
    IsDimension(d) && Shaped(sb, d) && ZeroSum(sb, d) && Unimodular(sb, d)
  }

  /** The i-th unit vector of Z^d. */
  function Unit(d: nat, i: nat): Vec
  {
    seq(d, j => if i == j then 1 else 0)
  }

  /** e_0, ..., e_{d-1} and their negated sum (-1, ..., -1). */
  function InitialSuperbase(d: nat): seq<Vec>
  {
    seq(d, i requires 0 <= i < d => Unit(d, i)) + [seq(d, j => -1)]
  }

  lemma ColumnSumThree(sb: seq<Vec>, c: nat)
    requires |sb| == 3 && forall k :: 0 <= k < 3 ==> c < |sb[k]|
    ensures ColumnSum(sb, c, 3) == sb[0][c] + sb[1][c] + sb[2][c]
  {
    assert ColumnSum(sb, c, 1) == sb[0][c];
  }

  lemma ColumnSumFour(sb: seq<Vec>, c: nat)
    requires |sb| == 4 && forall k :: 0 <= k < 4 ==> c < |sb[k]|
    ensures ColumnSum(sb, c, 4) == sb[0][c] + sb[1][c] + sb[2][c] + sb[3][c]
  {
    assert ColumnSum(sb, c, 1) == sb[0][c];
    assert ColumnSum(sb, c, 2) == sb[0][c] + sb[1][c];
  }

  lemma InitialSuperbaseValues()
    ensures InitialSuperbase(2) == [[1, 0], [0, 1], [-1, -1]]
    ensures InitialSuperbase(3) == [[1, 0, 0], [0, 1, 0], [0, 0, 1], [-1, -1, -1]]
  {
    assert Unit(2, 0) == [1, 0] && Unit(2, 1) == [0, 1];
    assert Unit(3, 0) == [1, 0, 0] && Unit(3, 1) == [0, 1, 0] && Unit(3, 2) == [0, 0, 1];
    var sb2, sb3 := InitialSuperbase(2), InitialSuperbase(3);
    assert sb2[0] == Unit(2, 0) && sb2[1] == Unit(2, 1) && sb2[2] == [-1, -1];
    assert sb3[0] == Unit(3, 0) && sb3[1] == Unit(3, 1) && sb3[2] == Unit(3, 2) && sb3[3] == [-1, -1, -1];
  }

  /** The starting superbase is a superbase. */
  lemma InitialSuperbaseValid(d: nat)
    requires IsDimension(d)
    ensures IsSuperbase(InitialSuperbase(d), d)
  {
    InitialSuperbaseValues();
    var sb := InitialSuperbase(d);
    if d == 2 {
      forall c | 0 <= c < 2 ensures ColumnSum(sb, c, 3) == 0 {
        ColumnSumThree(sb, c);
      }
    } else {
      forall c | 0 <= c < 3 ensures ColumnSum(sb, c, 4) == 0 {
        ColumnSumFour(sb, c);
      }
    }
  }

  // ---------------------------------------------------------------------
  // One reduction step

  /** The indices k < n other than i and j, in increasing order: the slots the
      3D exchange shifts by u, in the order its write cursor visits them. */
  function Kept(i: nat, j: nat, n: nat): (r: seq<nat>)
    requires i != j
    ensures |r| == n - (if i < n then 1 else 0) - (if j < n then 1 else 0)
    ensures forall m :: 0 <= m < |r| ==> r[m] < n
  {
    if n == 0 then [] else Kept(i, j, n - 1) + (if n - 1 != i && n - 1 != j then [n - 1] else [])
  }

  lemma KeptNext(i: nat, j: nat, k: nat)
    requires i != j
    ensures Kept(i, j, k + 1) == Kept(i, j, k) + (if k != i && k != j then [k] else [])
  {
  }

  /** In 3D at most one kept slot precedes a kept slot k, so the write
      cursor stays in slots 0 and 1. */
  lemma KeptFront(i: nat, j: nat, k: nat)
    requires j < i < 4 && k < 4 && k != i && k != j
    ensures |Kept(i, j, k)| < 2
  {
  }

  /** The exchange that removes the non-obtuse pair (sb[i], sb[j]):
      in 2D the superbase becomes {v - u, u, -v}; in 3D the two other vectors
      are shifted by u and followed by -u and v (u = sb[i], v = sb[j]). */
  function Exchange(sb: seq<Vec>, i: nat, j: nat): (r: seq<Vec>)
    requires (|sb| == 3 || |sb| == 4) && Shaped(sb, |sb| - 1) && j < i < |sb|
    ensures Shaped(r, |sb| - 1)
  {
    var u, v := sb[i], sb[j];
    if |sb| == 3 then [Sub(v, u), u, Neg(v)]
    else
      var o := Kept(i, j, 4);
      [Add(sb[o[0]], u), Add(sb[o[1]], u), Neg(u), v]
  }

  lemma Exchange2Superbase(sb: seq<Vec>, i: nat, j: nat)
    requires IsSuperbase(sb, 2) && j < i < 3
    ensures IsSuperbase(Exchange(sb, i, j), 2)
  {
    var r := Exchange(sb, i, j);
    var u, v := sb[i], sb[j];
    forall c | 0 <= c < 2 ensures ColumnSum(r, c, 3) == 0 {
      ColumnSumThree(r, c);
    }
    forall c | 0 <= c < 2 ensures sb[2][c] == -sb[0][c] - sb[1][c] {
      ColumnSumThree(sb, c);
    }
    var delta := Det2(sb[0], sb[1]);
    assert Det2(r[0], r[1]) == Det2(v, u);
    if i == 1 {
      assert Det2(v, u) == delta;
    } else if j == 0 {
      assert Det2(v, u) == -delta;
    } else {
      assert Det2(v, u) == delta;
    }
  }

  lemma Det3Shift(a: Vec, b: Vec, u: Vec)
    requires |a| == 3 && |b| == 3 && |u| == 3
    ensures Det3(Add(a, u), Add(b, u), Neg(u)) == -Det3(a, b, u)
  {
    var a0, a1, a2, b0, b1, b2, u0, u1, u2 := a[0], a[1], a[2], b[0], b[1], b[2], u[0], u[1], u[2];
    assert Add(a, u) == [a0 + u0, a1 + u1, a2 + u2];
    assert Add(b, u) == [b0 + u0, b1 + u1, b2 + u2];
    assert Neg(u) == [-u0, -u1, -u2];
    assert Det3(a, b, u) == a0 * (b1 * u2 - b2 * u1) - a1 * (b0 * u2 - b2 * u0) + a2 * (b0 * u1 - b1 * u0);
  }

  lemma Det3Cyclic(a: Vec, b: Vec, c: Vec)
    requires |a| == 3 && |b| == 3 && |c| == 3
    ensures Det3(a, b, c) == Det3(b, c, a)
  {
  }

  lemma Det3Swap(a: Vec, b: Vec, c: Vec)
    requires |a| == 3 && |b| == 3 && |c| == 3
    ensures Det3(a, b, c) == -Det3(b, a, c)
  {
  }

  /** Replacing the last argument c by -(a + b + c) negates the determinant. */
  lemma Det3Complete(a: Vec, b: Vec, c: Vec, s: Vec)
    requires |a| == 3 && |b| == 3 && |c| == 3 && |s| == 3
    requires forall k :: 0 <= k < 3 ==> s[k] == -a[k] - b[k] - c[k]
    ensures Det3(a, b, s) == -Det3(a, b, c)
  {
    var m0, m1, m2 := b[1] * s[2] - b[2] * s[1], b[0] * s[2] - b[2] * s[0], b[0] * s[1] - b[1] * s[0];
    var n0, n1, n2 := b[1] * c[2] - b[2] * c[1], b[0] * c[2] - b[2] * c[0], b[0] * c[1] - b[1] * c[0];
    assert m0 == -(b[1] * a[2] - b[2] * a[1]) - n0;
    assert m1 == -(b[0] * a[2] - b[2] * a[0]) - n1;
    assert m2 == -(b[0] * a[1] - b[1] * a[0]) - n2;
    assert a[0] * (b[1] * a[2] - b[2] * a[1]) - a[1] * (b[0] * a[2] - b[2] * a[0]) + a[2] * (b[0] * a[1] - b[1] * a[0]) == 0;
  }

  /** The determinants of the triples of a zero-sum quadruple s0..s3 that
      the 3D exchange keeps (the two other vectors, then u). */
  lemma Det3OfThree(s0: Vec, s1: Vec, s2: Vec, s3: Vec)
    requires |s0| == 3 && |s1| == 3 && |s2| == 3 && |s3| == 3
    requires forall k :: 0 <= k < 3 ==> s3[k] == -s0[k] - s1[k] - s2[k]
    ensures Det3(s2, s3, s1) == -Det3(s0, s1, s2)
    ensures Det3(s1, s3, s2) == Det3(s0, s1, s2)
    ensures Det3(s0, s3, s2) == -Det3(s0, s1, s2)
    ensures Det3(s1, s2, s3) == -Det3(s0, s1, s2)
    ensures Det3(s0, s2, s3) == Det3(s0, s1, s2)
    ensures Det3(s0, s1, s3) == -Det3(s0, s1, s2)
  {
    Det3Complete(s1, s2, s0, s3);
    Det3Cyclic(s1, s2, s0);
    Det3Cyclic(s2, s3, s1);
    Det3Swap(s1, s3, s2);
    Det3Cyclic(s3, s1, s2);
    Det3Complete(s0, s2, s1, s3);
    Det3Swap(s0, s2, s1);
    Det3Cyclic(s2, s0, s1);
    Det3Swap(s0, s3, s2);
    Det3Cyclic(s3, s0, s2);
    Det3Complete(s0, s1, s2, s3);
  }

  lemma Exchange3ZeroSum(sb: seq<Vec>, i: nat, j: nat)
    requires Shaped(sb, 3) && ZeroSum(sb, 3) && j < i < 4
    ensures ZeroSum(Exchange(sb, i, j), 3)
  {
    var r := Exchange(sb, i, j);
    var o := Kept(i, j, 4);
    forall c | 0 <= c < 3 ensures ColumnSum(r, c, 4) == 0 {
      ColumnSumFour(r, c);
      ColumnSumFour(sb, c);
      assert r[0][c] + r[1][c] + r[2][c] + r[3][c] == sb[o[0]][c] + sb[o[1]][c] + sb[i][c] + sb[j][c];
    }
  }

  lemma KeptOfFour(i: nat, j: nat)
    requires j < i < 4
    ensures Kept(i, j, 4) ==
            if i == 1 then [2, 3] else if i == 2 && j == 0 then [1, 3] else if i == 2 then [0, 3]
            else if j == 0 then [1, 2] else if j == 1 then [0, 2] else [0, 1]
  {
    assert Kept(i, j, 0) == [];
    KeptNext(i, j, 0);
    KeptNext(i, j, 1);
    KeptNext(i, j, 2);
    KeptNext(i, j, 3);
  }

  /** The first three vectors of the exchanged superbase have the determinant
      of (a, b, u) negated, and (a, b, u) is a triple of the old superbase. */
  lemma Exchange3Determinant(sb: seq<Vec>, i: nat, j: nat)
    requires Shaped(sb, 3) && j < i < 4
    ensures var r := Exchange(sb, i, j); var o := Kept(i, j, 4);
            Det3(r[0], r[1], r[2]) == -Det3(sb[o[0]], sb[o[1]], sb[i])
  {
    var o := Kept(i, j, 4);
    Det3Shift(sb[o[0]], sb[o[1]], sb[i]);
  }

  lemma ZeroSumFourth(sb: seq<Vec>)
    requires Shaped(sb, 3) && ZeroSum(sb, 3)
    ensures forall c :: 0 <= c < 3 ==> sb[3][c] == -sb[0][c] - sb[1][c] - sb[2][c]
  {
    forall c | 0 <= c < 3 ensures sb[3][c] == -sb[0][c] - sb[1][c] - sb[2][c] {
      ColumnSumFour(sb, c);
    }
  }

  lemma Exchange3Unimodular(sb: seq<Vec>, i: nat, j: nat)
    requires IsSuperbase(sb, 3) && j < i < 4
    ensures Unimodular(Exchange(sb, i, j), 3)
  {
    ZeroSumFourth(sb);
    var r := Exchange(sb, i, j);
    var s0, s1, s2, s3 := sb[0], sb[1], sb[2], sb[3];
    var delta := Det3(s0, s1, s2);
    var e := Det3(r[0], r[1], r[2]);
    Exchange3Determinant(sb, i, j);
    Det3OfThree(s0, s1, s2, s3);
    KeptOfFour(i, j);
    if i == 1 {
      assert e == -Det3(s2, s3, s1);
    } else if i == 2 && j == 0 {
      assert e == -Det3(s1, s3, s2);
    } else if i == 2 {
      assert e == -Det3(s0, s3, s2);
    } else if j == 0 {
      assert e == -Det3(s1, s2, s3);
    } else if j == 1 {
      assert e == -Det3(s0, s2, s3);
    } else {
      assert e == -Det3(s0, s1, s3);
    }
  }

  lemma Exchange3Superbase(sb: seq<Vec>, i: nat, j: nat)
    requires IsSuperbase(sb, 3) && j < i < 4
    ensures IsSuperbase(Exchange(sb, i, j), 3)
  {
    Exchange3ZeroSum(sb, i, j);
    Exchange3Unimodular(sb, i, j);
  }

  /** Every exchange maps a superbase to a superbase. */
  lemma ExchangeSuperbase(sb: seq<Vec>, i: nat, j: nat)
    requires |sb| >= 1 && IsSuperbase(sb, |sb| - 1) && j < i < |sb|
    ensures IsSuperbase(Exchange(sb, i, j), |sb| - 1)
  {
    if |sb| == 3 {
      Exchange2Superbase(sb, i, j);
    } else {
      Exchange3Superbase(sb, i, j);
    }
  }

  // ---------------------------------------------------------------------
  // The scan for a non-obtuse pair, and the reduction loop

  /** Every pair of distinct superbase vectors has a nonpositive scalar product. */
  predicate Obtuse(D: Tensor, sb: seq<Vec>)
    requires IsTensor(D, |D|) && Shaped(sb, |D|)
  {
    forall i, j :: 0 <= j < i < |sb| ==> ScalarProduct(D, sb[i], sb[j]) <= 0.0
  }

  /** (i', j') is at or after (i, j) in the scan order: i ascending from 1, and
      for each i, j ascending from 0 to i - 1. */
  predicate AtOrAfter(i': nat, j': nat, i: nat, j: nat)
  {
    i' > i || (i' == i && j' >= j)
  }

  /** The first pair at or after (i, j) in scan order with <D sb_i, sb_j> > 0. */
  function FindPair(D: Tensor, sb: seq<Vec>, i: nat, j: nat): (r: Option<Pair>)
    requires IsTensor(D, |D|) && Shaped(sb, |D|) && 1 <= i && j <= i
    ensures r.Some? ==> r.value.j < r.value.i < |sb| && AtOrAfter(r.value.i, r.value.j, i, j)
    ensures r.Some? ==> ScalarProduct(D, sb[r.value.i], sb[r.value.j]) > 0.0
    ensures r.Some? ==>
              forall i', j' :: 0 <= j' < i' < |sb| && AtOrAfter(i', j', i, j) && !AtOrAfter(i', j', r.value.i, r.value.j)
                ==> ScalarProduct(D, sb[i'], sb[j']) <= 0.0
    decreases |sb| - i, i - j
  {
    if i >= |sb| then None
    else if j == i then FindPair(D, sb, i + 1, 0)
    else if ScalarProduct(D, sb[i], sb[j]) > 0.0 then Some(Pair(i, j))
    else FindPair(D, sb, i, j + 1)
  }

  /** Every pair at or after (i, j) in scan order has a nonpositive product. */
  predicate NoPairFrom(D: Tensor, sb: seq<Vec>, i: nat, j: nat)
    requires IsTensor(D, |D|) && Shaped(sb, |D|)
  {
    forall i', j' :: 0 <= j' < i' < |sb| && AtOrAfter(i', j', i, j) ==> ScalarProduct(D, sb[i'], sb[j']) <= 0.0
  }

  lemma NoPairFromRowEnd(D: Tensor, sb: seq<Vec>, i: nat)
    requires IsTensor(D, |D|) && Shaped(sb, |D|)
    ensures NoPairFrom(D, sb, i, i) <==> NoPairFrom(D, sb, i + 1, 0)
  {
  }

  lemma NoPairFromNext(D: Tensor, sb: seq<Vec>, i: nat, j: nat)
    requires IsTensor(D, |D|) && Shaped(sb, |D|) && j < i < |sb|
    ensures NoPairFrom(D, sb, i, j) <==> ScalarProduct(D, sb[i], sb[j]) <= 0.0 && NoPairFrom(D, sb, i, j + 1)
  {
    if ScalarProduct(D, sb[i], sb[j]) <= 0.0 && NoPairFrom(D, sb, i, j + 1) {
      forall i', j' | 0 <= j' < i' < |sb| && AtOrAfter(i', j', i, j)
        ensures ScalarProduct(D, sb[i'], sb[j']) <= 0.0
      {
        if !(i' == i && j' == j) {
          assert AtOrAfter(i', j', i, j + 1);
        }
      }
    }
  }

  /** The scan finds nothing from (i, j) on exactly when every pair from (i, j)
      on has a nonpositive scalar product. */
  lemma {:induction false} FindPairNone(D: Tensor, sb: seq<Vec>, i: nat, j: nat)
    requires IsTensor(D, |D|) && Shaped(sb, |D|) && 1 <= i && j <= i
    ensures FindPair(D, sb, i, j).None? <==> NoPairFrom(D, sb, i, j)
    decreases |sb| - i, i - j
  {
    if i >= |sb| {
    } else if j == i {
      FindPairNone(D, sb, i + 1, 0);
      NoPairFromRowEnd(D, sb, i);
    } else {
      NoPairFromNext(D, sb, i, j);
      if ScalarProduct(D, sb[i], sb[j]) <= 0.0 {
        FindPairNone(D, sb, i, j + 1);
      }
    }
  }

  /** A full scan finds no pair exactly when the superbase is obtuse. */
  lemma FindPairObtuse(D: Tensor, sb: seq<Vec>)
    requires IsTensor(D, |D|) && Shaped(sb, |D|)
    ensures FindPair(D, sb, 1, 0).None? <==> Obtuse(D, sb)
  {
    FindPairNone(D, sb, 1, 0);
  }

  /** The reduction loop with `fuel` iterations left: each iteration scans for
      the first non-obtuse pair; none means the superbase is stabilised,
      otherwise the pair is exchanged. Running out of iterations leaves the
      last superbase unstabilised (no final scan is made). */
  function Reduce(D: Tensor, sb: seq<Vec>, fuel: nat): Reduction
    requires IsDimension(|D|) && IsTensor(D, |D|) && Shaped(sb, |D|)
    decreases fuel
  {
    if fuel == 0 then Reduction(sb, false, 0)
    else match FindPair(D, sb, 1, 0)
      case None => Reduction(sb, true, 0)
      case Some(p) =>
        var r := Reduce(D, Exchange(sb, p.i, p.j), fuel - 1);
        Reduction(r.superbase, r.stabilized, r.exchanges + 1)
  }

  /** At most `fuel` exchanges are made, and non-stabilisation is reported
      exactly when all of them were made. */
  lemma {:induction false} ReduceBound(D: Tensor, sb: seq<Vec>, fuel: nat)
    requires IsDimension(|D|) && IsTensor(D, |D|) && Shaped(sb, |D|)
    ensures Reduce(D, sb, fuel).exchanges <= fuel
    ensures Reduce(D, sb, fuel).stabilized <==> Reduce(D, sb, fuel).exchanges < fuel
    decreases fuel
  {
    if fuel > 0 {
      match FindPair(D, sb, 1, 0)
      case None =>
      case Some(p) => ReduceBound(D, Exchange(sb, p.i, p.j), fuel - 1);
    }
  }

  /** The reduction keeps a superbase a superbase (zero sum, unimodular). */
  lemma {:induction false} ReduceSuperbase(D: Tensor, sb: seq<Vec>, fuel: nat)
    requires IsDimension(|D|) && IsTensor(D, |D|) && IsSuperbase(sb, |D|)
    ensures IsSuperbase(Reduce(D, sb, fuel).superbase, |D|)
    decreases fuel
  {
    if fuel > 0 {
      match FindPair(D, sb, 1, 0)
      case None =>
      case Some(p) =>
        ExchangeSuperbase(sb, p.i, p.j);
        ReduceSuperbase(D, Exchange(sb, p.i, p.j), fuel - 1);
    }
  }

  /** A stabilised reduction ends on an obtuse superbase. */
  lemma {:induction false} ReduceStabilizedObtuse(D: Tensor, sb: seq<Vec>, fuel: nat)
    requires IsDimension(|D|) && IsTensor(D, |D|) && Shaped(sb, |D|)
    requires Reduce(D, sb, fuel).stabilized
    ensures Shaped(Reduce(D, sb, fuel).superbase, |D|) && Obtuse(D, Reduce(D, sb, fuel).superbase)
    decreases fuel
  {
    match FindPair(D, sb, 1, 0)
    case None => FindPairObtuse(D, sb);
    case Some(p) => ReduceStabilizedObtuse(D, Exchange(sb, p.i, p.j), fuel - 1);
  }

  lemma {:induction false} ReduceShaped(D: Tensor, sb: seq<Vec>, fuel: nat)
    requires IsDimension(|D|) && IsTensor(D, |D|) && Shaped(sb, |D|)
    ensures Shaped(Reduce(D, sb, fuel).superbase, |D|)
    decreases fuel
  {
    if fuel > 0 {
      match FindPair(D, sb, 1, 0)
      case None =>
      case Some(p) => ReduceShaped(D, Exchange(sb, p.i, p.j), fuel - 1);
    }
  }

  // ---------------------------------------------------------------------
  // Stencils read off the reduced superbase

  /** 2D offsets: each superbase vector rotated by 90 degrees, (-x1, x0). */
  function Offsets2(sb: seq<Vec>): seq<Vec>
    requires Shaped(sb, 2)
  {
    [[-sb[0][1], sb[0][0]], [-sb[1][1], sb[1][0]], [-sb[2][1], sb[2][0]]]
  }

  /** 2D coefficients: -1/2 <D sb_{i+1}, sb_{i+2}>, indices mod 3. */
  function Coefficients2(D: Tensor, sb: seq<Vec>): seq<real>
    requires IsTensor(D, 2) && Shaped(sb, 2)
  {
    [-0.5 * ScalarProduct(D, sb[1], sb[2]), -0.5 * ScalarProduct(D, sb[2], sb[0]),
     -0.5 * ScalarProduct(D, sb[0], sb[1])]
  }

  /** Entry (i, j) of the comatrix of sb[0..2], indices mod 3. */
  function Cofactor(sb: seq<Vec>, i: nat, j: nat): int
    requires Shaped(sb, 3)
  {
    sb[(i + 1) % 3][(j + 1) % 3] * sb[(i + 2) % 3][(j + 2) % 3]
    - sb[(i + 2) % 3][(j + 1) % 3] * sb[(i + 1) % 3][(j + 2) % 3]
  }

  /** 3D offsets: the three comatrix rows c_0, c_1, c_2, then c_0 - c_1,
      c_0 - c_2 and c_1 - c_2. */
  function Offsets3(sb: seq<Vec>): seq<Vec>
    requires Shaped(sb, 3)
  {
    var c0, c1, c2 := CofactorRow(sb, 0), CofactorRow(sb, 1), CofactorRow(sb, 2);
    [c0, c1, c2, Sub(c0, c1), Sub(c0, c2), Sub(c1, c2)]
  }

  /** Row i of the comatrix. */
  function CofactorRow(sb: seq<Vec>, i: nat): Vec
    requires Shaped(sb, 3)
  {
    [Cofactor(sb, i, 0), Cofactor(sb, i, 1), Cofactor(sb, i, 2)]
  }

  /** The 3D weight stored at position (a, b), a < b, of the symmetric 4 x 4
      weight tensor: it is written as Weights(b, a) = -1/2 <D sb_b, sb_a>. */
  function StoredWeight(D: Tensor, sb: seq<Vec>, a: nat, b: nat): real
    requires IsTensor(D, 3) && Shaped(sb, 3) && a < b < 4
  {
    -0.5 * ScalarProduct(D, sb[b], sb[a])
  }

  /** 3D coefficients: Weights(i, 3) for i < 3, then Weights(0, 1),
      Weights(0, 2), Weights(1, 2). */
  function Coefficients3(D: Tensor, sb: seq<Vec>): seq<real>
    requires IsTensor(D, 3) && Shaped(sb, 3)
  {
    [StoredWeight(D, sb, 0, 3), StoredWeight(D, sb, 1, 3), StoredWeight(D, sb, 2, 3),
     StoredWeight(D, sb, 0, 1), StoredWeight(D, sb, 0, 2), StoredWeight(D, sb, 1, 2)]
  }

  /** The stencil Selling's algorithm produces for the (rescaled) tensor D. */
  function SellingStencil(D: Tensor): LocalStencil
    requires IsDimension(|D|) && IsTensor(D, |D|)
  {
    var d := |D|;
    InitialSuperbaseValid(d);
    var r := Reduce(D, InitialSuperbase(d), MaxIter);
    ReduceShaped(D, InitialSuperbase(d), MaxIter);
    ReadOff(D, r.superbase, r.stabilized)
  }

  /** The offsets and coefficients read off a superbase. */
  function ReadOff(D: Tensor, sb: seq<Vec>, stabilized: bool): LocalStencil
    requires IsDimension(|D|) && IsTensor(D, |D|) && Shaped(sb, |D|)
  {
    if |D| == 2 then LocalStencil(Offsets2(sb), Coefficients2(D, sb), stabilized)
    else LocalStencil(Offsets3(sb), Coefficients3(D, sb), stabilized)
  }

  /** HalfStencilSize offsets of dimension d and as many coefficients. */
  lemma ReadOffShape(D: Tensor, sb: seq<Vec>, stabilized: bool)
    requires IsDimension(|D|) && IsTensor(D, |D|) && Shaped(sb, |D|)
    ensures |ReadOff(D, sb, stabilized).offsets| == HalfStencilSize(|D|)
    ensures |ReadOff(D, sb, stabilized).coefficients| == HalfStencilSize(|D|)
    ensures forall k :: 0 <= k < |ReadOff(D, sb, stabilized).offsets| ==> |ReadOff(D, sb, stabilized).offsets[k]| == |D|
  {
    if |D| == 3 {
      var o := Offsets3(sb);
      assert |o[0]| == 3 && |o[1]| == 3 && |o[2]| == 3;
    }
  }

  /** Obtuse superbase, 2D: every coefficient is nonnegative. */
  lemma Coefficients2Nonnegative(D: Tensor, sb: seq<Vec>)
    requires IsTensor(D, 2) && Shaped(sb, 2) && Obtuse(D, sb)
    ensures forall k :: 0 <= k < 3 ==> Coefficients2(D, sb)[k] >= 0.0
  {
    var c := Coefficients2(D, sb);
    assert c[0] == -0.5 * ScalarProduct(D, sb[1], sb[2]);
    assert c[1] == -0.5 * ScalarProduct(D, sb[2], sb[0]);
    assert c[2] == -0.5 * ScalarProduct(D, sb[0], sb[1]);
    ScalarProductSymmetric(D, sb[1], sb[2]);
    ScalarProductSymmetric(D, sb[0], sb[1]);
    assert ScalarProduct(D, sb[2], sb[1]) <= 0.0;
    assert ScalarProduct(D, sb[2], sb[0]) <= 0.0;
    assert ScalarProduct(D, sb[1], sb[0]) <= 0.0;
  }

  /** Obtuse superbase, 3D: every coefficient is nonnegative. */
  lemma Coefficients3Nonnegative(D: Tensor, sb: seq<Vec>)
    requires IsTensor(D, 3) && Shaped(sb, 3) && Obtuse(D, sb)
    ensures forall k :: 0 <= k < 6 ==> Coefficients3(D, sb)[k] >= 0.0
  {
    assert ScalarProduct(D, sb[3], sb[0]) <= 0.0;
    assert ScalarProduct(D, sb[3], sb[1]) <= 0.0;
    assert ScalarProduct(D, sb[3], sb[2]) <= 0.0;
    assert ScalarProduct(D, sb[1], sb[0]) <= 0.0;
    assert ScalarProduct(D, sb[2], sb[0]) <= 0.0;
    assert ScalarProduct(D, sb[2], sb[1]) <= 0.0;
  }

  /** The 3D coefficient i < 3, read as Weights(i, 3), is -1/2 <D sb_i, sb_3>
      although it was written as Weights(3, i). */
  lemma Coefficients3Symmetric(D: Tensor, sb: seq<Vec>, i: nat)
    requires IsTensor(D, 3) && Shaped(sb, 3) && i < 3
    ensures Coefficients3(D, sb)[i] == -0.5 * ScalarProduct(D, sb[i], sb[3])
  {
    ScalarProductSymmetric(D, sb[3], sb[i]);
  }

  /** Shape of the stencil, and nonnegative coefficients once stabilised. */
  lemma SellingStencilProperties(D: Tensor)
    requires IsDimension(|D|) && IsTensor(D, |D|)
    ensures |SellingStencil(D).offsets| == HalfStencilSize(|D|)
    ensures |SellingStencil(D).coefficients| == HalfStencilSize(|D|)
    ensures forall k :: 0 <= k < |SellingStencil(D).offsets| ==> |SellingStencil(D).offsets[k]| == |D|
    ensures SellingStencil(D).stabilized ==>
              forall k :: 0 <= k < |SellingStencil(D).coefficients| ==> SellingStencil(D).coefficients[k] >= 0.0
  {
    var d := |D|;
    InitialSuperbaseValid(d);
    ReduceShaped(D, InitialSuperbase(d), MaxIter);
    var r := Reduce(D, InitialSuperbase(d), MaxIter);
    ReadOffShape(D, r.superbase, r.stabilized);
    if r.stabilized {
      ReduceStabilizedObtuse(D, InitialSuperbase(d), MaxIter);
      if d == 2 {
        Coefficients2Nonnegative(D, r.superbase);
      } else {
        Coefficients3Nonnegative(D, r.superbase);
      }
    }
  }

  /** The reduced superbase is a superbase, and non-stabilisation means all
      200 exchanges were made. */
  lemma SellingReductionProperties(D: Tensor)
    requires IsDimension(|D|) && IsTensor(D, |D|)
    ensures IsSuperbase(Reduce(D, InitialSuperbase(|D|), MaxIter).superbase, |D|)
    ensures Reduce(D, InitialSuperbase(|D|), MaxIter).exchanges <= MaxIter
    ensures !Reduce(D, InitialSuperbase(|D|), MaxIter).stabilized <==>
              Reduce(D, InitialSuperbase(|D|), MaxIter).exchanges == MaxIter
  {
    InitialSuperbaseValid(|D|);
    ReduceSuperbase(D, InitialSuperbase(|D|), MaxIter);
    ReduceBound(D, InitialSuperbase(|D|), MaxIter);
  }

  /** With the identity tensor the 2D starting superbase is already obtuse. */
  lemma IdentityReduction2(D: Tensor, sb: seq<Vec>)
    requires D == [[1.0, 0.0], [0.0, 1.0]] && sb == [[1, 0], [0, 1], [-1, -1]]
    ensures Reduce(D, sb, MaxIter) == Reduction(sb, true, 0)
  {
    ScalarProduct2(D, sb[1], sb[0]);
    ScalarProduct2(D, sb[2], sb[0]);
    ScalarProduct2(D, sb[2], sb[1]);
    assert FindPair(D, sb, 3, 0) == None;
    assert FindPair(D, sb, 2, 2) == None;
    assert FindPair(D, sb, 2, 1) == None;
    assert FindPair(D, sb, 2, 0) == None;
    assert FindPair(D, sb, 1, 1) == None;
    assert FindPair(D, sb, 1, 0) == None;
    ReduceStops(D, sb, MaxIter);
  }

  /** For the identity tensor the 2D stencil is the 4-neighbour Laplacian:
      the axis offsets carry weight 1/2 and the diagonal one weight 0. */
  lemma IsotropicStencil2(D: Tensor)
    requires D == [[1.0, 0.0], [0.0, 1.0]]
    ensures SellingStencil(D) == LocalStencil([[0, 1], [-1, 0], [1, -1]], [0.5, 0.5, 0.0], true)
  {
    InitialSuperbaseValues();
    var sb := InitialSuperbase(2);
    IdentityReduction2(D, sb);
    var o := Offsets2(sb);
    assert o[0] == [0, 1] && o[1] == [-1, 0] && o[2] == [1, -1];
    ScalarProduct2(D, sb[1], sb[2]);
    ScalarProduct2(D, sb[2], sb[0]);
    ScalarProduct2(D, sb[0], sb[1]);
    var c := Coefficients2(D, sb);
    assert c[0] == 0.5 && c[1] == 0.5 && c[2] == 0.0;
  }

  /** With the identity tensor the 3D starting superbase is already obtuse. */
  lemma IdentityReduction3(D: Tensor, sb: seq<Vec>)
    requires D == [[1.0, 0.0, 0.0], [0.0, 1.0, 0.0], [0.0, 0.0, 1.0]]
    requires sb == [[1, 0, 0], [0, 1, 0], [0, 0, 1], [-1, -1, -1]]
    ensures Reduce(D, sb, MaxIter) == Reduction(sb, true, 0)
  {
    IdentityProducts3(D, sb);
    assert FindPair(D, sb, 4, 0) == None;
    assert FindPair(D, sb, 3, 3) == None;
    assert FindPair(D, sb, 3, 2) == None;
    assert FindPair(D, sb, 3, 1) == None;
    assert FindPair(D, sb, 3, 0) == None;
    assert FindPair(D, sb, 2, 2) == None;
    assert FindPair(D, sb, 2, 1) == None;
    assert FindPair(D, sb, 2, 0) == None;
    assert FindPair(D, sb, 1, 1) == None;
    assert FindPair(D, sb, 1, 0) == None;
    ReduceStops(D, sb, MaxIter);
  }

  /** The products of the 3D starting superbase under the identity. */
  lemma IdentityProducts3(D: Tensor, sb: seq<Vec>)
    requires D == [[1.0, 0.0, 0.0], [0.0, 1.0, 0.0], [0.0, 0.0, 1.0]]
    requires sb == [[1, 0, 0], [0, 1, 0], [0, 0, 1], [-1, -1, -1]]
    ensures forall i, j :: 0 <= j < i < 3 ==> ScalarProduct(D, sb[i], sb[j]) == 0.0
    ensures forall j :: 0 <= j < 3 ==> ScalarProduct(D, sb[3], sb[j]) == -1.0
  {
    forall i, j | 0 <= j < i < 4 ensures ScalarProduct(D, sb[i], sb[j]) == if i == 3 then -1.0 else 0.0 {
      ScalarProduct3(D, sb[i], sb[j]);
    }
  }

  /** The comatrix of the identity basis is the identity. */
  lemma IdentityOffsets3(sb: seq<Vec>)
    requires sb == [[1, 0, 0], [0, 1, 0], [0, 0, 1], [-1, -1, -1]]
    ensures Offsets3(sb) == [[1, 0, 0], [0, 1, 0], [0, 0, 1], [1, -1, 0], [1, 0, -1], [0, 1, -1]]
  {
    assert CofactorRow(sb, 0) == [1, 0, 0] && CofactorRow(sb, 1) == [0, 1, 0] && CofactorRow(sb, 2) == [0, 0, 1];
    assert Sub([1, 0, 0], [0, 1, 0]) == [1, -1, 0];
    assert Sub([1, 0, 0], [0, 0, 1]) == [1, 0, -1];
    assert Sub([0, 1, 0], [0, 0, 1]) == [0, 1, -1];
  }

  /** For the identity tensor the 3D stencil is the 6-neighbour Laplacian:
      the three axis offsets carry weight 1/2, the three others weight 0. */
  lemma IsotropicStencil3(D: Tensor)
    requires D == [[1.0, 0.0, 0.0], [0.0, 1.0, 0.0], [0.0, 0.0, 1.0]]
    ensures SellingStencil(D) ==
            LocalStencil([[1, 0, 0], [0, 1, 0], [0, 0, 1], [1, -1, 0], [1, 0, -1], [0, 1, -1]],
                         [0.5, 0.5, 0.5, 0.0, 0.0, 0.0], true)
  {
    InitialSuperbaseValues();
    var sb := InitialSuperbase(3);
    IdentityReduction3(D, sb);
    IdentityOffsets3(sb);
    IdentityProducts3(D, sb);
    var w := Coefficients3(D, sb);
    assert w[0] == 0.5 && w[1] == 0.5 && w[2] == 0.5 && w[3] == 0.0 && w[4] == 0.0 && w[5] == 0.0;
  }

  // ---------------------------------------------------------------------
  // The Stencil overloads as the source runs them: the superbase is a small
  // array of vectors updated in place.

  /** Allocates the superbase: the identity rows, then their negated sum. */
  method NewSuperbase(d: nat) returns (sb: array<Vec>)
    requires IsDimension(d)
    ensures fresh(sb) && sb[..] == InitialSuperbase(d)
  {
    sb := new Vec[d + 1](_ => seq(d, _ => 0));
    for i := 0 to d
      invariant forall k :: 0 <= k < i ==> sb[k] == Unit(d, k)
      invariant forall k :: i <= k <= d ==> |sb[k]| == d
    {
      for j := 0 to d
        invariant |sb[i]| == d
        invariant forall m :: 0 <= m < j ==> sb[i][m] == (if i == m then 1 else 0)
        invariant forall k :: 0 <= k < i ==> sb[k] == Unit(d, k)
        invariant forall k :: i < k <= d ==> |sb[k]| == d
      {
        sb[i] := sb[i][j := if i == j then 1 else 0];
      }
      assert sb[i] == Unit(d, i);
    }
    InitialSuperbaseValues();
    assert Unit(2, 0) == [1, 0] && Unit(2, 1) == [0, 1];
    assert Unit(3, 0) == [1, 0, 0] && Unit(3, 1) == [0, 1, 0] && Unit(3, 2) == [0, 0, 1];
    if d == 2 {
      sb[2] := Neg(Add(sb[0], sb[1]));
      assert sb[2] == [-1, -1];
      assert sb[..] == [[1, 0], [0, 1], [-1, -1]];
    } else {
      sb[3] := Neg(Add(Add(sb[0], sb[1]), sb[2]));
      assert sb[3] == [-1, -1, -1];
      assert sb[..] == [[1, 0, 0], [0, 1, 0], [0, 0, 1], [-1, -1, -1]];
    }
  }

  /** Replaces the non-obtuse pair (sb[i], sb[j]) in place. */
  method ExchangeInPlace(sb: array<Vec>, i: nat, j: nat)
    requires (sb.Length == 3 || sb.Length == 4) && Shaped(sb[..], sb.Length - 1) && j < i < sb.Length
    modifies sb
    ensures sb[..] == Exchange(old(sb[..]), i, j)
  {
    var u, v := sb[i], sb[j];
    if sb.Length == 3 {
      sb[0] := Sub(v, u);
      sb[1] := u;
      sb[2] := Neg(v);
      assert sb[..] == [Sub(v, u), u, Neg(v)];
    } else {
      assert forall m :: 0 <= m < 4 ==> |sb[m]| == |sb[..][m]| == 3;
      ShiftOthers(sb, i, j, u);
      sb[2] := Neg(u);
      sb[3] := v;
      assert sb[..] == [sb[0], sb[1], Neg(u), v];
    }
  }

  /** The 3D cursor loop: the vectors other than sb[i] and sb[j] are shifted
      by u and packed to the front; the write cursor l never overtakes the
      read position k, so every vector is read before it is overwritten. */
  method ShiftOthers(sb: array<Vec>, i: nat, j: nat, u: Vec)
    requires sb.Length == 4 && j < i < 4 && |u| == 3
    requires forall m :: 0 <= m < 4 ==> |sb[m]| == 3
    modifies sb
    ensures sb[0] == Add(old(sb[Kept(i, j, 4)[0]]), u)
    ensures sb[1] == Add(old(sb[Kept(i, j, 4)[1]]), u)
    ensures sb[2] == old(sb[2]) && sb[3] == old(sb[3])
  {
    ghost var kept: seq<nat> := [];
    var l := 0;
    for k := 0 to 4
      invariant kept == Kept(i, j, k) && l == |kept| <= k
      invariant sb[2] == old(sb[2]) && sb[3] == old(sb[3])
      invariant forall m {:trigger kept[m]} :: 0 <= m < l ==> kept[m] < k && sb[m] == Add(old(sb[kept[m]]), u)
      invariant forall m {:trigger sb[m]} :: k <= m < 4 ==> sb[m] == old(sb[m])
    {
      KeptNext(i, j, k);
      if k != i && k != j {
        KeptFront(i, j, k);
        sb[l] := Add(sb[k], u);
        kept := kept + [k];
        l := l + 1;
      }
    }
  }

  /** One pass of the scan: exchanges the first non-obtuse pair, if any, and
      reports whether the superbase stayed the same. */
  method Sweep(D: Tensor, sb: array<Vec>) returns (same: bool)
    requires IsDimension(|D|) && IsTensor(D, |D|) && Shaped(sb[..], |D|)
    modifies sb
    ensures Shaped(sb[..], |D|)
    ensures same <==> FindPair(D, old(sb[..]), 1, 0).None?
    ensures same ==> sb[..] == old(sb[..])
    ensures !same ==> sb[..] == Exchange(old(sb[..]), FindPair(D, old(sb[..]), 1, 0).value.i,
                                         FindPair(D, old(sb[..]), 1, 0).value.j)
  {
    ghost var before := sb[..];
    same := true;
    var i := 1;
    while i <= |D| && same
      invariant 1 <= i <= |D| + 1
      invariant Shaped(sb[..], |D|)
      invariant same ==> sb[..] == before && FindPair(D, before, 1, 0) == FindPair(D, before, i, 0)
      invariant !same ==> FindPair(D, before, 1, 0).Some? &&
                          sb[..] == Exchange(before, FindPair(D, before, 1, 0).value.i, FindPair(D, before, 1, 0).value.j)
    {
      var j := 0;
      while j < i && same
        invariant 0 <= j <= i
        invariant Shaped(sb[..], |D|)
        invariant same ==> sb[..] == before && FindPair(D, before, 1, 0) == FindPair(D, before, i, j)
        invariant !same ==> FindPair(D, before, 1, 0).Some? &&
                            sb[..] == Exchange(before, FindPair(D, before, 1, 0).value.i, FindPair(D, before, 1, 0).value.j)
      {
        if ScalarProduct(D, sb[i], sb[j]) > 0.0 {
          ExchangeInPlace(sb, i, j);
          same := false;
        }
        j := j + 1;
      }
      i := i + 1;
    }
  }

  /** Selling's loop: at most maxIter exchanges, leaving early once a scan
      finds the superbase obtuse; the overloads run it with maxIter = MaxIter. */
  method SellingLoop(D: Tensor, sb: array<Vec>, maxIter: nat) returns (stabilized: bool)
    requires IsDimension(|D|) && IsTensor(D, |D|) && Shaped(sb[..], |D|)
    modifies sb
    ensures Shaped(sb[..], |D|)
    ensures sb[..] == Reduce(D, old(sb[..]), maxIter).superbase
    ensures stabilized == Reduce(D, old(sb[..]), maxIter).stabilized
  {
    ghost var R := Reduce(D, sb[..], maxIter);
    var iter := 0;
    while iter < maxIter
      invariant 0 <= iter <= maxIter
      invariant Shaped(sb[..], |D|)
      invariant Reduce(D, sb[..], maxIter - iter).superbase == R.superbase
      invariant Reduce(D, sb[..], maxIter - iter).stabilized == R.stabilized
    {
      ghost var current := sb[..];
      var same := Sweep(D, sb);
      if same {
        ReduceStops(D, current, maxIter - iter);
        assert sb[..] == R.superbase && R.stabilized;
        break;
      }
      ReduceSteps(D, current, maxIter - iter);
      iter := iter + 1;
    }
    if iter == maxIter {
      assert Reduce(D, sb[..], 0) == Reduction(sb[..], false, 0);
    }
    stabilized := iter != maxIter;
  }

  lemma ReduceStops(D: Tensor, sb: seq<Vec>, fuel: nat)
    requires IsDimension(|D|) && IsTensor(D, |D|) && Shaped(sb, |D|)
    requires fuel > 0 && FindPair(D, sb, 1, 0).None?
    ensures Reduce(D, sb, fuel) == Reduction(sb, true, 0)
  {
  }

  lemma ReduceSteps(D: Tensor, sb: seq<Vec>, fuel: nat)
    requires IsDimension(|D|) && IsTensor(D, |D|) && Shaped(sb, |D|)
    requires fuel > 0 && FindPair(D, sb, 1, 0).Some?
    ensures var p := FindPair(D, sb, 1, 0).value;
            Reduce(D, sb, fuel).superbase == Reduce(D, Exchange(sb, p.i, p.j), fuel - 1).superbase &&
            Reduce(D, sb, fuel).stabilized == Reduce(D, Exchange(sb, p.i, p.j), fuel - 1).stabilized
  {
  }

  /** The 2D Stencil overload: the offsets and coefficients are those of the
      reduced superbase, and they are nonnegative once the loop stabilised. */
  method Stencil2(D: Tensor) returns (offsets: seq<Vec>, coefficients: seq<real>, stabilized: bool)
    requires IsTensor(D, 2)
    ensures LocalStencil(offsets, coefficients, stabilized) == SellingStencil(D)
    ensures |offsets| == |coefficients| == 3
    ensures stabilized ==> forall k :: 0 <= k < 3 ==> coefficients[k] >= 0.0
  {
    var sb := NewSuperbase(2);
    InitialSuperbaseValid(2);
    stabilized := SellingLoop(D, sb, MaxIter);
    offsets, coefficients := ReadStencil2(D, sb);
    SellingStencilProperties(D);
  }

  /** The coefficient and offset loop of the 2D overload. */
  method ReadStencil2(D: Tensor, sb: array<Vec>) returns (offsets: seq<Vec>, coefficients: seq<real>)
    requires IsTensor(D, 2) && Shaped(sb[..], 2)
    ensures offsets == Offsets2(sb[..]) && coefficients == Coefficients2(D, sb[..])
  {
    ghost var s := sb[..];
    ghost var O, C := Offsets2(s), Coefficients2(D, s);
    offsets, coefficients := [], [];
    for i := 0 to 3
      invariant offsets == O[..i] && coefficients == C[..i]
    {
      assert (i + 1) % 3 == (if i == 2 then 0 else i + 1) && (i + 2) % 3 == (if i == 0 then 2 else i - 1);
      coefficients := coefficients + [-0.5 * ScalarProduct(D, sb[(i + 1) % 3], sb[(i + 2) % 3])];
      offsets := offsets + [[-sb[i][1], sb[i][0]]];
      assert C[..i + 1] == C[..i] + [C[i]] && O[..i + 1] == O[..i] + [O[i]];
    }
    assert O[..3] == O && C[..3] == C;
  }

  /** The 3D Stencil overload: weights in a symmetric 4 x 4 tensor, offsets
      from the comatrix of the first three superbase vectors. */
  method Stencil3(D: Tensor) returns (offsets: seq<Vec>, coefficients: seq<real>, stabilized: bool)
    requires IsTensor(D, 3)
    ensures LocalStencil(offsets, coefficients, stabilized) == SellingStencil(D)
    ensures |offsets| == |coefficients| == 6
    ensures stabilized ==> forall k :: 0 <= k < 6 ==> coefficients[k] >= 0.0
  {
    var sb := NewSuperbase(3);
    InitialSuperbaseValid(3);
    stabilized := SellingLoop(D, sb, MaxIter);
    offsets, coefficients := ReadStencil3(D, sb);
    SellingStencilProperties(D);
  }

  /** The weight, comatrix and coefficient loops of the 3D overload. */
  method ReadStencil3(D: Tensor, sb: array<Vec>) returns (offsets: seq<Vec>, coefficients: seq<real>)
    requires IsTensor(D, 3) && Shaped(sb[..], 3)
    ensures offsets == Offsets3(sb[..]) && coefficients == Coefficients3(D, sb[..])
  {
    ghost var s := sb[..];
    // Weights(i, j), i > j, is stored at (j, i).
    var weights := new real[4, 4];
    for i := 1 to 4
      invariant sb[..] == s
      invariant forall a, b :: 0 <= a < b < i ==> weights[a, b] == StoredWeight(D, s, a, b)
    {
      for j := 0 to i
        invariant sb[..] == s
        invariant forall a, b :: 0 <= a < b < i ==> weights[a, b] == StoredWeight(D, s, a, b)
        invariant forall a :: 0 <= a < j ==> weights[a, i] == StoredWeight(D, s, a, i)
      {
        weights[j, i] := -0.5 * ScalarProduct(D, sb[i], sb[j]);
      }
    }
    var rows: seq<Vec> := [];
    for i := 0 to 3
      invariant |rows| == i
      invariant forall k :: 0 <= k < i ==> |rows[k]| == 3
      invariant forall k, m :: 0 <= k < i && 0 <= m < 3 ==> rows[k][m] == Cofactor(s, k, m)
    {
      var row: Vec := [];
      for j := 0 to 3
        invariant |row| == j
        invariant forall m :: 0 <= m < j ==> row[m] == Cofactor(s, i, m)
      {
        row := row + [sb[(i + 1) % 3][(j + 1) % 3] * sb[(i + 2) % 3][(j + 2) % 3]
                      - sb[(i + 2) % 3][(j + 1) % 3] * sb[(i + 1) % 3][(j + 2) % 3]];
      }
      rows := rows + [row];
    }
    offsets := rows + [Sub(rows[0], rows[1]), Sub(rows[0], rows[2]), Sub(rows[1], rows[2])];
    assert rows[0] == CofactorRow(s, 0) && rows[1] == CofactorRow(s, 1) && rows[2] == CofactorRow(s, 2);
    assert offsets == Offsets3(s);
    coefficients := [];
    for i := 0 to 3
      invariant |coefficients| == i
      invariant forall k :: 0 <= k < i ==> coefficients[k] == StoredWeight(D, s, k, 3)
    {
      coefficients := coefficients + [weights[i, 3]];
    }
    coefficients := coefficients + [weights[0, 1], weights[0, 2], weights[1, 2]];
  }
}
