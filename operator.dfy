/** The operator the stencils define on the image buffer. Every slot of the
    stencil at point p whose target y is not the sentinel is an edge p -- y
    carrying the slot's coefficient. The diagonal coefficients of
    GenerateStencils add the coefficient to both endpoints; the off-diagonal
    pass of ImageUpdate adds c u[y] at p and c u[p] at y; FunctorType then
    blends that result with the previous image. Grid points are their linear
    indices 0 .. n-1, visited in the region's scan order. */
module Operator {
  import opened Stencils

  /** One non-sentinel slot: from the point to the slot's target, with its coefficient. */
  datatype Edge = Edge(point: int, target: int, weight: real)

  predicate StencilShaped(st: Stencil)
  {
    |st.first| == 2 * |st.second|
  }

  predicate FieldShaped(field: seq<Stencil>)
  {
    forall p :: 0 <= p < |field| ==> StencilShaped(field[p])
  }

  /** Every stencil of the field is well addressed in a buffer of n points. */
  predicate FieldAddressed(field: seq<Stencil>, n: nat)
  {
    forall p :: 0 <= p < |field| ==> WellAddressed(field[p], n)
  }

  /** The edges of the slots s < k of the stencil at point p, in slot order;
      slot s uses the coefficient second[s / 2], and sentinel slots give none. */
  function SlotEdges(p: int, st: Stencil, k: nat): seq<Edge>
    requires StencilShaped(st) && k <= |st.first|
  {
    if k == 0 then []
    else SlotEdges(p, st, k - 1)
         + (if st.first[k - 1] != OutsideBufferIndex then [Edge(p, st.first[k - 1], st.second[(k - 1) / 2])] else [])
  }

  /** The edges of the points p' < p, in the order the loops visit them. */
  function PointEdges(field: seq<Stencil>, p: nat): seq<Edge>
    requires FieldShaped(field) && p <= |field|
  {
    if p == 0 then [] else PointEdges(field, p - 1) + SlotEdges(p - 1, field[p - 1], |field[p - 1].first|)
  }

  /** All the edges of the stencil field. */
  function Edges(field: seq<Stencil>): seq<Edge>
    requires FieldShaped(field)
  {
    PointEdges(field, |field|)
  }

  predicate EdgesIn(E: seq<Edge>, n: nat)
  {
    forall k :: 0 <= k < |E| ==> 0 <= E[k].point < n && 0 <= E[k].target < n
  }

  predicate NonnegativeWeights(E: seq<Edge>)
  {
    forall k :: 0 <= k < |E| ==> E[k].weight >= 0.0
  }

  predicate NonnegativeCoefficients(field: seq<Stencil>)
  {
    forall p, k :: 0 <= p < |field| && 0 <= k < |field[p].second| ==> field[p].second[k] >= 0.0
  }

  /** Appending a stencil with nonnegative coefficients keeps them all nonnegative. */
  lemma NonnegativeAppend(field: seq<Stencil>, st: Stencil)
    requires NonnegativeCoefficients(field)
    requires forall c :: 0 <= c < |st.second| ==> st.second[c] >= 0.0
    ensures NonnegativeCoefficients(field + [st])
  {
    forall p, k | 0 <= p < |field| + 1 && 0 <= k < |(field + [st])[p].second|
      ensures (field + [st])[p].second[k] >= 0.0
    {
      if p == |field| {
        assert (field + [st])[p] == st;
      } else {
        assert (field + [st])[p] == field[p];
      }
    }
  }

  /** Appending a stencil addressed within n points to such a field. */
  lemma FieldAppend(field: seq<Stencil>, st: Stencil, n: nat)
    requires FieldShaped(field) && FieldAddressed(field, n) && WellAddressed(st, n)
    ensures FieldShaped(field + [st]) && FieldAddressed(field + [st], n)
    ensures (field + [st])[|field|] == st && forall p :: 0 <= p < |field| ==> (field + [st])[p] == field[p]
  {
  }

  lemma EdgesInAppend(A: seq<Edge>, B: seq<Edge>, n: nat)
    requires EdgesIn(A, n) && EdgesIn(B, n)
    ensures EdgesIn(A + B, n)
  {
    forall k | 0 <= k < |A + B|
      ensures 0 <= (A + B)[k].point < n && 0 <= (A + B)[k].target < n
    {
      if k < |A| {
        assert (A + B)[k] == A[k];
      } else {
        assert (A + B)[k] == B[k - |A|];
      }
    }
  }

  lemma NonnegativeWeightsAppend(A: seq<Edge>, B: seq<Edge>)
    requires NonnegativeWeights(A) && NonnegativeWeights(B)
    ensures NonnegativeWeights(A + B)
  {
    forall k | 0 <= k < |A + B|
      ensures (A + B)[k].weight >= 0.0
    {
      if k < |A| {
        assert (A + B)[k] == A[k];
      } else {
        assert (A + B)[k] == B[k - |A|];
      }
    }
  }

  lemma {:induction false} SlotEdgesIn(p: int, st: Stencil, k: nat, n: nat)
    requires WellAddressed(st, n) && k <= |st.first| && 0 <= p < n
    ensures EdgesIn(SlotEdges(p, st, k), n)
  {
    if k > 0 {
      SlotEdgesIn(p, st, k - 1, n);
      EdgesInAppend(SlotEdges(p, st, k - 1),
                    if st.first[k - 1] != OutsideBufferIndex then [Edge(p, st.first[k - 1], st.second[(k - 1) / 2])] else [], n);
    }
  }

  lemma {:induction false} SlotEdgesNonnegative(p: int, st: Stencil, k: nat)
    requires StencilShaped(st) && k <= |st.first|
    requires forall c :: 0 <= c < |st.second| ==> st.second[c] >= 0.0
    ensures NonnegativeWeights(SlotEdges(p, st, k))
  {
    if k > 0 {
      SlotEdgesNonnegative(p, st, k - 1);
      NonnegativeWeightsAppend(SlotEdges(p, st, k - 1),
                               if st.first[k - 1] != OutsideBufferIndex then [Edge(p, st.first[k - 1], st.second[(k - 1) / 2])] else []);
    }
  }

  /** The edges of the first p points stay inside the buffer. */
  lemma {:induction false} PointEdgesIn(field: seq<Stencil>, p: nat)
    requires FieldShaped(field) && FieldAddressed(field, |field|) && p <= |field|
    ensures EdgesIn(PointEdges(field, p), |field|)
  {
    if p > 0 {
      PointEdgesIn(field, p - 1);
      SlotEdgesIn(p - 1, field[p - 1], |field[p - 1].first|, |field|);
      EdgesInAppend(PointEdges(field, p - 1), SlotEdges(p - 1, field[p - 1], |field[p - 1].first|), |field|);
    }
  }

  /** Nonnegative stencil coefficients give nonnegative edge weights. */
  lemma {:induction false} PointEdgesNonnegative(field: seq<Stencil>, p: nat)
    requires FieldShaped(field) && NonnegativeCoefficients(field) && p <= |field|
    ensures NonnegativeWeights(PointEdges(field, p))
  {
    if p > 0 {
      PointEdgesNonnegative(field, p - 1);
      SlotEdgesNonnegative(p - 1, field[p - 1], |field[p - 1].first|);
      NonnegativeWeightsAppend(PointEdges(field, p - 1), SlotEdges(p - 1, field[p - 1], |field[p - 1].first|));
    }
  }


  // ---------------------------------------------------------------------
  // Where the loops over points and slots are in the list of edges.

  predicate IsPrefix(a: seq<Edge>, b: seq<Edge>)
  {
    |a| <= |b| && forall k :: 0 <= k < |a| ==> a[k] == b[k]
  }

  lemma {:induction false} SlotEdgesPrefix(p: int, st: Stencil, i: nat, j: nat)
    requires StencilShaped(st) && i <= j <= |st.first|
    ensures IsPrefix(SlotEdges(p, st, i), SlotEdges(p, st, j))
    decreases j - i
  {
    if i < j {
      SlotEdgesPrefix(p, st, i + 1, j);
      assert IsPrefix(SlotEdges(p, st, i), SlotEdges(p, st, i + 1));
    }
  }

  lemma {:induction false} PointEdgesPrefix(field: seq<Stencil>, p: nat, p': nat)
    requires FieldShaped(field) && p <= p' <= |field|
    ensures IsPrefix(PointEdges(field, p), PointEdges(field, p'))
    decreases p' - p
  {
    if p < p' {
      PointEdgesPrefix(field, p + 1, p');
      assert IsPrefix(PointEdges(field, p), PointEdges(field, p + 1));
    }
  }

  /** The edges of point p come after those of the points before it. */
  lemma PointEdgesGrow(field: seq<Stencil>, p: nat)
    requires FieldShaped(field) && p < |field|
    ensures |PointEdges(field, p)| <= |PointEdges(field, p + 1)| <= |Edges(field)|
  {
    PointEdgesPrefix(field, p, p + 1);
    PointEdgesPrefix(field, p + 1, |field|);
  }

  /** The number of edges the loops have visited before slot i of point p. */
  function Cursor(field: seq<Stencil>, p: nat, i: nat): nat
    requires FieldShaped(field) && p < |field| && i <= |field[p].first|
  {
    |PointEdges(field, p)| + |SlotEdges(p, field[p], i)|
  }

  /** A sentinel slot adds no edge; any other slot of point p adds the edge from p
      to the slot's address with the coefficient second[i / 2], next in Edges(field). */
  lemma NextEdge(field: seq<Stencil>, p: nat, i: nat)
    requires FieldShaped(field) && p < |field| && i < |field[p].first|
    ensures var st := field[p];
            && Cursor(field, p, i + 1) == Cursor(field, p, i) + (if st.first[i] != OutsideBufferIndex then 1 else 0)
            && (st.first[i] != OutsideBufferIndex ==>
                  Cursor(field, p, i) < |Edges(field)|
                  && Edges(field)[Cursor(field, p, i)] == Edge(p, st.first[i], st.second[i / 2]))
  {
    var st := field[p];
    if st.first[i] != OutsideBufferIndex {
      var k := Cursor(field, p, i);
      SlotEdgesPrefix(p, st, i + 1, |st.first|);
      PointEdgesPrefix(field, p + 1, |field|);
      assert SlotEdges(p, st, i + 1)[|SlotEdges(p, st, i)|] == Edge(p, st.first[i], st.second[i / 2]);
      assert PointEdges(field, p + 1) == PointEdges(field, p) + SlotEdges(p, st, |st.first|);
      assert PointEdges(field, p + 1)[k] == Edge(p, st.first[i], st.second[i / 2]);
    }
  }

  /** The last slot of point p ends where the edges of the first p + 1 points end. */
  lemma CursorEnd(field: seq<Stencil>, p: nat)
    requires FieldShaped(field) && p < |field|
    ensures Cursor(field, p, 0) == |PointEdges(field, p)|
    ensures Cursor(field, p, |field[p].first|) == |PointEdges(field, p + 1)|
  {
  }

  // ---------------------------------------------------------------------
  // Sums over a buffer. Every recursion below runs over a count k of a fixed
  // sequence, so that no two slices have to be compared.

  function Zeros(n: nat): (z: seq<real>)
    ensures |z| == n
  {
    seq(n, _ => 0.0)
  }

  /** s[0] + ... + s[k-1]. */
  function SumTo(s: seq<real>, k: nat): real
    requires k <= |s|
  {
    if k == 0 then 0.0 else SumTo(s, k - 1) + s[k - 1]
  }

  function Sum(s: seq<real>): real
  {
    SumTo(s, |s|)
  }

  function Scale(c: real, s: seq<real>): (t: seq<real>)
    ensures |t| == |s|
  {
    seq(|s|, i requires 0 <= i < |s| => c * s[i])
  }

  /** The pointwise product d[q] u[q]. */
  function Weighted(d: seq<real>, u: seq<real>): (t: seq<real>)
    requires |d| == |u|
    ensures |t| == |u|
  {
    seq(|u|, q requires 0 <= q < |u| => d[q] * u[q])
  }

  lemma {:induction false} SumOfZeros(n: nat, k: nat)
    requires k <= n
    ensures SumTo(Zeros(n), k) == 0.0
  {
    if k > 0 {
      SumOfZeros(n, k - 1);
    }
  }

  lemma ScaleStep(c: real, a: real, x: real)
    ensures c * a + c * x == c * (a + x)
  {
  }

  /** Sum(c s) == c Sum(s). */
  lemma {:induction false} SumScale(c: real, s: seq<real>, k: nat)
    requires k <= |s|
    ensures SumTo(Scale(c, s), k) == c * SumTo(s, k)
  {
    if k > 0 {
      SumScale(c, s, k - 1);
      ScaleStep(c, SumTo(s, k - 1), s[k - 1]);
    }
  }

  /** The sum is monotonic. */
  lemma {:induction false} SumBelow(a: seq<real>, b: seq<real>, k: nat)
    requires k <= |a| == |b| && forall i :: 0 <= i < |a| ==> a[i] <= b[i]
    ensures SumTo(a, k) <= SumTo(b, k)
  {
    if k > 0 {
      SumBelow(a, b, k - 1);
      assert a[k - 1] <= b[k - 1];
    }
  }

  lemma SumAtLeast(a: seq<real>, b: seq<real>, lo: real)
    requires |a| == |b| && forall i :: 0 <= i < |a| ==> lo * b[i] <= a[i]
    ensures lo * Sum(b) <= Sum(a)
  {
    SumScale(lo, b, |b|);
    forall i | 0 <= i < |a|
      ensures Scale(lo, b)[i] <= a[i]
    {
    }
    SumBelow(Scale(lo, b), a, |a|);
  }

  lemma SumAtMost(a: seq<real>, b: seq<real>, hi: real)
    requires |a| == |b| && forall i :: 0 <= i < |a| ==> a[i] <= hi * b[i]
    ensures Sum(a) <= hi * Sum(b)
  {
    SumScale(hi, b, |b|);
    forall i | 0 <= i < |a|
      ensures a[i] <= Scale(hi, b)[i]
    {
    }
    SumBelow(a, Scale(hi, b), |a|);
  }

  /** Adding x at i adds x to every partial sum that reaches i. */
  lemma {:induction false} SumAdd(s: seq<real>, i: nat, x: real, t: seq<real>, k: nat)
    requires i < |s| && t == s[i := s[i] + x] && k <= |s|
    ensures SumTo(t, k) == SumTo(s, k) + (if i < k then x else 0.0)
  {
    if k > 0 {
      SumAdd(s, i, x, t, k - 1);
    }
  }

  // ---------------------------------------------------------------------
  // The scatter loops, edge by edge.

  /** Adds x at i, then y at j: the two "+=" of one slot. */
  function Bump(s: seq<real>, i: int, x: real, j: int, y: real): (t: seq<real>)
    requires 0 <= i < |s| && 0 <= j < |s|
    ensures |t| == |s|
  {
    var a := s[i := s[i] + x];
    a[j := a[j] + y]
  }

  lemma BumpAt(s: seq<real>, i: int, x: real, j: int, y: real, q: int)
    requires 0 <= i < |s| && 0 <= j < |s| && 0 <= q < |s|
    ensures Bump(s, i, x, j, y)[q] == s[q] + (if q == i then x else 0.0) + (if q == j then y else 0.0)
  {
  }

  lemma SumBump(s: seq<real>, i: int, x: real, j: int, y: real)
    requires 0 <= i < |s| && 0 <= j < |s|
    ensures Sum(Bump(s, i, x, j, y)) == Sum(s) + x + y
  {
    var a := s[i := s[i] + x];
    SumAdd(s, i, x, a, |s|);
    SumAdd(a, j, y, a[j := a[j] + y], |s|);
  }

  /** GenerateStencils: diagIt.Value() += c; diagBuffer[yIndex] += c, for the
      first k edges of E, starting from a zero buffer of n points. */
  function ScatterDiagonal(E: seq<Edge>, n: nat, k: nat): (diag: seq<real>)
    requires EdgesIn(E, n) && k <= |E|
    ensures |diag| == n
  {
    if k == 0 then Zeros(n)
    else Bump(ScatterDiagonal(E, n, k - 1), E[k - 1].point, E[k - 1].weight, E[k - 1].target, E[k - 1].weight)
  }

  /** ImageUpdate: outputIt.Value() += c u[yIndex]; outputBuffer[yIndex] += c u[point],
      for the first k edges of E, starting from a zero buffer. */
  function ScatterOffDiagonal(E: seq<Edge>, u: seq<real>, k: nat): (v: seq<real>)
    requires EdgesIn(E, |u|) && k <= |E|
    ensures |v| == |u|
  {
    if k == 0 then Zeros(|u|)
    else Bump(ScatterOffDiagonal(E, u, k - 1), E[k - 1].point, E[k - 1].weight * u[E[k - 1].target],
              E[k - 1].target, E[k - 1].weight * u[E[k - 1].point])
  }

  // The unfoldings below name the last edge e and its two products as the
  // callers do.

  lemma ScatterDiagonalLast(E: seq<Edge>, n: nat, k: nat, e: Edge)
    requires EdgesIn(E, n) && 0 < k <= |E| && e == E[k - 1]
    ensures 0 <= e.point < n && 0 <= e.target < n
    ensures ScatterDiagonal(E, n, k) == Bump(ScatterDiagonal(E, n, k - 1), e.point, e.weight, e.target, e.weight)
  {
  }

  lemma ScatterOffDiagonalLast(E: seq<Edge>, u: seq<real>, k: nat, e: Edge, x: real, y: real)
    requires EdgesIn(E, |u|) && 0 < k <= |E| && e == E[k - 1]
    requires 0 <= e.point < |u| && 0 <= e.target < |u| && x == e.weight * u[e.target] && y == e.weight * u[e.point]
    ensures ScatterOffDiagonal(E, u, k) == Bump(ScatterOffDiagonal(E, u, k - 1), e.point, x, e.target, y)
  {
    assert E[k - 1].weight * u[E[k - 1].target] == x && E[k - 1].weight * u[E[k - 1].point] == y;
  }

  /** One more edge Edge(p, y, c) adds c at p and at y to the diagonal. */
  lemma ScatterDiagonalNext(E: seq<Edge>, n: nat, k: nat, p: int, y: int, c: real, before: seq<real>, after: seq<real>)
    requires EdgesIn(E, n) && k < |E| && E[k] == Edge(p, y, c) && 0 <= p < n && 0 <= y < n
    requires before == ScatterDiagonal(E, n, k) && after == Bump(before, p, c, y, c)
    ensures after == ScatterDiagonal(E, n, k + 1)
  {
    ScatterDiagonalLast(E, n, k + 1, E[k]);
  }

  /** One more edge Edge(p, y, c) adds c u[y] at p and c u[p] at y. */
  lemma ScatterOffDiagonalNext(E: seq<Edge>, u: seq<real>, k: nat, p: int, y: int, c: real,
                               x: real, z: real, before: seq<real>, after: seq<real>)
    requires EdgesIn(E, |u|) && k < |E| && E[k] == Edge(p, y, c) && 0 <= p < |u| && 0 <= y < |u|
    requires x == c * u[y] && z == c * u[p]
    requires before == ScatterOffDiagonal(E, u, k) && after == Bump(before, p, x, y, z)
    ensures after == ScatterOffDiagonal(E, u, k + 1)
  {
    ScatterOffDiagonalLast(E, u, k + 1, E[k], x, z);
  }

  // ---------------------------------------------------------------------
  // What the passes compute, point by point.

  /** The weight of e at q: once for each endpoint of e that is q. */
  function Incidence(e: Edge, q: int): real
  {
    (if q == e.point then e.weight else 0.0) + (if q == e.target then e.weight else 0.0)
  }

  /** What e contributes at q: the weight times the value at the other end. */
  function Flow(e: Edge, u: seq<real>, q: int): real
    requires 0 <= e.point < |u| && 0 <= e.target < |u|
  {
    (if q == e.point then e.weight * u[e.target] else 0.0) + (if q == e.target then e.weight * u[e.point] else 0.0)
  }

  function Incidences(E: seq<Edge>, q: int): (s: seq<real>)
    ensures |s| == |E|
  {
    seq(|E|, k requires 0 <= k < |E| => Incidence(E[k], q))
  }

  function Flows(E: seq<Edge>, u: seq<real>, q: int): (s: seq<real>)
    requires EdgesIn(E, |u|)
    ensures |s| == |E|
  {
    seq(|E|, k requires 0 <= k < |E| => Flow(E[k], u, q))
  }

  /** The coefficient mass incident on q. */
  function Mass(E: seq<Edge>, q: int): real
  {
    Sum(Incidences(E, q))
  }

  /** The symmetric sparse matrix-vector product at q. */
  function Inflow(E: seq<Edge>, u: seq<real>, q: int): real
    requires EdgesIn(E, |u|)
  {
    Sum(Flows(E, u, q))
  }

  /** The diagonal coefficients: the mass incident on every point. */
  function Diagonal(E: seq<Edge>, n: nat): (diag: seq<real>)
    ensures |diag| == n
  {
    seq(n, q requires 0 <= q < n => Mass(E, q))
  }

  /** The off-diagonal product at every point. */
  function OffDiagonal(E: seq<Edge>, u: seq<real>): (v: seq<real>)
    requires EdgesIn(E, |u|)
    ensures |v| == |u|
  {
    seq(|u|, q requires 0 <= q < |u| => Inflow(E, u, q))
  }

  lemma {:induction false} ScatterDiagonalAt(E: seq<Edge>, n: nat, k: nat, q: nat)
    requires EdgesIn(E, n) && k <= |E| && q < n
    ensures ScatterDiagonal(E, n, k)[q] == SumTo(Incidences(E, q), k)
  {
    if k > 0 {
      var e := E[k - 1];
      ScatterDiagonalLast(E, n, k, e);
      ScatterDiagonalAt(E, n, k - 1, q);
      BumpAt(ScatterDiagonal(E, n, k - 1), e.point, e.weight, e.target, e.weight, q);
      assert Incidences(E, q)[k - 1] == Incidence(e, q);
    }
  }

  /** The diagonal loop of GenerateStencils computes the incident mass of every point. */
  lemma ScatterDiagonalIsDiagonal(E: seq<Edge>, n: nat)
    requires EdgesIn(E, n)
    ensures ScatterDiagonal(E, n, |E|) == Diagonal(E, n)
  {
    forall q | 0 <= q < n
      ensures ScatterDiagonal(E, n, |E|)[q] == Diagonal(E, n)[q]
    {
      ScatterDiagonalAt(E, n, |E|, q);
    }
  }

  lemma {:induction false} ScatterOffDiagonalAt(E: seq<Edge>, u: seq<real>, k: nat, q: nat)
    requires EdgesIn(E, |u|) && k <= |E| && q < |u|
    ensures ScatterOffDiagonal(E, u, k)[q] == SumTo(Flows(E, u, q), k)
  {
    if k > 0 {
      var e := E[k - 1];
      var x, y := e.weight * u[e.target], e.weight * u[e.point];
      ScatterOffDiagonalLast(E, u, k, e, x, y);
      ScatterOffDiagonalAt(E, u, k - 1, q);
      BumpAt(ScatterOffDiagonal(E, u, k - 1), e.point, x, e.target, y, q);
      assert Flows(E, u, q)[k - 1] == Flow(e, u, q);
    }
  }

  /** The scatter loop of ImageUpdate computes the symmetric product at every point. */
  lemma ScatterOffDiagonalIsOffDiagonal(E: seq<Edge>, u: seq<real>)
    requires EdgesIn(E, |u|)
    ensures ScatterOffDiagonal(E, u, |E|) == OffDiagonal(E, u)
  {
    forall q | 0 <= q < |u|
      ensures ScatterOffDiagonal(E, u, |E|)[q] == OffDiagonal(E, u)[q]
    {
      ScatterOffDiagonalAt(E, u, |E|, q);
    }
  }

  lemma MassNonnegative(E: seq<Edge>, q: int)
    requires NonnegativeWeights(E)
    ensures Mass(E, q) >= 0.0
  {
    forall k | 0 <= k < |E|
      ensures Zeros(|E|)[k] <= Incidences(E, q)[k]
    {
    }
    SumBelow(Zeros(|E|), Incidences(E, q), |E|);
    SumOfZeros(|E|, |E|);
  }

  /** With nonnegative coefficients every diagonal coefficient is nonnegative. */
  lemma DiagonalNonnegative(E: seq<Edge>, n: nat)
    requires NonnegativeWeights(E)
    ensures forall q :: 0 <= q < n ==> Diagonal(E, n)[q] >= 0.0
  {
    forall q | 0 <= q < n
      ensures Diagonal(E, n)[q] >= 0.0
    {
      MassNonnegative(E, q);
    }
  }

  lemma FlowOfConstant(e: Edge, u: seq<real>, c: real, q: int)
    requires 0 <= e.point < |u| && 0 <= e.target < |u| && u[e.point] == c && u[e.target] == c
    ensures Flow(e, u, q) == c * Incidence(e, q)
  {
  }

  /** On a constant image every edge's flow at q is the value times its incidence. */
  lemma FlowsOfConstant(E: seq<Edge>, u: seq<real>, c: real, q: int)
    requires EdgesIn(E, |u|) && forall i :: 0 <= i < |u| ==> u[i] == c
    ensures Flows(E, u, q) == Scale(c, Incidences(E, q))
  {
    forall k | 0 <= k < |E|
      ensures Flows(E, u, q)[k] == Scale(c, Incidences(E, q))[k]
    {
      FlowOfConstant(E[k], u, c, q);
    }
  }

  /** On a constant image the inflow at q is the value times the mass at q. */
  lemma InflowOfConstant(E: seq<Edge>, u: seq<real>, c: real, q: int)
    requires EdgesIn(E, |u|) && forall i :: 0 <= i < |u| ==> u[i] == c
    ensures Inflow(E, u, q) == c * Mass(E, q)
  {
    FlowsOfConstant(E, u, c, q);
    SumScale(c, Incidences(E, q), |E|);
  }

  lemma ScaleAtLeast(w: real, lo: real, x: real)
    requires w >= 0.0 && lo <= x
    ensures lo * w <= w * x
  {
    assert w * (x - lo) >= 0.0;
  }

  lemma FlowAtLeast(e: Edge, u: seq<real>, lo: real, q: int)
    requires 0 <= e.point < |u| && 0 <= e.target < |u| && e.weight >= 0.0
    requires lo <= u[e.point] && lo <= u[e.target]
    ensures lo * Incidence(e, q) <= Flow(e, u, q)
  {
    var w := e.weight;
    ScaleAtLeast(w, lo, u[e.target]);
    ScaleAtLeast(w, lo, u[e.point]);
    if q == e.point && q == e.target {
      assert lo * Incidence(e, q) == lo * w + lo * w;
    }
  }

  lemma FlowAtMost(e: Edge, u: seq<real>, hi: real, q: int)
    requires 0 <= e.point < |u| && 0 <= e.target < |u| && e.weight >= 0.0
    requires u[e.point] <= hi && u[e.target] <= hi
    ensures Flow(e, u, q) <= hi * Incidence(e, q)
  {
    var w := e.weight;
    ScaleAtLeast(w, u[e.target], hi);
    ScaleAtLeast(w, u[e.point], hi);
    if q == e.point && q == e.target {
      assert hi * Incidence(e, q) == hi * w + hi * w;
    }
  }

  lemma InflowAtLeast(E: seq<Edge>, u: seq<real>, lo: real, q: int)
    requires EdgesIn(E, |u|) && NonnegativeWeights(E)
    requires forall i :: 0 <= i < |u| ==> lo <= u[i]
    ensures lo * Mass(E, q) <= Inflow(E, u, q)
  {
    forall k | 0 <= k < |E|
      ensures lo * Incidences(E, q)[k] <= Flows(E, u, q)[k]
    {
      FlowAtLeast(E[k], u, lo, q);
    }
    SumAtLeast(Flows(E, u, q), Incidences(E, q), lo);
  }

  lemma InflowAtMost(E: seq<Edge>, u: seq<real>, hi: real, q: int)
    requires EdgesIn(E, |u|) && NonnegativeWeights(E)
    requires forall i :: 0 <= i < |u| ==> u[i] <= hi
    ensures Inflow(E, u, q) <= hi * Mass(E, q)
  {
    forall k | 0 <= k < |E|
      ensures Flows(E, u, q)[k] <= hi * Incidences(E, q)[k]
    {
      FlowAtMost(E[k], u, hi, q);
    }
    SumAtMost(Flows(E, u, q), Incidences(E, q), hi);
  }

  // ---------------------------------------------------------------------
  // Totals of the passes.

  /** What the edge e adds to the total of either pass: w u[point] + w u[target]. */
  function EdgeFlux(e: Edge, u: seq<real>): real
    requires 0 <= e.point < |u| && 0 <= e.target < |u|
  {
    e.weight * u[e.point] + e.weight * u[e.target]
  }

  /** The flux of the first k edges. */
  function Flux(E: seq<Edge>, u: seq<real>, k: nat): real
    requires EdgesIn(E, |u|) && k <= |E|
  {
    if k == 0 then 0.0 else Flux(E, u, k - 1) + EdgeFlux(E[k - 1], u)
  }

  lemma EdgeFluxIs(e: Edge, u: seq<real>, x: real, y: real)
    requires 0 <= e.point < |u| && 0 <= e.target < |u|
    requires x == e.weight * u[e.target] && y == e.weight * u[e.point]
    ensures EdgeFlux(e, u) == x + y
  {
  }

  lemma {:induction false} SumScatterOffDiagonal(E: seq<Edge>, u: seq<real>, k: nat)
    requires EdgesIn(E, |u|) && k <= |E|
    ensures Sum(ScatterOffDiagonal(E, u, k)) == Flux(E, u, k)
  {
    if k == 0 {
      SumOfZeros(|u|, |u|);
    } else {
      var e := E[k - 1];
      var x, y := e.weight * u[e.target], e.weight * u[e.point];
      ScatterOffDiagonalLast(E, u, k, e, x, y);
      SumScatterOffDiagonal(E, u, k - 1);
      SumBump(ScatterOffDiagonal(E, u, k - 1), e.point, x, e.target, y);
      EdgeFluxIs(e, u, x, y);
    }
  }

  /** The off-diagonal product adds up to the flux of the edges. */
  lemma SumOffDiagonal(E: seq<Edge>, u: seq<real>)
    requires EdgesIn(E, |u|)
    ensures Sum(OffDiagonal(E, u)) == Flux(E, u, |E|)
  {
    ScatterOffDiagonalIsOffDiagonal(E, u);
    SumScatterOffDiagonal(E, u, |E|);
  }

  lemma Distribute(a: real, b: real, c: real)
    ensures (a + b) * c == a * c + b * c
  {
  }

  /** Adding x at i of the diagonal adds x u[i] at i of the weighted image. */
  lemma WeightedAdd(s: seq<real>, u: seq<real>, i: nat, x: real, t: seq<real>)
    requires |s| == |u| && i < |s| && t == s[i := s[i] + x]
    ensures Weighted(t, u) == Weighted(s, u)[i := Weighted(s, u)[i] + x * u[i]]
  {
    forall j | 0 <= j < |u|
      ensures Weighted(t, u)[j] == Weighted(s, u)[i := Weighted(s, u)[i] + x * u[i]][j]
    {
      if j == i {
        Distribute(s[i], x, u[i]);
      }
    }
  }

  lemma SumWeightedAdd(s: seq<real>, u: seq<real>, i: nat, x: real, t: seq<real>)
    requires |s| == |u| && i < |s| && t == s[i := s[i] + x]
    ensures Sum(Weighted(t, u)) == Sum(Weighted(s, u)) + x * u[i]
  {
    WeightedAdd(s, u, i, x, t);
    SumAdd(Weighted(s, u), i, x * u[i], Weighted(t, u), |u|);
  }

  lemma SumWeightedBump(s: seq<real>, u: seq<real>, e: Edge)
    requires |s| == |u| && 0 <= e.point < |u| && 0 <= e.target < |u|
    ensures Sum(Weighted(Bump(s, e.point, e.weight, e.target, e.weight), u)) == Sum(Weighted(s, u)) + EdgeFlux(e, u)
  {
    var a := s[e.point := s[e.point] + e.weight];
    var b := a[e.target := a[e.target] + e.weight];
    SumWeightedAdd(s, u, e.point, e.weight, a);
    SumWeightedAdd(a, u, e.target, e.weight, b);
    assert Bump(s, e.point, e.weight, e.target, e.weight) == b;
    EdgeFluxIs(e, u, e.weight * u[e.target], e.weight * u[e.point]);
  }

  lemma {:induction false} SumWeightedScatter(E: seq<Edge>, u: seq<real>, k: nat)
    requires EdgesIn(E, |u|) && k <= |E|
    ensures Sum(Weighted(ScatterDiagonal(E, |u|, k), u)) == Flux(E, u, k)
  {
    if k == 0 {
      assert Weighted(Zeros(|u|), u) == Zeros(|u|);
      SumOfZeros(|u|, |u|);
    } else {
      var e := E[k - 1];
      ScatterDiagonalLast(E, |u|, k, e);
      SumWeightedScatter(E, u, k - 1);
      SumWeightedBump(ScatterDiagonal(E, |u|, k - 1), u, e);
    }
  }

  /** The diagonal weights the image by the same flux. */
  lemma SumWeightedDiagonal(E: seq<Edge>, u: seq<real>)
    requires EdgesIn(E, |u|)
    ensures Sum(Weighted(Diagonal(E, |u|), u)) == Flux(E, u, |E|)
  {
    ScatterDiagonalIsDiagonal(E, |u|);
    SumWeightedScatter(E, u, |E|);
  }

  // ---------------------------------------------------------------------
  // FunctorType and one explicit step.

  /** FunctorType: output delta + input (1 - delta diag). */
  function Functor(delta: real, output: real, input: real, diag: real): real
  {
    output * delta + input * (1.0 - delta * diag)
  }

  /** A balanced output (diag times the input) gives the input back. */
  lemma FunctorBalanced(delta: real, input: real, diag: real)
    ensures Functor(delta, input * diag, input, diag) == input
  {
  }

  /** When 0 <= delta diag <= 1 and the output is at most hi diag, the blend
      of output and an input at most hi is at most hi. */
  lemma FunctorAtMost(delta: real, output: real, input: real, diag: real, hi: real)
    requires delta >= 0.0 && delta * diag <= 1.0 && output <= hi * diag && input <= hi
    ensures Functor(delta, output, input, diag) <= hi
  {
    var w := 1.0 - delta * diag;
    ScaleAtLeast(delta, output, hi * diag);
    ScaleAtLeast(w, input, hi);
    assert delta * (hi * diag) + w * hi == hi;
  }

  /** The same bound from below. */
  lemma FunctorAtLeast(delta: real, output: real, input: real, diag: real, lo: real)
    requires delta >= 0.0 && delta * diag <= 1.0 && lo * diag <= output && lo <= input
    ensures lo <= Functor(delta, output, input, diag)
  {
    var w := 1.0 - delta * diag;
    ScaleAtLeast(delta, lo * diag, output);
    ScaleAtLeast(w, lo, input);
    assert delta * (lo * diag) + w * lo == lo;
  }

  /** The in-place blend of the ternary functor filter. */
  function Blend(delta: real, output: seq<real>, input: seq<real>, diag: seq<real>): (v: seq<real>)
    requires |input| == |output| && |diag| == |output|
    ensures |v| == |output|
  {
    seq(|output|, q requires 0 <= q < |output| => Functor(delta, output[q], input[q], diag[q]))
  }

  /** ImageUpdate(delta) on the previous image u. */
  function Step(E: seq<Edge>, diag: seq<real>, delta: real, u: seq<real>): (v: seq<real>)
    requires EdgesIn(E, |u|) && |diag| == |u|
    ensures |v| == |u|
  {
    Blend(delta, OffDiagonal(E, u), u, diag)
  }

  /** k steps of ImageUpdateLoop, each followed by the swap of the buffers. */
  function Evolve(E: seq<Edge>, diag: seq<real>, delta: real, u: seq<real>, k: nat): (v: seq<real>)
    requires EdgesIn(E, |u|) && |diag| == |u|
    ensures |v| == |u|
  {
    if k == 0 then u else Step(E, diag, delta, Evolve(E, diag, delta, u, k - 1))
  }

  /** One more step of the schedule: the step applied to the image after k steps. */
  lemma EvolveNext(E: seq<Edge>, diag: seq<real>, delta: real, u: seq<real>, k: nat, v: seq<real>, w: seq<real>)
    requires EdgesIn(E, |u|) && |diag| == |u|
    requires v == Evolve(E, diag, delta, u, k) && w == Step(E, diag, delta, v)
    ensures w == Evolve(E, diag, delta, u, k + 1)
  {
  }

  lemma {:induction false} SumBlendTo(delta: real, output: seq<real>, input: seq<real>, diag: seq<real>, k: nat)
    requires |input| == |output| && |diag| == |output| && k <= |output|
    ensures SumTo(Blend(delta, output, input, diag), k)
            == delta * SumTo(output, k) + SumTo(input, k) - delta * SumTo(Weighted(diag, input), k)
  {
    if k > 0 {
      var m := k - 1;
      SumBlendTo(delta, output, input, diag, m);
      BlendTerm(delta, output[m], input[m], diag[m], SumTo(output, m), SumTo(input, m), SumTo(Weighted(diag, input), m));
    }
  }

  lemma BlendTerm(delta: real, o: real, i: real, d: real, so: real, si: real, sw: real)
    ensures delta * so + si - delta * sw + Functor(delta, o, i, d) == delta * (so + o) + (si + i) - delta * (sw + d * i)
  {
  }

  /** The blend adds delta times the output and takes delta times the weighted input. */
  lemma SumBlend(delta: real, output: seq<real>, input: seq<real>, diag: seq<real>)
    requires |input| == |output| && |diag| == |output|
    ensures Sum(Blend(delta, output, input, diag)) == delta * Sum(output) + Sum(input) - delta * Sum(Weighted(diag, input))
  {
    SumBlendTo(delta, output, input, diag, |output|);
  }

  /** The value of one step at q. */
  lemma StepAt(E: seq<Edge>, delta: real, u: seq<real>, q: nat)
    requires EdgesIn(E, |u|) && q < |u|
    ensures Step(E, Diagonal(E, |u|), delta, u)[q] == Functor(delta, Inflow(E, u, q), u[q], Mass(E, q))
  {
  }

  lemma StepFixesConstantAt(E: seq<Edge>, delta: real, u: seq<real>, c: real, q: nat)
    requires EdgesIn(E, |u|) && q < |u| && forall i :: 0 <= i < |u| ==> u[i] == c
    ensures Step(E, Diagonal(E, |u|), delta, u)[q] == c
  {
    assert u[q] == c;
    StepAt(E, delta, u, q);
    InflowOfConstant(E, u, c, q);
    FunctorBalanced(delta, c, Mass(E, q));
  }

  /** A constant image is a fixed point of one step. */
  lemma StepFixesConstant(E: seq<Edge>, delta: real, u: seq<real>, c: real)
    requires EdgesIn(E, |u|) && forall i :: 0 <= i < |u| ==> u[i] == c
    ensures Step(E, Diagonal(E, |u|), delta, u) == u
  {
    forall q | 0 <= q < |u|
      ensures Step(E, Diagonal(E, |u|), delta, u)[q] == u[q]
    {
      StepFixesConstantAt(E, delta, u, c, q);
    }
  }

  /** One step preserves the sum of the image. */
  lemma StepConservesSum(E: seq<Edge>, delta: real, u: seq<real>)
    requires EdgesIn(E, |u|)
    ensures Sum(Step(E, Diagonal(E, |u|), delta, u)) == Sum(u)
  {
    SumBlend(delta, OffDiagonal(E, u), u, Diagonal(E, |u|));
    SumOffDiagonal(E, u);
    SumWeightedDiagonal(E, u);
  }

  lemma StepWithinRangeAt(E: seq<Edge>, delta: real, u: seq<real>, lo: real, hi: real, q: nat)
    requires EdgesIn(E, |u|) && NonnegativeWeights(E) && delta >= 0.0 && q < |u|
    requires delta * Mass(E, q) <= 1.0
    requires forall i :: 0 <= i < |u| ==> lo <= u[i] <= hi
    ensures lo <= Step(E, Diagonal(E, |u|), delta, u)[q] <= hi
  {
    StepAt(E, delta, u, q);
    InflowAtLeast(E, u, lo, q);
    InflowAtMost(E, u, hi, q);
    FunctorAtMost(delta, Inflow(E, u, q), u[q], Mass(E, q), hi);
    FunctorAtLeast(delta, Inflow(E, u, q), u[q], Mass(E, q), lo);
  }

  /** Maximum principle: with nonnegative coefficients and 0 <= delta diag <= 1,
      one step maps an image with values in [lo, hi] to one with values in [lo, hi]. */
  lemma StepWithinRange(E: seq<Edge>, delta: real, u: seq<real>, lo: real, hi: real)
    requires EdgesIn(E, |u|) && NonnegativeWeights(E) && delta >= 0.0
    requires forall q :: 0 <= q < |u| ==> delta * Diagonal(E, |u|)[q] <= 1.0
    requires forall i :: 0 <= i < |u| ==> lo <= u[i] <= hi
    ensures forall q :: 0 <= q < |u| ==> lo <= Step(E, Diagonal(E, |u|), delta, u)[q] <= hi
  {
    forall q | 0 <= q < |u|
      ensures lo <= Step(E, Diagonal(E, |u|), delta, u)[q] <= hi
    {
      assert delta * Diagonal(E, |u|)[q] <= 1.0;
      StepWithinRangeAt(E, delta, u, lo, hi, q);
    }
  }

  /** ImageUpdateLoop keeps a constant image constant. */
  lemma {:induction false} EvolveFixesConstant(E: seq<Edge>, delta: real, u: seq<real>, c: real, k: nat)
    requires EdgesIn(E, |u|) && forall i :: 0 <= i < |u| ==> u[i] == c
    ensures Evolve(E, Diagonal(E, |u|), delta, u, k) == u
  {
    if k > 0 {
      EvolveFixesConstant(E, delta, u, c, k - 1);
      StepFixesConstant(E, delta, u, c);
    }
  }

  /** ImageUpdateLoop preserves the sum of the image. */
  lemma {:induction false} EvolveConservesSum(E: seq<Edge>, delta: real, u: seq<real>, k: nat)
    requires EdgesIn(E, |u|)
    ensures Sum(Evolve(E, Diagonal(E, |u|), delta, u, k)) == Sum(u)
  {
    if k > 0 {
      EvolveConservesSum(E, delta, u, k - 1);
      StepConservesSum(E, delta, Evolve(E, Diagonal(E, |u|), delta, u, k - 1));
    }
  }

  /** ImageUpdateLoop keeps every value between the minimum and the maximum of the input. */
  lemma {:induction false} EvolveWithinRange(E: seq<Edge>, delta: real, u: seq<real>, lo: real, hi: real, k: nat)
    requires EdgesIn(E, |u|) && NonnegativeWeights(E) && delta >= 0.0
    requires forall q :: 0 <= q < |u| ==> delta * Diagonal(E, |u|)[q] <= 1.0
    requires forall i :: 0 <= i < |u| ==> lo <= u[i] <= hi
    ensures forall q :: 0 <= q < |u| ==> lo <= Evolve(E, Diagonal(E, |u|), delta, u, k)[q] <= hi
  {
    if k > 0 {
      EvolveWithinRange(E, delta, u, lo, hi, k - 1);
      StepWithinRange(E, delta, Evolve(E, Diagonal(E, |u|), delta, u, k - 1), lo, hi);
    }
  }
}
