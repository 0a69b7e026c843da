/** LinearAnisotropicDiffusionLBRImageFilter: one explicit scheme for
    du/dt = div(D grad u). GenerateStencils runs the stencil functor at every
    point of the requested region and accumulates the diagonal coefficients;
    ImageUpdate applies one step of the scheme to the previous image, and
    ImageUpdateLoop repeats it, swapping the two image buffers, as many times
    as the time-step schedule says. Images are buffers of the region's
    points in scan order: the point with linear index k is RegionPoint(region, k). */
module Diffusion {
  import opened Tensors
  import opened Selling
  import opened Regions
  import opened Stencils
  import opened Operator
  import opened Schedule

  /** What a setter does: store the value, or raise the filter's exception. */
  datatype Outcome = Success | Failure(message: string)

  /** The first k points of the stencil image UnaryFunctorWithIndexImageFilter
      produces: the functor's stencil at every point of the region, for the
      tensor at that point, in scan order. */
  function StencilImage(r: Region, inv: seq<real>, tensors: seq<Tensor>, k: nat): (field: seq<Stencil>)
    requires WellFormed(r) && IsDimension(|inv|) && |inv| == |r.index| && k <= |tensors|
    requires forall j :: 0 <= j < |tensors| ==> IsTensor(tensors[j], |inv|)
    ensures |field| == k && FieldShaped(field) && FieldAddressed(field, PixelCount(r))
  {
    seq(k, j requires 0 <= j < k => StencilAt(r, inv, tensors[j], RegionPoint(r, j)))
  }

  /** The functor's stencil at point k extends the image of the first k points. */
  lemma StencilImageNext(r: Region, inv: seq<real>, tensors: seq<Tensor>, k: nat, field: seq<Stencil>, st: Stencil)
    requires WellFormed(r) && IsDimension(|inv|) && |inv| == |r.index| && k < |tensors|
    requires forall j :: 0 <= j < |tensors| ==> IsTensor(tensors[j], |inv|)
    requires field == StencilImage(r, inv, tensors, k) && st == StencilAt(r, inv, tensors[k], RegionPoint(r, k))
    ensures field + [st] == StencilImage(r, inv, tensors, k + 1)
  {
    var next := StencilImage(r, inv, tensors, k + 1);
    forall j | 0 <= j < k + 1
      ensures (field + [st])[j] == next[j]
    {
      if j < k {
        assert field[j] == next[j];
      }
    }
  }

  /** a[i] += x, then a[j] += y: the two updates of one slot of a scatter. */
  method AddTwice(a: array<real>, i: int, x: real, j: int, y: real)
    requires 0 <= i < a.Length && 0 <= j < a.Length
    modifies a
    ensures a[..] == Bump(old(a[..]), i, x, j, y)
  {
    ghost var before := a[..];
    a[i] := a[i] + x;
    assert a[..] == before[i := before[i] + x];
    a[j] := a[j] + y;
  }

  /** diagBuffer[p] += c, then diagBuffer[y] += c: the k-th edge of the
      diagonal scatter, from p to y with the coefficient c. */
  method AddDiagonalEdge(diag: array<real>, ghost E: seq<Edge>, ghost k: nat, p: int, y: int, c: real)
    requires EdgesIn(E, diag.Length) && k < |E| && E[k] == Edge(p, y, c)
    requires diag[..] == ScatterDiagonal(E, diag.Length, k)
    modifies diag
    ensures diag[..] == ScatterDiagonal(E, diag.Length, k + 1)
  {
    assert 0 <= E[k].point < diag.Length && 0 <= E[k].target < diag.Length;
    ghost var before := diag[..];
    AddTwice(diag, p, c, y, c);
    ScatterDiagonalNext(E, diag.Length, k, p, y, c, before, diag[..]);
  }

  /** output[p] += c * input[y], then output[y] += c * input[p]: the k-th edge
      of the off-diagonal scatter, the exchange between p and its neighbour y. */
  method AddOffDiagonalEdge(output: array<real>, input: array<real>, ghost u: seq<real>,
                         ghost E: seq<Edge>, ghost k: nat, p: int, y: int, c: real)
    requires u == input[..] && output.Length == |u| && output != input
    requires EdgesIn(E, |u|) && k < |E| && E[k] == Edge(p, y, c)
    requires output[..] == ScatterOffDiagonal(E, u, k)
    modifies output
    ensures output[..] == ScatterOffDiagonal(E, u, k + 1)
  {
    assert 0 <= E[k].point < |u| && 0 <= E[k].target < |u|;
    var x, z := c * input[y], c * input[p];
    assert x == c * u[y] && z == c * u[p];
    ghost var before := output[..];
    AddTwice(output, p, x, y, z);
    ScatterOffDiagonalNext(E, u, k, p, y, c, x, z, before, output[..]);
  }

  /** Slot i of the stencil at p in the diagonal loop of GenerateStencils:
      unless its address y is the sentinel, it adds the slot's coefficient at p
      and at y. k counts the edges of the slots before it. */
  method DiagonalSlot(field: seq<Stencil>, diag: array<real>, p: nat, i: nat, ghost k: nat) returns (ghost k': nat)
    requires FieldShaped(field) && EdgesIn(Edges(field), |field|)
    requires p < |field| && i < |field[p].first| && diag.Length == |field|
    requires k == Cursor(field, p, i) && k <= |Edges(field)|
    requires diag[..] == ScatterDiagonal(Edges(field), |field|, k)
    modifies diag
    ensures k' == Cursor(field, p, i + 1) && k' <= |Edges(field)|
    ensures diag[..] == ScatterDiagonal(Edges(field), |field|, k')
  {
    NextEdge(field, p, i);
    var st := field[p];
    var y := st.first[i];
    k' := k;
    if y != OutsideBufferIndex {
      AddDiagonalEdge(diag, Edges(field), k, p, y, st.second[i / 2]);
      k' := k + 1;
    }
  }

  /** The diagonal loop of GenerateStencils at the point p, over the slots of
      its stencil. */
  method DiagonalOfPoint(field: seq<Stencil>, diag: array<real>, p: nat)
    requires FieldShaped(field) && EdgesIn(Edges(field), |field|)
    requires p < |field| && diag.Length == |field|
    requires |PointEdges(field, p)| <= |PointEdges(field, p + 1)| <= |Edges(field)|
    requires diag[..] == ScatterDiagonal(Edges(field), |field|, |PointEdges(field, p)|)
    modifies diag
    ensures diag[..] == ScatterDiagonal(Edges(field), |field|, |PointEdges(field, p + 1)|)
  {
    CursorEnd(field, p);
    ghost var k := |PointEdges(field, p)|;
    for i := 0 to |field[p].first|
      invariant k == Cursor(field, p, i) && k <= |Edges(field)|
      invariant diag[..] == ScatterDiagonal(Edges(field), |field|, k)
    {
      k := DiagonalSlot(field, diag, p, i, k);
    }
  }

  /** Slot i of the stencil at p in the scatter loop of ImageUpdate: unless its
      address y is the sentinel, it adds c * input[y] at p and c * input[p] at
      y, c the slot's coefficient. k counts the edges of the slots before it. */
  method OffDiagonalSlot(field: seq<Stencil>, output: array<real>, input: array<real>, ghost u: seq<real>,
                         p: nat, i: nat, ghost k: nat) returns (ghost k': nat)
    requires FieldShaped(field) && EdgesIn(Edges(field), |field|)
    requires p < |field| && i < |field[p].first|
    requires u == input[..] && output.Length == |field| && |u| == |field| && output != input
    requires k == Cursor(field, p, i) && k <= |Edges(field)|
    requires output[..] == ScatterOffDiagonal(Edges(field), u, k)
    modifies output
    ensures k' == Cursor(field, p, i + 1) && k' <= |Edges(field)|
    ensures output[..] == ScatterOffDiagonal(Edges(field), u, k')
  {
    NextEdge(field, p, i);
    var st := field[p];
    var y := st.first[i];
    k' := k;
    if y != OutsideBufferIndex {
      AddOffDiagonalEdge(output, input, u, Edges(field), k, p, y, st.second[i / 2]);
      k' := k + 1;
    }
  }

  /** The scatter loop of ImageUpdate at the point p, over the slots of its
      stencil. */
  method OffDiagonalOfPoint(field: seq<Stencil>, output: array<real>, input: array<real>, p: nat)
    requires FieldShaped(field) && EdgesIn(Edges(field), |field|)
    requires p < |field| && output.Length == |field| && input.Length == |field| && output != input
    requires |PointEdges(field, p)| <= |PointEdges(field, p + 1)| <= |Edges(field)|
    requires output[..] == ScatterOffDiagonal(Edges(field), input[..], |PointEdges(field, p)|)
    modifies output
    ensures output[..] == ScatterOffDiagonal(Edges(field), input[..], |PointEdges(field, p + 1)|)
  {
    ghost var u := input[..];
    CursorEnd(field, p);
    ghost var k := |PointEdges(field, p)|;
    for i := 0 to |field[p].first|
      invariant k == Cursor(field, p, i) && k <= |Edges(field)|
      invariant output[..] == ScatterOffDiagonal(Edges(field), u, k)
    {
      k := OffDiagonalSlot(field, output, input, u, p, i, k);
    }
  }

  /** FillBuffer(0). */
  method FillZero(a: array<real>)
    modifies a
    ensures a[..] == Zeros(a.Length)
  {
    for q := 0 to a.Length
      invariant forall j :: 0 <= j < q ==> a[j] == 0.0
    {
      a[q] := 0.0;
    }
  }

  /** The diagonal image of GenerateStencils: a new buffer filled with zeros,
      then the diagonal loop over every point of the region. */
  method DiagonalOf(field: seq<Stencil>) returns (diag: array<real>)
    requires FieldShaped(field) && EdgesIn(Edges(field), |field|)
    ensures fresh(diag) && diag[..] == Diagonal(Edges(field), |field|)
  {
    diag := new real[|field|];
    FillZero(diag);
    DiagonalLoop(field, diag);
  }

  /** The diagonal loop over every point of the region, from a zero buffer. */
  method DiagonalLoop(field: seq<Stencil>, diag: array<real>)
    requires FieldShaped(field) && EdgesIn(Edges(field), |field|)
    requires diag.Length == |field| && diag[..] == Zeros(|field|)
    modifies diag
    ensures diag[..] == Diagonal(Edges(field), |field|)
  {
    for p := 0 to |field|
      invariant |PointEdges(field, p)| <= |Edges(field)|
      invariant diag[..] == ScatterDiagonal(Edges(field), |field|, |PointEdges(field, p)|)
    {
      PointEdgesGrow(field, p);
      DiagonalOfPoint(field, diag, p);
    }
    ScatterDiagonalIsDiagonal(Edges(field), |field|);
  }

  /** The first two passes of ImageUpdate: output.FillBuffer(0), then the
      scatter over every point of the region. */
  method OffDiagonalProduct(field: seq<Stencil>, output: array<real>, input: array<real>)
    requires FieldShaped(field) && EdgesIn(Edges(field), |field|)
    requires output.Length == |field| && input.Length == |field| && output != input
    modifies output
    ensures output[..] == OffDiagonal(Edges(field), input[..])
  {
    FillZero(output);
    OffDiagonalLoop(field, output, input);
  }

  /** The scatter loop over every point of the region, from a zero buffer. */
  method OffDiagonalLoop(field: seq<Stencil>, output: array<real>, input: array<real>)
    requires FieldShaped(field) && EdgesIn(Edges(field), |field|)
    requires output.Length == |field| && input.Length == |field| && output != input
    requires output[..] == Zeros(|field|)
    modifies output
    ensures output[..] == OffDiagonal(Edges(field), input[..])
  {
    ghost var u := input[..];
    for p := 0 to |field|
      invariant |PointEdges(field, p)| <= |Edges(field)|
      invariant output[..] == ScatterOffDiagonal(Edges(field), u, |PointEdges(field, p)|)
    {
      PointEdgesGrow(field, p);
      OffDiagonalOfPoint(field, output, input, p);
    }
    ScatterOffDiagonalIsOffDiagonal(Edges(field), u);
  }

  /** The last pass of ImageUpdate, the ternary functor filter run in place on
      output: output[q] = FunctorType(output[q], input[q], diag[q]). */
  method BlendInPlace(delta: real, output: array<real>, input: array<real>, diag: array<real>)
    requires input.Length == output.Length && diag.Length == output.Length
    requires output != input && output != diag
    modifies output
    ensures output[..] == Blend(delta, old(output[..]), input[..], diag[..])
  {
    ghost var off := output[..];
    for q := 0 to output.Length
      invariant forall j :: 0 <= j < q ==> output[j] == Functor(delta, off[j], input[j], diag[j])
      invariant forall j :: q <= j < output.Length ==> output[j] == off[j]
    {
      output[q] := Functor(delta, output[q], input[q], diag[q]);
    }
  }

  class DiffusionFilter {
    var diffusionTime: real
    var ratio: real
    var maxSteps: int
    var effectiveTime: real
    var effectiveSteps: int
    var region: Region
    var stencils: seq<Stencil>
    var diagonal: array<real>
    var previous: array<real>
    var next: array<real>

    /** The stencils and the diagonal coefficients are those of the region. */
    predicate Ready()
      reads this`region, this`stencils, this`diagonal, diagonal
    {
      && WellFormed(region) && |stencils| == PixelCount(region)
      && FieldShaped(stencils) && FieldAddressed(stencils, |stencils|)
      && EdgesIn(Edges(stencils), |stencils|)
      && diagonal.Length == |stencils|
      && diagonal[..] == Diagonal(Edges(stencils), |stencils|)
    }

    /** What the constructor's defaults and the setters keep: a diffusion time
        of at least 0 and a ratio in ]0, 1]. */
    predicate Settings()
      reads this`diffusionTime, this`ratio
    {
      diffusionTime >= 0.0 && 0.0 < ratio <= 1.0
    }

    /** Two distinct image buffers of the region's size, apart from the diagonal. */
    predicate Buffers()
      reads this`stencils, this`previous, this`next, this`diagonal
    {
      && previous.Length == |stencils| && next.Length == |stencils| && diagonal.Length == |stencils|
      && previous != next && previous != diagonal && next != diagonal
    }

    /** The defaults: diffusion time 1, ratio 0.7, no diffusion time reached yet.
        maxSteps_ stands for the default number of steps the class declares. */
    constructor (maxSteps_: int)
      ensures diffusionTime == 1.0 && ratio == 0.7 && effectiveTime == 0.0 && maxSteps == maxSteps_
      ensures Settings()
    {
      diffusionTime := 1.0;
      ratio := 0.7;
      effectiveTime := 0.0;
      maxSteps := maxSteps_;
      effectiveSteps := 0;
      region := Region([], []);
      stencils := [];
      diagonal := new real[0];
      previous := new real[0];
      next := new real[0];
    }

    /** SetMaxDiffusionTime: a negative time is refused. */
    method SetMaxDiffusionTime(time: real) returns (outcome: Outcome)
      modifies this`diffusionTime
      ensures outcome.Success? <==> time >= 0.0
      ensures diffusionTime == if outcome.Success? then time else old(diffusionTime)
      ensures old(Settings()) ==> Settings()
    {
      if time < 0.0 {
        return Failure("diffusion time must be finite and positive");
      }
      diffusionTime := time;
      return Success;
    }

    /** SetRatioToMaxStableTimeStep: the ratio must lie in ]0, 1]. */
    method SetRatioToMaxStableTimeStep(ratio_: real) returns (outcome: Outcome)
      modifies this`ratio
      ensures outcome.Success? <==> 0.0 < ratio_ <= 1.0
      ensures ratio == if outcome.Success? then ratio_ else old(ratio)
      ensures old(Settings()) ==> Settings()
    {
      if ratio_ <= 0.0 || ratio_ > 1.0 {
        return Failure("Ratio to max time step should be within ]0,1]");
      }
      ratio := ratio_;
      return Success;
    }

    /** SetMaxNumberOfTimeSteps: the number must be positive. */
    method SetMaxNumberOfTimeSteps(n: int) returns (outcome: Outcome)
      modifies this`maxSteps
      ensures outcome.Success? <==> n > 0
      ensures maxSteps == if outcome.Success? then n else old(maxSteps)
    {
      if n <= 0 {
        return Failure("Max number of time steps must be positive");
      }
      maxSteps := n;
      return Success;
    }

    /** GenerateStencils: the stencil image of the input tensors over the region,
        then the diagonal coefficients. stabilized tells whether Selling's loop
        stabilised at every point; then every coefficient is nonnegative. */
    method GenerateStencils(region_: Region, tensors: seq<Tensor>, spacing: seq<real>) returns (stabilized: bool)
      requires WellFormed(region_) && IsDimension(|region_.size|) && |spacing| == |region_.size|
      requires forall i :: 0 <= i < |spacing| ==> spacing[i] != 0.0
      requires |tensors| == PixelCount(region_) && forall k :: 0 <= k < |tensors| ==> IsTensor(tensors[k], |region_.size|)
      modifies this`region, this`stencils, this`diagonal
      ensures region == region_ && stencils == StencilImage(region_, Inverses(spacing), tensors, |tensors|)
      ensures fresh(diagonal) && Ready()
      ensures stabilized ==> NonnegativeCoefficients(stencils)
    {
      var functor := new StencilFunctor();
      functor.Initialize(region_, spacing);
      ghost var inv := Inverses(spacing);
      var n := PixelCount(region_);
      var field: seq<Stencil> := [];
      stabilized := true;
      for k := 0 to n
        invariant functor.Valid() && functor.region == region_ && functor.invSpacing == inv
        invariant field == StencilImage(region_, inv, tensors, k)
        invariant stabilized ==> NonnegativeCoefficients(field)
      {
        var st, ok := functor.Apply(tensors[k], RegionPoint(region_, k));
        if stabilized && ok {
          NonnegativeAppend(field, st);
        }
        StencilImageNext(region_, inv, tensors, k, field, st);
        field := field + [st];
        stabilized := stabilized && ok;
      }
      region := region_;
      stencils := field;
      AccumulateDiagonal();
    }

    /** The diagonal loop of GenerateStencils: from a zero buffer, every slot whose
        address is not the sentinel adds its coefficient at the point and at the address. */
    method AccumulateDiagonal()
      requires |stencils| == PixelCount(region) && WellFormed(region)
      requires FieldShaped(stencils) && FieldAddressed(stencils, |stencils|)
      modifies this`diagonal
      ensures fresh(diagonal) && Ready()
    {
      PointEdgesIn(stencils, |stencils|);
      diagonal := DiagonalOf(stencils);
    }

    /** ImageUpdate(delta): next = FunctorType(off-diagonal product of previous,
        previous, diagonal), the off-diagonal product accumulated slot by slot
        into next, then blended in place. */
    method ImageUpdate(delta: real)
      requires FieldShaped(stencils) && EdgesIn(Edges(stencils), |stencils|) && Buffers()
      modifies next
      ensures next[..] == Step(Edges(stencils), diagonal[..], delta, previous[..])
    {
      OffDiagonalProduct(stencils, next, previous);
      BlendInPlace(delta, next, previous, diagonal);
    }

    /** One pass of ImageUpdateLoop's loop: ImageUpdate, then the swap of the
        previous and the next image. */
    method Advance(delta: real, ghost E: seq<Edge>, ghost d: seq<real>, ghost v: seq<real>)
      requires FieldShaped(stencils) && E == Edges(stencils) && EdgesIn(E, |stencils|) && Buffers()
      requires d == diagonal[..] && v == previous[..]
      modifies this`previous, this`next, next
      ensures Buffers() && previous == old(next) && next == old(previous)
      ensures diagonal[..] == d && previous[..] == Step(E, d, delta, v)
    {
      ImageUpdate(delta);
      previous, next := next, previous;
    }

    /** ImageUpdateLoop: the schedule of StepPlan, then that many steps from the
        input image, each followed by the swap of the two buffers; the result is
        the last image computed. */
    method ImageUpdateLoop(input: seq<real>) returns (output: seq<real>)
      requires Ready() && |input| == |stencils| && |stencils| > 0 && Maximum(diagonal[..]) > 0.0
      requires Settings()
      modifies this`previous, this`next, this`effectiveTime, this`effectiveSteps
      ensures var plan := StepPlan(diffusionTime, ratio, maxSteps, MaxStableTimeStep(diagonal[..]));
              && effectiveSteps == plan.steps && effectiveTime == plan.effectiveTime
              && output == Evolve(Edges(stencils), diagonal[..], plan.delta, input, if plan.steps > 0 then plan.steps else 0)
    {
      var plan := StepPlan(diffusionTime, ratio, maxSteps, MaxStableTimeStep(diagonal[..]));
      output := RunSteps(plan.delta, plan.steps, input);
      effectiveTime := plan.effectiveTime;
      effectiveSteps := plan.steps;
    }

    /** The loop of ImageUpdateLoop: previous starts as the input image and next
        as a new buffer; each of the steps is ImageUpdate(delta) followed by the
        swap of the two; the result is the last image computed. */
    method RunSteps(delta: real, steps: int, input: seq<real>) returns (output: seq<real>)
      requires FieldShaped(stencils) && EdgesIn(Edges(stencils), |stencils|)
      requires diagonal.Length == |stencils| && |input| == |stencils|
      modifies this`previous, this`next
      ensures output == Evolve(Edges(stencils), diagonal[..], delta, input, if steps > 0 then steps else 0)
    {
      var n := |stencils|;
      ghost var E := Edges(stencils);
      ghost var d := diagonal[..];
      previous := new real[n](i requires 0 <= i < n => input[i]);
      next := new real[n];
      assert previous[..] == Evolve(E, d, delta, input, 0);
      ghost var bound: nat := if steps > 0 then steps else 0;
      var k := 0;
      while k < steps
        invariant 0 <= k <= bound
        invariant Buffers() && fresh(previous) && fresh(next) && diagonal[..] == d
        invariant previous[..] == Evolve(E, d, delta, input, k)
      {
        ghost var v := previous[..];
        Advance(delta, E, d, v);
        EvolveNext(E, d, delta, input, k, v, previous[..]);
        k := k + 1;
      }
      output := previous[..];
    }
  }

  /** Any number of steps of at most ratio times the largest stable step keeps
      every value between the minimum and the maximum of the input, and keeps
      the sum of the image, when the couplings are nonnegative (Selling's loop
      stabilised at every point). */
  lemma StableEvolution(E: seq<Edge>, u: seq<real>, ratio: real, delta: real, k: nat, lo: real, hi: real)
    requires EdgesIn(E, |u|) && NonnegativeWeights(E)
    requires |u| > 0 && Maximum(Diagonal(E, |u|)) > 0.0
    requires 0.0 < ratio <= 1.0 && 0.0 <= delta <= MaxStableTimeStep(Diagonal(E, |u|)) * ratio
    requires forall i :: 0 <= i < |u| ==> lo <= u[i] <= hi
    ensures forall q :: 0 <= q < |u| ==> lo <= Evolve(E, Diagonal(E, |u|), delta, u, k)[q] <= hi
    ensures Sum(Evolve(E, Diagonal(E, |u|), delta, u, k)) == Sum(u)
  {
    DiagonalNonnegative(E, |u|);
    StableStep(delta, ratio, Diagonal(E, |u|));
    EvolveWithinRange(E, delta, u, lo, hi, k);
    EvolveConservesSum(E, delta, u, k);
  }

  /** The schedule ImageUpdateLoop follows is such a sequence of steps. */
  lemma ScheduledEvolution(E: seq<Edge>, u: seq<real>, diffusionTime: real, ratio: real, maxSteps: int, lo: real, hi: real)
    requires EdgesIn(E, |u|) && NonnegativeWeights(E)
    requires |u| > 0 && Maximum(Diagonal(E, |u|)) > 0.0
    requires 0.0 < ratio <= 1.0 && diffusionTime >= 0.0
    requires forall i :: 0 <= i < |u| ==> lo <= u[i] <= hi
    ensures var diag := Diagonal(E, |u|);
            var plan := StepPlan(diffusionTime, ratio, maxSteps, MaxStableTimeStep(diag));
            var v := Evolve(E, diag, plan.delta, u, if plan.steps > 0 then plan.steps else 0);
            && (forall q :: 0 <= q < |v| ==> lo <= v[q] <= hi)
            && Sum(v) == Sum(u)
  {
    var plan := StepPlan(diffusionTime, ratio, maxSteps, MaxStableTimeStep(Diagonal(E, |u|)));
    StableEvolution(E, u, ratio, plan.delta, if plan.steps > 0 then plan.steps else 0, lo, hi);
  }

  /** The filter end to end: when Selling's loop stabilised at every point
      (GenerateStencils then promises nonnegative coefficients), the image
      ImageUpdateLoop returns for the stencil field, its diagonal and the
      schedule keeps every value of the input's range [lo, hi] and keeps the
      sum of the image. */
  lemma FilterEvolution(field: seq<Stencil>, input: seq<real>, diffusionTime: real, ratio: real, maxSteps: int,
                        lo: real, hi: real)
    requires FieldShaped(field) && FieldAddressed(field, |field|) && NonnegativeCoefficients(field)
    requires |input| == |field| > 0 && Maximum(Diagonal(Edges(field), |field|)) > 0.0
    requires 0.0 < ratio <= 1.0 && diffusionTime >= 0.0
    requires forall i :: 0 <= i < |input| ==> lo <= input[i] <= hi
    ensures EdgesIn(Edges(field), |field|)
    ensures var diag := Diagonal(Edges(field), |field|);
            var plan := StepPlan(diffusionTime, ratio, maxSteps, MaxStableTimeStep(diag));
            var v := Evolve(Edges(field), diag, plan.delta, input, if plan.steps > 0 then plan.steps else 0);
            && (forall q :: 0 <= q < |v| ==> lo <= v[q] <= hi)
            && Sum(v) == Sum(input)
  {
    PointEdgesIn(field, |field|);
    PointEdgesNonnegative(field, |field|);
    ScheduledEvolution(Edges(field), input, diffusionTime, ratio, maxSteps, lo, hi);
  }
}
