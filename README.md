# Linear anisotropic diffusion with lattice basis reduction

A Dafny model of the computational core of ITK's
`LinearAnisotropicDiffusionLBRImageFilter`. The filter solves
du/dt = div(D grad u) for a field of symmetric diffusion tensors D with an explicit
finite-difference scheme. At every grid point it runs Selling's
algorithm, which reduces a superbase of Z^d (d = 2 or 3) until it is obtuse for the
tensor rescaled by the grid spacing. From the reduced superbase it reads off
HalfStencilSize (3 or 6) integer offsets and coefficients. The coefficients
are nonnegative once the reduction has stabilised.

The offsets become a table of 2·HalfStencilSize buffer addresses. Slot 2i holds
x + offset_i and slot 2i+1 holds x − offset_i. A slot holds the sentinel
`OutsideBufferIndex` when that neighbour is outside the region, which gives
Neumann boundary conditions. Every non-sentinel slot is an edge p — y with the
slot's coefficient.

The diagonal coefficients are the coefficient mass incident on each point. One
time step is three passes:
1. fill the next image with 0;
2. scatter c·u[y] into p and c·u[p] into y along every edge;
3. blend `out·δ + in·(1 − δ·diag)`.

The step δ and the number of steps come from the largest stable step
1/max(diag), the ratio to it, the diffusion time and the step budget.

Modules:

| module | file | models |
|---|---|---|
| Tensors | tensors.dfy | integer vectors, symmetric tensors, `ScalarProduct` and its reference form uᵀMv |
| Selling | selling.dfy | the two `Stencil` overloads: superbase, reduction loop with its 200-iteration bound, offsets and coefficients |
| Regions | regions.dfy | the region box, the strides `prod`, the linear address `BufferIndex` computes, the scan order of region iterators |
| Stencils | stencils.dfy | `StencilFunctor` (`Initialize`, `BufferIndex`, `operator()`, `OutsideBufferIndex`) |
| Operator | operator.dfy | the edges of a stencil field, the diagonal and off-diagonal passes as functions, `FunctorType`, one step, k steps, and their conservation and maximum-principle properties |
| Schedule | schedule.dfy | `MaxStableTimeStep`, the δ/n computation of `ImageUpdateLoop` |
| Diffusion | filter.dfy | the filter as a class: constructor defaults, setters, `GenerateStencils`, `ImageUpdate`, `ImageUpdateLoop` |

Scalars are `real`, so arithmetic is exact. Grid points are their linear indices
0 .. n−1, in the order region iterators visit them. `Regions.RegionPointAddress`
and `Regions.AddressOfPoint` prove that this is the order of `BufferIndex`. The
imperative parts keep their form:
- the superbase is an array mutated in place, with the 3D write cursor;
- the address table is filled slot by slot;
- the diagonal and the next image are arrays updated by `+=` scatter loops;
- the blend runs in place;
- the image loop swaps the `previous` and `next` buffers.

Each method is proved equal to a specification function. The properties are
lemmas about those functions.

## Model

| member | source | states |
|---|---|---|
| Tensors.ScalarProductIsBilinear | include/itkLinearAnisotropicDiffusionLBRImageFilter.hxx:523-540 | the diagonal-plus-upper-triangle sum equals the full double sum uᵀMv of the symmetric tensor |
| Tensors.ScalarProductSymmetric | include/itkLinearAnisotropicDiffusionLBRImageFilter.hxx:523-540 | ⟨M u, v⟩ = ⟨M v, u⟩, which the 3D overload relies on when it reads Weights(i,3) written as Weights(3,i) |
| Selling.InitialSuperbaseValid | include/itkLinearAnisotropicDiffusionLBRImageFilter.hxx:175-184 | the unit vectors and their negated sum form a superbase: zero sum, and the first d vectors have determinant ±1 (both dimensions; 3D at 230-238) |
| Selling.NewSuperbase | include/itkLinearAnisotropicDiffusionLBRImageFilter.hxx:230-238 | the array built by the nested loops and the negated sum is exactly the initial superbase |
| Selling.ExchangeSuperbase | include/itkLinearAnisotropicDiffusionLBRImageFilter.hxx:249-254 | both exchanges map a superbase to a superbase: the 2D {v−u, u, −v}, and the 3D shift of the other two by u followed by −u, v (2D at 196-199) |
| Selling.ExchangeInPlace | include/itkLinearAnisotropicDiffusionLBRImageFilter.hxx:196-199 | the in-place writes leave exactly the exchanged superbase, in either dimension (3D at 249-254) |
| Selling.ShiftOthers | include/itkLinearAnisotropicDiffusionLBRImageFilter.hxx:250-252 | the `l++` cursor loop writes the two slots other than i and j, in increasing order, shifted by u, to slots 0 and 1, reading each before it is overwritten, and leaves slots 2 and 3 as they were |
| Selling.FindPair | include/itkLinearAnisotropicDiffusionLBRImageFilter.hxx:190-203 | the pair found has j < i, lies at or after the start of the scan and has a positive scalar product, and every pair scanned before it has a nonpositive one: it is the first non-obtuse pair in scan order |
| Selling.FindPairObtuse | include/itkLinearAnisotropicDiffusionLBRImageFilter.hxx:189-207 | a full scan finds no pair if and only if every pair of superbase vectors has a nonpositive scalar product |
| Selling.Sweep | include/itkLinearAnisotropicDiffusionLBRImageFilter.hxx:244-258 | one pass of the double loop: `same` holds iff no pair is found; then sb is unchanged, otherwise the first non-obtuse pair has been exchanged |
| Selling.SellingLoop | include/itkLinearAnisotropicDiffusionLBRImageFilter.hxx:240-263 | the bounded `iter` loop leaves the superbase and the stabilisation flag of the reduction with maxIter iterations |
| Selling.ReduceBound | include/itkLinearAnisotropicDiffusionLBRImageFilter.hxx:185-212 | at most maxIter exchanges are made, and the reduction counts as stabilised iff fewer than maxIter were made, i.e. the warning fires iff iter == maxIter |
| Selling.ReduceSuperbase | include/itkLinearAnisotropicDiffusionLBRImageFilter.hxx:187-208 | the reduction keeps a superbase a superbase (zero sum, unimodular) |
| Selling.ReduceStabilizedObtuse | include/itkLinearAnisotropicDiffusionLBRImageFilter.hxx:204-207 | leaving through `same` means the final superbase is obtuse |
| Selling.SellingReductionProperties | include/itkLinearAnisotropicDiffusionLBRImageFilter.hxx:185-212 | with MaxIter = 200 from the initial superbase: a superbase, at most 200 exchanges, not stabilised iff exactly 200 |
| Selling.Coefficients2Nonnegative | include/itkLinearAnisotropicDiffusionLBRImageFilter.hxx:214-217 | on an obtuse superbase every 2D coefficient −½⟨D sb_{i+1}, sb_{i+2}⟩ is ≥ 0, the assert at 217 |
| Selling.Coefficients3Nonnegative | include/itkLinearAnisotropicDiffusionLBRImageFilter.hxx:266-301 | on an obtuse superbase all six 3D coefficients, read from the weight tensor, are ≥ 0 |
| Selling.Coefficients3Symmetric | include/itkLinearAnisotropicDiffusionLBRImageFilter.hxx:294-297 | coefficients[i] read as Weights(i,3) is −½⟨D sb_i, sb_3⟩ although it was written as Weights(3,i) |
| Selling.SellingStencilProperties | include/itkLinearAnisotropicDiffusionLBRImageFilter.hxx:214-221 | HalfStencilSize offsets of dimension d and as many coefficients, all nonnegative once stabilised |
| Selling.ReadStencil2 | include/itkLinearAnisotropicDiffusionLBRImageFilter.hxx:214-221 | the 2D read-off loop yields the 90°-rotated superbase vectors (−x1, x0) and the coefficients −½⟨D sb_{i+1}, sb_{i+2}⟩ |
| Selling.ReadStencil3 | include/itkLinearAnisotropicDiffusionLBRImageFilter.hxx:265-301 | the 3D weight, comatrix and coefficient loops yield the comatrix rows and their pairwise differences, and Weights(i,3), Weights(0,1), Weights(0,2), Weights(1,2) |
| Selling.Stencil2 | include/itkLinearAnisotropicDiffusionLBRImageFilter.hxx:168-222 | the 2D overload returns the stencil of the reduced superbase: 3 offsets, 3 coefficients, nonnegative when stabilised |
| Selling.Stencil3 | include/itkLinearAnisotropicDiffusionLBRImageFilter.hxx:223-302 | the 3D overload returns the stencil of the reduced superbase: 6 offsets, 6 coefficients, nonnegative when stabilised |
| Selling.IsotropicStencil2 | include/itkLinearAnisotropicDiffusionLBRImageFilter.hxx:168-222 | for the identity tensor the 2D stencil is the 4-neighbour Laplacian: axis offsets with weight ½, the diagonal one with weight 0 |
| Selling.IsotropicStencil3 | include/itkLinearAnisotropicDiffusionLBRImageFilter.hxx:223-302 | for the identity tensor the 3D stencil is the 6-neighbour Laplacian: axis offsets with weight ½, the other three with weight 0 |
| Regions.AddressBounds | include/itkLinearAnisotropicDiffusionLBRImageFilter.hxx:114-123 | the address of a point of the region lies in [0, Π size) |
| Regions.AddressInjective | include/itkLinearAnisotropicDiffusionLBRImageFilter.hxx:114-123 | two points of the region with the same address are equal |
| Regions.RegionPointAddress | include/itkLinearAnisotropicDiffusionLBRImageFilter.hxx:340-344 | the k-th point a region iterator visits lies in the region and has address k |
| Regions.AddressOfPoint | include/itkLinearAnisotropicDiffusionLBRImageFilter.hxx:114-123 | every point of the region is the scan point of its own address, so the address is a bijection onto [0, Π size) |
| Stencils.StencilFunctor.constructor | include/itkLinearAnisotropicDiffusionLBRImageFilter.hxx:304-306 | a functor before Initialize: empty region, strides and inverse spacing |
| Stencils.StencilFunctor.Initialize | include/itkLinearAnisotropicDiffusionLBRImageFilter.hxx:100-112 | stores the region, sets prod[0] = 1 and prod[i] = prod[i−1]·size[i−1], and invSpacing[i] = 1/spacing[i] |
| Stencils.Inverses | include/itkLinearAnisotropicDiffusionLBRImageFilter.hxx:108-111 | invSpacing[i]·spacing[i] = 1 on every axis |
| Stencils.StencilFunctor.BufferIndex | include/itkLinearAnisotropicDiffusionLBRImageFilter.hxx:114-123 | inside the region the address lies in [0, Π size) and is the scan position of x |
| Stencils.StencilFunctor.Rescale | include/itkLinearAnisotropicDiffusionLBRImageFilter.hxx:133-136 | D(i,j) = tensor(i,j)·inv_i·inv_j on the upper triangle |
| Stencils.RescaledScalarProduct | include/itkLinearAnisotropicDiffusionLBRImageFilter.hxx:133-136 | with equal inverse spacings c on every axis, the rescaled scalar product is c² times the original |
| Stencils.StencilFunctor.Addresses | include/itkLinearAnisotropicDiffusionLBRImageFilter.hxx:139-157 | the `yIndex` loop fills exactly the address table: slot 2i for x + offset_i, slot 2i+1 for x − offset_i |
| Stencils.AddressTableProperties | include/itkLinearAnisotropicDiffusionLBRImageFilter.hxx:139-158 | 2·K slots; a slot is the sentinel iff its neighbour is outside the region, and otherwise an address in [0, n) whose scan point is that neighbour |
| Stencils.SlotAddressProperties | include/itkLinearAnisotropicDiffusionLBRImageFilter.hxx:146-155 | one slot: the sentinel iff the neighbour is outside, otherwise the neighbour's buffer position |
| Stencils.StencilAt | include/itkLinearAnisotropicDiffusionLBRImageFilter.hxx:125-159 | the stencil at x has HalfStencilSize coefficients, nonnegative once stabilised, and 2·HalfStencilSize slots, each the sentinel or a valid buffer index |
| Stencils.StencilFunctor.Apply | include/itkLinearAnisotropicDiffusionLBRImageFilter.hxx:125-159 | `operator()` returns the stencil of the rescaled tensor at x, and the stabilisation flag of its Selling loop |
| Operator.PointEdgesIn | include/itkLinearAnisotropicDiffusionLBRImageFilter.hxx:346-353 | the edges of well-addressed stencils have both endpoints inside the buffer |
| Operator.PointEdgesNonnegative | include/itkLinearAnisotropicDiffusionLBRImageFilter.hxx:351-353 | nonnegative stencil coefficients give nonnegative edge weights |
| Operator.ScatterDiagonalIsDiagonal | include/itkLinearAnisotropicDiffusionLBRImageFilter.hxx:338-356 | the diagonal scatter from a zero buffer leaves at every point the total coefficient mass of the edges incident on it |
| Operator.DiagonalNonnegative | include/itkLinearAnisotropicDiffusionLBRImageFilter.hxx:338-356 | with nonnegative coefficients every diagonal coefficient is ≥ 0 |
| Operator.SumWeightedDiagonal | include/itkLinearAnisotropicDiffusionLBRImageFilter.hxx:338-356 | Σ diag[q]·u[q] equals the flux Σ over edges of c·(u[p] + u[y]) |
| Operator.ScatterOffDiagonalIsOffDiagonal | include/itkLinearAnisotropicDiffusionLBRImageFilter.hxx:480-496 | the off-diagonal scatter from a zero buffer leaves at every point the symmetric sum over its edges of c times the value at the other end |
| Operator.SumOffDiagonal | include/itkLinearAnisotropicDiffusionLBRImageFilter.hxx:483-496 | the off-diagonal product adds up to the same flux |
| Operator.FunctorBalanced | include/itkLinearAnisotropicDiffusionLBRImageFilter.hxx:452-460 | FunctorType gives the input back when the output is diag times the input |
| Operator.FunctorAtMost | include/itkLinearAnisotropicDiffusionLBRImageFilter.hxx:452-460 | with 0 ≤ δ·diag ≤ 1, an input ≤ hi and an output ≤ hi·diag blend to at most hi |
| Operator.FunctorAtLeast | include/itkLinearAnisotropicDiffusionLBRImageFilter.hxx:452-460 | the same bound from below |
| Operator.StepFixesConstant | include/itkLinearAnisotropicDiffusionLBRImageFilter.hxx:480-508 | one step maps a constant image to itself, for any δ |
| Operator.StepConservesSum | include/itkLinearAnisotropicDiffusionLBRImageFilter.hxx:480-508 | one step keeps the sum of the image, for any δ |
| Operator.StepWithinRange | include/itkLinearAnisotropicDiffusionLBRImageFilter.hxx:480-508 | with nonnegative coefficients and 0 ≤ δ·diag ≤ 1 at every point, an image with values in [lo, hi] stays in [lo, hi] |
| Operator.EvolveFixesConstant | include/itkLinearAnisotropicDiffusionLBRImageFilter.hxx:441-446 | any number of steps keep a constant image constant |
| Operator.EvolveConservesSum | include/itkLinearAnisotropicDiffusionLBRImageFilter.hxx:441-446 | any number of steps keep the sum of the image |
| Operator.EvolveWithinRange | include/itkLinearAnisotropicDiffusionLBRImageFilter.hxx:441-446 | any number of stable steps keep every value in [lo, hi] |
| Schedule.Maximum | include/itkLinearAnisotropicDiffusionLBRImageFilter.hxx:364-368 | the maximum is at least every value and is one of them |
| Schedule.MaxStableTimeStep | include/itkLinearAnisotropicDiffusionLBRImageFilter.hxx:360-370 | 1/max(diag) is positive and t·diag[q] ≤ 1 at every point |
| Schedule.Ceil | include/itkLinearAnisotropicDiffusionLBRImageFilter.hxx:414 | ceil(x) is the integer n with n − 1 < x ≤ n |
| Schedule.StepPlan | include/itkLinearAnisotropicDiffusionLBRImageFilter.hxx:413-425 | with δ₀ = maxStable·ratio and n = ceil(T/δ₀): when n > maxSteps, maxSteps steps of δ₀ whose effective time falls short of T; otherwise n steps of T/n ≤ δ₀ reaching T, with (n−1)·δ₀ < T; in both cases 0 ≤ δ ≤ δ₀ and effective time = steps·δ ≤ T |
| Schedule.StableStep | include/itkLinearAnisotropicDiffusionLBRImageFilter.hxx:413 | any step in [0, ratio·MaxStableTimeStep] with ratio ≤ 1 keeps δ·diag[q] ≤ 1 at every point |
| Diffusion.StencilImage | include/itkLinearAnisotropicDiffusionLBRImageFilter.hxx:322-329 | the stencil image has one well-addressed stencil per point of the region |
| Diffusion.StencilImageNext | include/itkLinearAnisotropicDiffusionLBRImageFilter.hxx:324-328 | the functor's stencil at the k-th point extends the image of the first k points |
| Diffusion.FillZero | include/itkLinearAnisotropicDiffusionLBRImageFilter.hxx:338 | FillBuffer(0) leaves a buffer of zeros (also 480) |
| Diffusion.AddDiagonalEdge | include/itkLinearAnisotropicDiffusionLBRImageFilter.hxx:351-353 | the two `+=` of a slot advance the diagonal scatter by one edge |
| Diffusion.DiagonalSlot | include/itkLinearAnisotropicDiffusionLBRImageFilter.hxx:348-354 | a sentinel slot changes nothing; any other slot advances the diagonal scatter by its edge |
| Diffusion.DiagonalOfPoint | include/itkLinearAnisotropicDiffusionLBRImageFilter.hxx:346-355 | the slot loop at p advances the diagonal scatter over all edges of p |
| Diffusion.DiagonalLoop | include/itkLinearAnisotropicDiffusionLBRImageFilter.hxx:344-356 | from a zero buffer, the loop over the region leaves the diagonal coefficients |
| Diffusion.DiagonalOf | include/itkLinearAnisotropicDiffusionLBRImageFilter.hxx:334-356 | a new buffer holding the incident coefficient mass of every point |
| Diffusion.AddOffDiagonalEdge | include/itkLinearAnisotropicDiffusionLBRImageFilter.hxx:491-493 | the two `+=` of a slot advance the off-diagonal scatter by one edge |
| Diffusion.OffDiagonalSlot | include/itkLinearAnisotropicDiffusionLBRImageFilter.hxx:488-494 | a sentinel slot changes nothing; any other slot advances the off-diagonal scatter by its edge |
| Diffusion.OffDiagonalOfPoint | include/itkLinearAnisotropicDiffusionLBRImageFilter.hxx:486-495 | the slot loop at p advances the off-diagonal scatter over all edges of p |
| Diffusion.OffDiagonalLoop | include/itkLinearAnisotropicDiffusionLBRImageFilter.hxx:483-496 | from a zero buffer, the loop over the region leaves the off-diagonal product of the previous image |
| Diffusion.OffDiagonalProduct | include/itkLinearAnisotropicDiffusionLBRImageFilter.hxx:480-496 | zero fill plus scatter: next holds the off-diagonal product of previous |
| Diffusion.BlendInPlace | include/itkLinearAnisotropicDiffusionLBRImageFilter.hxx:498-508 | the in-place ternary functor sets every cell to out·δ + in·(1 − δ·diag) of its old value |
| Diffusion.DiffusionFilter.constructor | include/itkLinearAnisotropicDiffusionLBRImageFilter.hxx:39-48 | diffusion time 1, ratio 0.7, effective diffusion time 0, so the settings hold: time ≥ 0 and ratio in ]0, 1] |
| Diffusion.DiffusionFilter.SetMaxDiffusionTime | include/itkLinearAnisotropicDiffusionLBRImageFilter.hxx:375-382 | fails iff time < 0 (so 0 is accepted); stores the time on success and keeps the old one otherwise; the settings stay valid |
| Diffusion.DiffusionFilter.SetRatioToMaxStableTimeStep | include/itkLinearAnisotropicDiffusionLBRImageFilter.hxx:387-394 | succeeds iff 0 < ratio ≤ 1; stores the ratio on success and keeps the old one otherwise; the settings stay valid |
| Diffusion.DiffusionFilter.SetMaxNumberOfTimeSteps | include/itkLinearAnisotropicDiffusionLBRImageFilter.hxx:399-406 | succeeds iff n > 0; stores n on success and keeps the old value otherwise |
| Diffusion.DiffusionFilter.GenerateStencils | include/itkLinearAnisotropicDiffusionLBRImageFilter.hxx:316-357 | the stencil image of the tensors over the region, and a new diagonal buffer equal to the incident mass; when every point stabilised, all coefficients are ≥ 0 |
| Diffusion.DiffusionFilter.AccumulateDiagonal | include/itkLinearAnisotropicDiffusionLBRImageFilter.hxx:332-356 | a new diagonal buffer equal to the incident coefficient mass of every point |
| Diffusion.DiffusionFilter.ImageUpdate | include/itkLinearAnisotropicDiffusionLBRImageFilter.hxx:465-517 | next becomes one step of the scheme applied to previous, with the stored diagonal |
| Diffusion.DiffusionFilter.Advance | include/itkLinearAnisotropicDiffusionLBRImageFilter.hxx:443-444 | ImageUpdate then the swap: previous holds the stepped image and the two buffers are exchanged |
| Diffusion.DiffusionFilter.RunSteps | include/itkLinearAnisotropicDiffusionLBRImageFilter.hxx:434-447 | exactly max(n, 0) update-and-swap iterations from the input; the result is the image after that many steps |
| Diffusion.DiffusionFilter.ImageUpdateLoop | include/itkLinearAnisotropicDiffusionLBRImageFilter.hxx:411-448 | the effective step count and diffusion time are those of the schedule, and the output is the input after that many steps of that δ |
| Diffusion.StableEvolution | include/itkLinearAnisotropicDiffusionLBRImageFilter.hxx:413-446 | with nonnegative coefficients, any number of steps of at most ratio·MaxStableTimeStep keep values in [lo, hi] and keep the sum |
| Diffusion.ScheduledEvolution | include/itkLinearAnisotropicDiffusionLBRImageFilter.hxx:411-446 | the scheduled run of ImageUpdateLoop keeps values in [min, max] of the input and keeps the sum, whatever the diffusion time and the step budget |
| Diffusion.FilterEvolution | include/itkLinearAnisotropicDiffusionLBRImageFilter.hxx:83-91 | GenerateData end to end: for a stencil field with nonnegative coefficients (GenerateStencils' stabilised case), its diagonal and the schedule of ImageUpdateLoop, the output keeps every value in the input's range [lo, hi] and keeps the sum |

## Left out

- ITK pipeline plumbing is not modelled: input wiring, `GenerateData`, `UpdateProgress`, `ExtractImageFilter`, `CopyInformation`, `GraftOutput`, and the unary and ternary functor filter wrappers. Images are sequences or arrays of the requested region's pixels in scan order, and the result of `ImageUpdateLoop` is returned.
- Multithreading inside the functor filters is not modelled. The functor and the blend are sequential per-index maps; the two scatter loops are sequential in the source too.
- IEEE floating-point rounding is not modelled. Scalars are exact `real`; `ceil` is `Schedule.Ceil` on reals.
- Diffusion.DiffusionFilter.ImageUpdateLoop: requires max(diag) > 0 and a non-empty region, where the source would divide by zero in `1. / max`. It also requires the settings invariant (time ≥ 0, ratio in ]0, 1]), which the constructor establishes and the setters keep.
- Schedule.StepPlan: for T = 0 with n = 0 steps, the source sets δ = 0/0 (not a number) but never uses it. The model uses δ = 0 with 0 steps and effective time T; the output equals the input in both.
- Schedule.MaxStableTimeStep: a function of the diagonal buffer rather than a MinimumMaximumImageCalculator call.
- Stencils.StencilFunctor.Initialize: requires every spacing to be nonzero, since the source divides by it.
- Stencils.AddressTableProperties: requires Π size ≤ the sentinel 2^64 − 1, where the 64-bit `InternalSizeT` holds every address. Integer overflow of addresses and strides is not modelled otherwise, and neither is overflow of the `int` step count `n` in `ImageUpdateLoop`.
- Diffusion.DiffusionFilter.constructor: the default number of time steps is set in the class header, which is not part of this model, so it is a constructor parameter.
- The `std::cerr` warnings of both Selling overloads are not printed. Non-stabilisation is returned as the `stabilized` flag, and `GenerateStencils` returns their conjunction.
- The 2D `assert(coefficients[i] >= 0)` at line 217 is modelled as a proved consequence of stabilisation (`Selling.Coefficients2Nonnegative`). A debug build would abort on it when the loop did not stabilise; the model does not.
- The `assert(imageFunctor->CanRunInPlace())` at line 505 is not modelled beyond requiring the next buffer to be distinct from the previous image and the diagonal.
- Termination of Selling's algorithm within 200 iterations is not proved. It needs positive definiteness and an energy argument the code does not check; only the bound and "stabilised ⇒ obtuse ⇒ nonnegative coefficients" are proved.
- Duality of the 3D comatrix offsets with the superbase (lines 278-291) is not proved. The formula is modelled as written in `Selling.Offsets3`.
- Stencils.Rescaled: the source's symmetric tensor stores only the upper triangle. The model writes 0.0 below the diagonal, a cell `ScalarProduct` never reads.
- Stencils.RescaledScalarProduct: covers only equal spacing on every axis. With different spacings the rescaled form equals the original form on the vectors scaled axis by axis by the inverse spacings, which are real vectors, while ScalarProduct is defined on integer lattice vectors. The general rescaling is stated entrywise by Stencils.StencilFunctor.Rescale.
- Tensors.ScalarProduct: real addition is exact here, so the order of summation, which matters only under rounding, is not modelled.
- Symmetry of the assembled operator (the matrix of `ImageUpdate` equals its transpose) is not stated separately. Conservation of the sum follows from it and is proved.
- The exception message of `SetMaxDiffusionTime` says the time must be positive, but the code refuses only negative times. The model follows the code: 0 is accepted.
