/** The time-step schedule of ImageUpdateLoop: the largest stable explicit
    time step is 1 / max(diagonal); the filter steps with a fraction ratio of
    it, as many times as it takes to reach the diffusion time, unless that
    exceeds the maximal number of steps, in which case it stops short. */
module Schedule {

  /** The number of steps, the step and the diffusion time they cover. */
  datatype Plan = Plan(steps: int, delta: real, effectiveTime: real)

  /** ceil(x): the least integer at least x. */
  function Ceil(x: real): (n: int)
    ensures (n - 1) as real < x <= n as real
  {
    if x.Floor as real == x then x.Floor else x.Floor + 1
  }

  /** The largest of the first k values of a buffer. */
  function MaximumTo(s: seq<real>, k: nat): (m: real)
    requires 0 < k <= |s|
    ensures forall i :: 0 <= i < k ==> s[i] <= m
    ensures exists i :: 0 <= i < k && s[i] == m
  {
    if k == 1 then s[0]
    else
      var m := MaximumTo(s, k - 1);
      if s[k - 1] > m then s[k - 1] else m
  }

  /** The largest value of a non-empty buffer (MinimumMaximumImageCalculator::ComputeMaximum). */
  function Maximum(s: seq<real>): (m: real)
    requires |s| > 0
    ensures forall i :: 0 <= i < |s| ==> s[i] <= m
    ensures exists i :: 0 <= i < |s| && s[i] == m
  {
    MaximumTo(s, |s|)
  }

  /** MaxStableTimeStep: 1 / max(diagonal). */
  function MaxStableTimeStep(diagonal: seq<real>): (t: real)
    requires |diagonal| > 0 && Maximum(diagonal) > 0.0
    ensures t > 0.0 && forall q :: 0 <= q < |diagonal| ==> t * diagonal[q] <= 1.0
  {
    var m := Maximum(diagonal);
    forall q | 0 <= q < |diagonal|
      ensures (1.0 / m) * diagonal[q] <= 1.0
    {
      AtMostOne(m, diagonal[q]);
    }
    1.0 / m
  }

  lemma AtMostOne(m: real, d: real)
    requires m > 0.0 && d <= m
    ensures (1.0 / m) * d <= 1.0
  {
    assert (1.0 / m) * d <= (1.0 / m) * m;
  }

  lemma ScaleBelow(a: real, b: real, d: real)
    requires a < b && d > 0.0
    ensures a * d < b * d
  {
    assert (b - a) * d > 0.0;
  }

  /** Fewer steps than ceil(T / delta) fall short of T. */
  lemma ShortOf(t: real, delta: real, x: real, m: real)
    requires delta > 0.0 && x == t / delta && m < x
    ensures m * delta < t
  {
    ScaleBelow(m, x, delta);
  }

  /** ceil(T / delta) = 0 only for T = 0. */
  lemma NoSteps(t: real, delta: real, x: real)
    requires delta > 0.0 && t >= 0.0 && x == t / delta && x <= 0.0
    ensures t == 0.0
  {
    assert x * delta == t;
    assert x * delta <= 0.0 by {
      assert (0.0 - x) * delta >= 0.0;
    }
  }

  lemma QuotientAtMost(t: real, n: real, delta: real)
    requires n > 0.0 && t >= 0.0 && t <= n * delta
    ensures 0.0 <= t / n <= delta
  {
    assert t / n * n == t;
    assert (t / n - delta) * n <= 0.0;
  }

  /** n = ceil(T / delta) steps of T / n reach T, each no longer than delta. */
  lemma EvenSteps(t: real, delta: real, x: real, n: real)
    requires delta > 0.0 && t >= 0.0 && x == t / delta && n - 1.0 < x <= n && n > 0.0
    ensures (n - 1.0) * delta < t && 0.0 <= t / n <= delta && n * (t / n) == t
  {
    ShortOf(t, delta, x, n - 1.0);
    assert t <= n * delta by {
      assert (n - x) * delta >= 0.0;
      assert x * delta == t;
    }
    QuotientAtMost(t, n, delta);
  }

  /** ImageUpdateLoop's schedule: delta = maxStable * ratio and n = ceil(T / delta).
      Past maxSteps it takes maxSteps steps of delta and stops short of T;
      otherwise it takes the least number n of steps of at most delta that
      reach T, each of T / n. Either way the steps cover the effective time. */
  function StepPlan(diffusionTime: real, ratio: real, maxSteps: int, maxStable: real): (p: Plan)
    requires maxStable > 0.0 && ratio > 0.0 && diffusionTime >= 0.0
    ensures p.steps <= maxSteps && p.effectiveTime <= diffusionTime
    ensures p.effectiveTime == p.steps as real * p.delta
    ensures 0.0 <= p.delta <= maxStable * ratio
    ensures Ceil(diffusionTime / (maxStable * ratio)) > maxSteps ==>
              p.steps == maxSteps && p.delta == maxStable * ratio && p.effectiveTime < diffusionTime
    ensures Ceil(diffusionTime / (maxStable * ratio)) <= maxSteps ==>
              && p.steps == Ceil(diffusionTime / (maxStable * ratio))
              && p.effectiveTime == diffusionTime
              && (p.steps - 1) as real * (maxStable * ratio) < diffusionTime
  {
    var delta := maxStable * ratio;
    var x := diffusionTime / delta;
    var n := Ceil(x);
    if n > maxSteps then
      ShortOf(diffusionTime, delta, x, maxSteps as real);
      Plan(maxSteps, delta, maxSteps as real * delta)
    else if n == 0 then
      NoSteps(diffusionTime, delta, x);
      Plan(0, 0.0, diffusionTime)
    else
      EvenSteps(diffusionTime, delta, x, n as real);
      Plan(n, diffusionTime / n as real, diffusionTime)
  }

  /** Any step between 0 and ratio times the largest stable step is stable:
      it keeps delta * diagonal[q] <= 1 at every point. */
  lemma StableStep(delta: real, ratio: real, diagonal: seq<real>)
    requires |diagonal| > 0 && Maximum(diagonal) > 0.0 && 0.0 < ratio <= 1.0
    requires forall q :: 0 <= q < |diagonal| ==> diagonal[q] >= 0.0
    requires 0.0 <= delta <= MaxStableTimeStep(diagonal) * ratio
    ensures forall q :: 0 <= q < |diagonal| ==> delta * diagonal[q] <= 1.0
  {
    var t := MaxStableTimeStep(diagonal);
    forall q | 0 <= q < |diagonal|
      ensures delta * diagonal[q] <= 1.0
    {
      StepAtMost(delta, t * ratio, t, ratio, diagonal[q]);
    }
  }

  lemma StepAtMost(delta: real, bound: real, t: real, ratio: real, d: real)
    requires 0.0 <= delta <= bound && bound == t * ratio && 0.0 < ratio <= 1.0 && t > 0.0
    requires d >= 0.0 && t * d <= 1.0
    ensures delta * d <= 1.0
  {
    assert delta * d <= bound * d;
    assert bound * d == ratio * (t * d);
    assert ratio * (t * d) <= t * d;
  }
}
