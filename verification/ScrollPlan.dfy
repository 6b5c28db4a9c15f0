/** The bounded scroll planner of the acquisition pacing controller. */
module ScrollPlan {
  import opened Options

  newtype u32 = x: int | 0 <= x < 0x1_0000_0000

  const MAX_SCROLL_STEPS: u32 := 64
  const MAX_SCROLL_PIXELS: u32 := 1_000_000

  // Bounds of the settle delay in milliseconds.
  datatype DelayDistribution = DelayDistribution(minMs: real, maxMs: real)
  {
    predicate Allows(delay: real) { minMs <= delay <= maxMs }
  }

  datatype PacingPolicy = PacingPolicy(settle: DelayDistribution, maxScrollSteps: u32, maxScrollPixels: u32)
  {
    predicate Valid() {
      && 0.0 <= settle.minMs <= settle.maxMs
      && 0 < maxScrollSteps <= MAX_SCROLL_STEPS
      && 0 < maxScrollPixels <= MAX_SCROLL_PIXELS
    }
  }

  datatype ScrollStep = ScrollStep(distance: u32, settleMs: real)

  function Min(a: u32, b: u32): u32 { if a <= b then a else b }
  function Max(a: u32, b: u32): u32 { if a >= b then a else b }
  function SaturatingSub(a: u32, b: u32): u32 { if b <= a then a - b else 0 }

  // The viewport height the planner works with.
  function Viewport(height: u32): u32 { Max(height, 1) }

  // The shortest scroll worth spending an action on.
  function MinimumDistance(policy: PacingPolicy, height: u32): u32 {
    Min(Max(Viewport(height) / 2, 1), policy.maxScrollPixels)
  }

  // A distance that is one pixel or at most half the viewport, within the pixel limit.
  predicate IsMeaningful(policy: PacingPolicy, height: u32, d: int) {
    1 <= d <= policy.maxScrollPixels as int && (d == 1 || 2 * d <= height as int)
  }

  /** The minimum is half the viewport: the largest distance of this kind. */
  lemma MinimumIsHalf(policy: PacingPolicy, height: u32)
    requires policy.Valid()
    ensures var m := MinimumDistance(policy, height) as int;
      IsMeaningful(policy, height, m) && forall d :: IsMeaningful(policy, height, d) ==> d <= m
  {
    var half := (Viewport(height) / 2) as int;
    assert 2 * half <= Viewport(height) as int < 2 * half + 2;
  }

  ghost function Distances(steps: seq<ScrollStep>): (d: seq<int>)
    ensures |d| == |steps|
  {
    seq(|steps|, i requires 0 <= i < |steps| => steps[i].distance as int)
  }

  ghost function Sum(d: seq<int>): int {
    if d == [] then 0 else Sum(d[..|d| - 1]) + d[|d| - 1]
  }

  lemma {:induction false} SumBounds(d: seq<int>, low: int)
    requires forall i :: 0 <= i < |d| ==> low <= d[i]
    ensures low * |d| <= Sum(d)
  {
    if d != [] {
      SumBounds(d[..|d| - 1], low);
      assert low * |d| == low * (|d| - 1) + low;
    }
  }

  /** The plans the documentation promises: a bounded number of meaningful scrolls within the pixel limit. */
  ghost predicate WithinBounds(policy: PacingPolicy, height: u32, d: seq<int>) {
    var low := MinimumDistance(policy, height) as int;
    && 1 <= |d| <= policy.maxScrollSteps as int
    && (forall i :: 0 <= i < |d| ==> low <= d[i] && (d[i] <= height as int || d[i] == 1))
    && Sum(d) <= policy.maxScrollPixels as int
  }

  // One draw of the planner: what is allowed with `remaining` pixels and `left` further steps.
  ghost predicate MayDraw(low: int, viewport: int, remaining: int, left: int, distance: int) {
    low <= distance <= viewport && distance <= remaining - left * low
  }

  // Each distance of d, the start of a plan of `total` steps, is one the planner may draw at its position.
  ghost predicate EachDrawable(low: int, viewport: int, pixels: int, d: seq<int>, total: int) {
    d != [] ==>
      var before := d[..|d| - 1];
      && EachDrawable(low, viewport, pixels, before, total)
      && MayDraw(low, viewport, pixels - Sum(before), total - |d|, d[|d| - 1])
  }

  /** The plans the planner's draws can produce, whatever the random source returns. */
  ghost predicate Producible(policy: PacingPolicy, height: u32, d: seq<int>) {
    var low := MinimumDistance(policy, height) as int;
    && 1 <= |d| <= policy.maxScrollSteps as int
    && |d| * low <= policy.maxScrollPixels as int
    && EachDrawable(low, Viewport(height) as int, policy.maxScrollPixels as int, d, |d|)
  }

  lemma {:induction false} DrawableStaysWithin(low: int, viewport: int, pixels: int, d: seq<int>, total: int)
    requires EachDrawable(low, viewport, pixels, d, total)
    ensures forall i :: 0 <= i < |d| ==> low <= d[i] <= viewport
    ensures d != [] ==> Sum(d) + (total - |d|) * low <= pixels
  {
    if d != [] {
      DrawableStaysWithin(low, viewport, pixels, d[..|d| - 1], total);
    }
  }

  lemma {:induction false} WithinIsDrawable(low: int, viewport: int, pixels: int, d: seq<int>, total: int)
    requires forall i :: 0 <= i < |d| ==> low <= d[i] <= viewport
    requires Sum(d) + (total - |d|) * low <= pixels
    ensures EachDrawable(low, viewport, pixels, d, total)
  {
    if d != [] {
      assert (total - |d| + 1) * low == (total - |d|) * low + low;
      WithinIsDrawable(low, viewport, pixels, d[..|d| - 1], total);
    }
  }

  // The planner can produce a plan exactly when the plan is within the documented bounds.
  lemma ProducibleIffWithinBounds(policy: PacingPolicy, height: u32, d: seq<int>)
    ensures Producible(policy, height, d) <==> WithinBounds(policy, height, d)
  {
    var low := MinimumDistance(policy, height) as int;
    var viewport, pixels := Viewport(height) as int, policy.maxScrollPixels as int;
    if Producible(policy, height, d) {
      DrawableStaysWithin(low, viewport, pixels, d, |d|);
    }
    if WithinBounds(policy, height, d) {
      SumBounds(d, low);
      WithinIsDrawable(low, viewport, pixels, d, |d|);
    }
  }

  // Taking one more drawable distance.
  lemma DrawOneMore(low: int, viewport: int, pixels: int, d: seq<int>, total: int, distance: int)
    requires EachDrawable(low, viewport, pixels, d, total)
    requires MayDraw(low, viewport, pixels - Sum(d), total - 1 - |d|, distance)
    ensures EachDrawable(low, viewport, pixels, d + [distance], total)
    ensures Sum(d + [distance]) == Sum(d) + distance
  {
    assert (d + [distance])[..|d|] == d;
  }

  // How often the minimum distance fits into the pixel limit.
  lemma StepsFit(minimum: int, pixels: int)
    requires 0 < minimum <= pixels
    ensures 1 <= pixels / minimum && (pixels / minimum) * minimum <= pixels
  {
    assert pixels == (pixels / minimum) * minimum + pixels % minimum;
  }

  // The pixels that `steps` further steps need at least: steps * minimum, counted step by step.
  ghost function Reserve(steps: nat, minimum: int): int {
    if steps == 0 then 0 else Reserve(steps - 1, minimum) + minimum
  }

  lemma {:induction false} ReserveIsProduct(steps: nat, minimum: int)
    ensures Reserve(steps, minimum) == steps * minimum
  {
    if steps > 0 {
      ReserveIsProduct(steps - 1, minimum);
      assert steps * minimum == (steps - 1) * minimum + minimum;
    }
  }

  lemma {:induction false} ReserveIsMonotone(few: nat, many: nat, minimum: int)
    requires few <= many && 0 <= minimum
    ensures Reserve(few, minimum) <= Reserve(many, minimum)
  {
    if few < many {
      ReserveIsMonotone(few, many - 1, minimum);
    }
  }

  /** Draws the number of steps: as many as fit their minimum distance into the pixel limit. */
  method DrawStepCount(policy: PacingPolicy, minimum: u32) returns (stepCount: u32)
    requires policy.Valid() && 1 <= minimum <= policy.maxScrollPixels
    ensures 1 <= stepCount <= policy.maxScrollSteps
    ensures Reserve(stepCount as nat, minimum as int) <= policy.maxScrollPixels as int
  {
    var fitting := policy.maxScrollPixels / minimum;
    StepsFit(minimum as int, policy.maxScrollPixels as int);
    assert 1 <= fitting;
    ReserveIsProduct(fitting as nat, minimum as int);
    var maximumSteps := Max(Min(policy.maxScrollSteps, fitting), 1);
    stepCount :| 1 <= stepCount <= maximumSteps;
    ReserveIsMonotone(stepCount as nat, fitting as nat, minimum as int);
  }

  // The end of the range a distance is drawn from.
  function MaximumDistance(minimum: u32, viewport: u32, remaining: u32, reserved: u32): (maximum: u32)
    requires minimum <= viewport && minimum as int + reserved as int <= remaining as int
    ensures minimum <= maximum <= viewport && maximum as int + reserved as int <= remaining as int
  {
    Max(Min(SaturatingSub(remaining, reserved), viewport), minimum)
  }

  /** Draws one distance. The service's saturating subtraction and final clamp never act. */
  method DrawDistance(minimum: u32, viewport: u32, remaining: u32, remainingSteps: u32) returns (distance: u32)
    requires 1 <= minimum <= viewport
    requires Reserve(remainingSteps as nat, minimum as int) + minimum as int <= remaining as int
    ensures MayDraw(minimum as int, viewport as int, remaining as int, remainingSteps as int, distance as int)
    ensures distance <= remaining
    ensures Reserve(remainingSteps as nat, minimum as int) <= remaining as int - distance as int
  {
    ReserveIsProduct(remainingSteps as nat, minimum as int);
    hide Reserve;
    var reserved := remainingSteps * minimum;
    var maximum := MaximumDistance(minimum, viewport, remaining, reserved);
    assert maximum as int + reserved as int <= remaining as int;
    distance :| minimum <= distance <= maximum;
  }

  /** Draws a plan. Every `:|` stands for one call of the random source: Dafny asks that its range is
      not empty, and the `u32` arithmetic that no step underflows or overflows. */
  method Plan(policy: PacingPolicy, height: u32) returns (steps: seq<ScrollStep>)
    requires policy.Valid()
    ensures WithinBounds(policy, height, Distances(steps))
    ensures Producible(policy, height, Distances(steps))
    ensures forall s :: s in steps ==> policy.settle.Allows(s.settleMs)
  {
    var viewport := Viewport(height);
    var minimum := MinimumDistance(policy, height);
    var stepCount := DrawStepCount(policy, minimum);
    var remaining := policy.maxScrollPixels;
    steps := [];
    ghost var drawn: seq<int> := [];
    var index: u32 := 0;
    while index < stepCount
      invariant index <= stepCount && |steps| == index as int
      invariant |drawn| == |steps| && forall i :: 0 <= i < |steps| ==> drawn[i] == steps[i].distance as int
      invariant remaining as int == policy.maxScrollPixels as int - Sum(drawn)
      invariant Reserve(stepCount as nat - index as nat, minimum as int) <= remaining as int
      invariant EachDrawable(minimum as int, viewport as int, policy.maxScrollPixels as int, drawn, stepCount as int)
      invariant forall s :: s in steps ==> policy.settle.Allows(s.settleMs)
    {
      var distance := DrawDistance(minimum, viewport, remaining, stepCount - index - 1);
      remaining := remaining - distance;
      assert policy.settle.Allows(policy.settle.minMs);
      var settle: real :| policy.settle.Allows(settle);
      DrawOneMore(minimum as int, viewport as int, policy.maxScrollPixels as int, drawn, stepCount as int,
                  distance as int);
      drawn := drawn + [distance as int];
      steps := steps + [ScrollStep(distance, settle)];
      index := index + 1;
    }
    assert drawn == Distances(steps);
    ReserveIsProduct(stepCount as nat, minimum as int);
    ProducibleIffWithinBounds(policy, height, drawn);
  }
}
