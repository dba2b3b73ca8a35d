/** The progress bars: the clamp and label placement of the basic bar, the
    step classification of the step bar, and the demo's step navigation
    and animation. Progress values are whole numbers. */
module ProgressBar {

  /** `Math.min(100, Math.max(0, progress))`. */
  function Clamp(progress: int): (r: int)
    ensures 0 <= r <= 100
    ensures 0 <= progress <= 100 ==> r == progress
    ensures progress < 0 ==> r == 0
    ensures progress > 100 ==> r == 100
  {
    if progress < 0 then 0 else if progress > 100 then 100 else progress
  }

  /** Clamping twice is clamping once. */
  lemma ClampIdempotent(progress: int)
    ensures Clamp(Clamp(progress)) == Clamp(progress)
  {
  }

  /** The percentage label sits inside the filled bar once there is room. */
  const LabelInsideAbove: int := 15

  /** Where the label shows: inside the bar or below it. */
  predicate LabelInside(showLabel: bool, progress: int) {
    showLabel && Clamp(progress) > LabelInsideAbove
  }

  predicate LabelBelow(showLabel: bool, progress: int) {
    showLabel && Clamp(progress) <= LabelInsideAbove
  }

  /** With `showLabel` the label appears in exactly one of the two places;
      without it, in neither. */
  lemma LabelExactlyOnce(showLabel: bool, progress: int)
    ensures showLabel ==> (LabelInside(showLabel, progress) <==> !LabelBelow(showLabel, progress))
    ensures !showLabel ==> !LabelInside(showLabel, progress) && !LabelBelow(showLabel, progress)
    ensures LabelInside(showLabel, progress) <==> showLabel && progress > LabelInsideAbove
  {
  }

  /** The three looks of a step dot. */
  datatype DotState = Completed | Active | Pending

  /** The dot of step `i`: completed before the current step, active on
      it, pending after. */
  function StepDot(i: nat, currentStep: int): (d: DotState)
    ensures d == Completed <==> i < currentStep
    ensures d == Active <==> i == currentStep
    ensures d == Pending <==> i > currentStep
  {
    if i < currentStep then Completed
    else if i == currentStep then Active
    else Pending
  }

  /** Label `i` is highlighted exactly when its step is completed. */
  predicate LabelHighlighted(i: nat, currentStep: int) {
    i < currentStep
  }

  /** The dots of a step bar: a run of completed ones, at most one active,
      then pending ones. */
  lemma DotsOrdered(i: nat, j: nat, currentStep: int)
    requires i < j
    ensures StepDot(j, currentStep) == Completed ==> StepDot(i, currentStep) == Completed
    ensures StepDot(i, currentStep) == Pending ==> StepDot(j, currentStep) == Pending
    ensures !(StepDot(i, currentStep) == Active && StepDot(j, currentStep) == Active)
    ensures LabelHighlighted(i, currentStep) <==> StepDot(i, currentStep) == Completed
  {
  }

  /** The demo's steps. */
  const Steps: seq<string> := ["Start", "Process", "Review", "Complete"]

  /** One interval tick of the animation: progress grows by 2 until it
      reaches 100, where it is pinned to 100 and the animation stops. */
  function Tick(progress: int, isAnimating: bool): (r: (int, bool))
    ensures progress >= 100 ==> r == (100, false)
    ensures progress < 100 ==> r.0 == progress + 2 && r.1 == isAnimating
  {
    if progress >= 100 then (100, false) else (progress + 2, isAnimating)
  }

  /** `k` ticks in a row. */
  function Ticks(progress: int, isAnimating: bool, k: nat): (int, bool)
    decreases k
  {
    if k == 0 then (progress, isAnimating)
    else
      var next := Tick(progress, isAnimating);
      Ticks(next.0, next.1, k - 1)
  }

  /** Started from 0, as `startAnimation` does, the animation shows 0, 2,
      ..., 100 and stops on the tick after reaching 100. */
  lemma {:induction false} AnimationRun(k: nat)
    requires k <= 50
    ensures Ticks(0, true, k) == (2 * k, true)
  {
    if k > 0 {
      AnimationRun(k - 1);
      TicksSnoc(0, true, k - 1);
    }
  }

  lemma {:induction false} TicksSnoc(progress: int, isAnimating: bool, k: nat)
    ensures Ticks(progress, isAnimating, k + 1)
         == Tick(Ticks(progress, isAnimating, k).0, Ticks(progress, isAnimating, k).1)
    decreases k
  {
    if k > 0 {
      var next := Tick(progress, isAnimating);
      TicksSnoc(next.0, next.1, k - 1);
    }
  }

  /** The 51st tick stops the animation at 100, and later ticks change
      nothing. */
  lemma AnimationStops(k: nat)
    requires k > 50
    ensures Ticks(0, true, k) == (100, false)
  {
    AnimationRun(50);
    AfterStopFixed(k - 50);
    TicksSplit(0, true, 50, k - 50);
  }

  lemma {:induction false} AfterStopFixed(k: nat)
    ensures k > 0 ==> Ticks(100, true, k) == (100, false)
    ensures Ticks(100, false, k) == (100, false)
    decreases k
  {
    if k > 0 {
      AfterStopFixed(k - 1);
    }
  }

  lemma {:induction false} TicksSplit(progress: int, isAnimating: bool, a: nat, b: nat)
    ensures Ticks(progress, isAnimating, a + b)
         == Ticks(Ticks(progress, isAnimating, a).0, Ticks(progress, isAnimating, a).1, b)
    decreases a
  {
    if a > 0 {
      var next := Tick(progress, isAnimating);
      TicksSplit(next.0, next.1, a - 1, b);
    }
  }

  /** The demo's state. */
  class Demo {
    var progress: int
    var currentStep: int
    var isAnimating: bool

    /** The step never leaves `[0, steps.length]`; the slider keeps
        progress in `[0, 100]`, and a tick from an odd value below 100
        can overshoot by one. */
    ghost predicate Valid()
      reads this
    {
      0 <= currentStep <= |Steps| && 0 <= progress <= 101
    }

    constructor ()
      ensures Valid()
      ensures progress == 0 && currentStep == 0 && !isAnimating
    {
      progress := 0;
      currentStep := 0;
      isAnimating := false;
    }

    method NextStep()
      requires Valid()
      modifies this
      ensures Valid()
      ensures currentStep == if old(currentStep) < |Steps| then old(currentStep) + 1 else old(currentStep)
      ensures progress == old(progress) && isAnimating == old(isAnimating)
    {
      if currentStep < |Steps| {
        currentStep := currentStep + 1;
      }
    }

    method PrevStep()
      requires Valid()
      modifies this
      ensures Valid()
      ensures currentStep == if old(currentStep) > 0 then old(currentStep) - 1 else old(currentStep)
      ensures progress == old(progress) && isAnimating == old(isAnimating)
    {
      if currentStep > 0 {
        currentStep := currentStep - 1;
      }
    }

    method ResetProgress()
      modifies this
      ensures Valid()
      ensures progress == 0 && currentStep == 0 && !isAnimating
    {
      progress := 0;
      currentStep := 0;
      isAnimating := false;
    }

    method StartAnimation()
      requires Valid()
      modifies this
      ensures Valid()
      ensures progress == 0 && isAnimating && currentStep == old(currentStep)
    {
      progress := 0;
      isAnimating := true;
    }

    /** The range input, which only delivers 0 to 100. */
    method Slide(value: int)
      requires Valid() && 0 <= value <= 100
      modifies this
      ensures Valid()
      ensures progress == value && currentStep == old(currentStep) && isAnimating == old(isAnimating)
    {
      progress := value;
    }

    /** One firing of the interval, which runs while animating. */
    method IntervalTick()
      requires Valid() && isAnimating
      modifies this
      ensures Valid()
      ensures (progress, isAnimating) == Tick(old(progress), old(isAnimating))
      ensures currentStep == old(currentStep)
    {
      if progress >= 100 {
        isAnimating := false;
        progress := 100;
      } else {
        progress := progress + 2;
      }
    }
  }
}
