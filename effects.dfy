/** The later animation set of internal/neopixel/effects.go. Its `Flash`,
    `Breathe` and `singleBreath` run the same statements as those of
    internal/neopixel/neo.go (only the interruption field is named
    differently) and are the `NeoPixel.LedController` methods; its
    `Rainbow` has its own schedule: 451 steps with a fade-in over the first
    50 and a fade-out over the last 100. */
module NeoPixelEffects {
  import opened Colour
  import opened NeoPixel

  /** The colour this `Rainbow` shows at `step`. */
  function FadeColor(step: nat): uint32
    requires step <= 450
  {
    var wheel := GetRGB(step);
    var c := if step < 50 then WithBrightness(wheel, step * 2) else wheel;
    if step > 350 then WithBrightness(c, 450 - step) else c
  }

  /** The brightness the schedule applies at `step` (100: untouched). */
  function FadeLevel(step: nat): int
  {
    if step < 50 then step * 2 else if step > 350 then 450 - step else 100
  }

  /** The schedule: a fade-in at twice the step for steps below 50, the plain
      wheel for steps 50 to 350, a fade-out to `450 - step` after 350. */
  lemma FadeSchedule(step: nat)
    requires step <= 450
    ensures FadeColor(step) == WithBrightness(GetRGB(step), FadeLevel(step))
    ensures 50 <= step <= 350 ==> FadeColor(step) == GetRGB(step)
  {
    var c := GetRGB(step);
    if step < 50 {
      assert FadeColor(step) == WithBrightness(c, step * 2);
    } else if step > 350 {
      assert FadeColor(step) == WithBrightness(c, 450 - step);
    } else {
      assert FadeColor(step) == c;
    }
  }

  /** Both ends of the run are black: the fade-in starts at level 0 and the
      fade-out reaches level 0 at step 450. */
  lemma FadeEndsDark()
    ensures FadeColor(0) == 0 && FadeColor(450) == 0
  {
    assert FadeColor(0) == WithBrightness(GetRGB(0), 0);
    assert FadeColor(450) == WithBrightness(GetRGB(450), 0);
  }

  /** Every fade level is below 100, the fade-in only brightens and the
      fade-out only darkens. */
  lemma FadesAreMonotone(s: nat, t: nat)
    requires s <= t <= 450
    ensures (t < 50 || t > 350) ==> 0 <= FadeLevel(t) < 100
    ensures t < 50 ==> FadeLevel(s) <= FadeLevel(t)
    ensures 350 < s ==> FadeLevel(s) >= FadeLevel(t)
  {
  }

  /** The colours of the first `n` steps. */
  function FadeColors(n: nat): (r: seq<uint32>)
    requires n <= 451
    ensures |r| == n && forall k :: 0 <= k < n ==> r[k] == FadeColor(k)
  {
    seq(n, k requires 0 <= k < n => FadeColor(k))
  }

  /** One more step adds the picture of its colour. */
  lemma FadeNext(step: nat, n: nat)
    requires step < 451
    ensures Frames(FadeColors(step + 1), n) == Frames(FadeColors(step), n) + [Fill(FadeColor(step), n)]
  {
    assert FadeColors(step + 1) == FadeColors(step) + [FadeColor(step)];
    FramesAppend(FadeColors(step), [FadeColor(step)], n);
  }

  /** The statements of `Rainbow` that pick the colour of one step. */
  method StepColor(step: nat) returns (c: uint32)
    requires step <= 450
    ensures c == FadeColor(step)
  {
    c := GetRGB(step);
    if step < 50 {
      c := WithBrightness(c, step * 2);
    }
    if step > 350 {
      c := WithBrightness(c, 450 - step);
    }
  }

  /** `Rainbow`: steps 0 to 450 inclusive, one picture per step, stopping
      with an error at the first interrupted check (before that step's
      picture); either way the ring is cleared at the end. */
  method Rainbow(l: LedController) returns (interrupted: bool)
    modifies l, l.leds
    ensures interrupted <==> old(l.quietPolls) < 451
    ensures l.frames == old(l.frames) + Frames(FadeColors(Min(old(l.quietPolls), 451)) + [0], l.leds.Length)
    ensures l.quietPolls == old(l.quietPolls) - Min(old(l.quietPolls), 451)
    ensures l.leds[..] == Fill(0, l.leds.Length)
  {
    var step := 0;
    while step <= 450
      invariant 0 <= step <= 451 && step <= old(l.quietPolls)
      invariant l.quietPolls == old(l.quietPolls) - step
      invariant l.frames == old(l.frames) + Frames(FadeColors(step), l.leds.Length)
    {
      interrupted := l.IsInterrupted();
      if interrupted {
        l.Clear();
        FramesAppend(FadeColors(step), [0], l.leds.Length);
        return;
      }
      var c := StepColor(step);
      l.SetColor(c);
      FadeNext(step, l.leds.Length);
      step := step + 1;
    }
    interrupted := false;
    l.Clear();
    FramesAppend(FadeColors(451), [0], l.leds.Length);
  }
}
