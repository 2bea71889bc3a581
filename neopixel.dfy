/** The LED ring controller of internal/neopixel/neo.go. The ring's colour
    buffer (`ws.Leds(0)`) is an array written in place; every `Render`
    appends a copy of it to `frames`, the sequence of pictures shown.
    Whether a running animation has been interrupted by a queued caller is
    an input: `quietPolls` is how many more times `IsInterrupted` answers
    false before it answers true (and keeps answering true). */
module NeoPixel {
  import opened Colour

  /** `ledCounts`: the number of LEDs on the ring. */
  const LedCount := 24

  /** The buffer after writing `color` into every one of `n` LEDs. */
  function Fill(color: uint32, n: nat): (r: seq<uint32>)
    ensures |r| == n && forall k :: 0 <= k < n ==> r[k] == color
  {
    seq(n, _ => color)
  }

  /** The pictures shown when the colours `colors` are set one after another
      on a ring of `n` LEDs. */
  function Frames(colors: seq<uint32>, n: nat): (r: seq<seq<uint32>>)
    ensures |r| == |colors| && forall k :: 0 <= k < |colors| ==> r[k] == Fill(colors[k], n)
  {
    seq(|colors|, k requires 0 <= k < |colors| => Fill(colors[k], n))
  }

  lemma FramesAppend(a: seq<uint32>, b: seq<uint32>, n: nat)
    ensures Frames(a + b, n) == Frames(a, n) + Frames(b, n)
  {
  }

  function Min(x: int, y: int): int { if x < y then x else y }

  // ---------------------------------------------------------------------------
  // Schedules of the animations
  // ---------------------------------------------------------------------------

  /** The colour `Rainbow` shows at `step`: the wheel, dimmed to
      `100 - step % 100` percent beyond step 300. */
  function RainbowColor(step: nat): uint32
  {
    var c := GetRGB(step);
    if step > 300 then WithBrightness(c, 100 - step % 100) else c
  }

  /** The brightness `Rainbow` uses at a step: full up to step 300, then a
      fade from 99 down to 1 percent over steps 301 to 399. */
  function RainbowLevel(step: nat): int
  {
    if step > 300 then 100 - step % 100 else 100
  }

  /** The rainbow is the wheel at `RainbowLevel`; the level is full up to
      step 300 and then falls by one per step, from 99 to 1. */
  lemma RainbowSchedule(step: nat)
    requires step < 400
    ensures RainbowColor(step) == WithBrightness(GetRGB(step), RainbowLevel(step))
    ensures step <= 300 ==> RainbowColor(step) == GetRGB(step)
    ensures 300 < step ==> RainbowLevel(step) == 400 - step && 1 <= RainbowLevel(step) <= 99
  {
    if step > 300 {
      LastHundred(step);
      assert RainbowLevel(step) == 400 - step;
    } else {
      assert RainbowLevel(step) == 100;
    }
  }

  lemma LastHundred(step: int)
    requires 300 <= step < 400
    ensures step % 100 == step - 300
  {
    assert step == 3 * 100 + (step - 300);
  }

  /** The colours of the first `n` rainbow steps. */
  function RainbowColors(n: nat): (r: seq<uint32>)
    ensures |r| == n && forall k :: 0 <= k < n ==> r[k] == RainbowColor(k)
  {
    seq(n, k requires 0 <= k < n => RainbowColor(k))
  }

  /** One more step adds the picture of its colour. */
  lemma RainbowNext(step: nat, n: nat)
    ensures Frames(RainbowColors(step + 1), n) == Frames(RainbowColors(step), n) + [Fill(RainbowColor(step), n)]
  {
    assert RainbowColors(step + 1) == RainbowColors(step) + [RainbowColor(step)];
    FramesAppend(RainbowColors(step), [RainbowColor(step)], n);
  }

  /** The statements of `Rainbow` that pick the colour of one step. */
  method RainbowStepColor(step: nat) returns (c: uint32)
    ensures c == RainbowColor(step)
  {
    c := GetRGB(step);
    if step > 300 {
      c := WithBrightness(c, 100 - step % 100);
    }
  }

  /** The light level at iteration `k` of one breath: up from 0 to 101, then
      down to 0 again (203 iterations). */
  function BreathLevel(k: nat): (light: nat)
    requires k < BreathLength
    ensures light <= 101
  {
    if k <= 101 then k else 202 - k
  }

  /** The breath rises by one per iteration until it has passed 100, then
      falls by one per iteration, ends at 0, and never leaves 0..101. */
  lemma BreathShape(k: nat)
    requires k < BreathLength
    ensures 0 <= BreathLevel(k) <= 101
    ensures k < 101 ==> BreathLevel(k + 1) == BreathLevel(k) + 1
    ensures 101 <= k < 202 ==> BreathLevel(k + 1) == BreathLevel(k) - 1
    ensures BreathLevel(0) == 0 && BreathLevel(202) == 0 && BreathLevel(101) == 101
  {
  }

  /** The number of iterations (and pictures) of one uninterrupted breath. */
  const BreathLength := 203

  /** The end of one iteration of `singleBreath`'s loop: the level rises
      while `increase`, turning to fall once it has passed 100, and the
      breath is over when a falling level has reached 0. */
  method NextLevel(light: uint32, increase: bool, ghost k: nat)
    returns (next: uint32, rising: bool, over: bool)
    requires k < BreathLength && light as nat == BreathLevel(k) && (increase <==> k <= 100)
    ensures over <==> k == BreathLength - 1
    ensures !over ==> next as nat == BreathLevel(k + 1) && (rising <==> k + 1 <= 100)
  {
    BreathShape(k);
    next, rising, over := light, increase, false;
    if increase {
      next := light + 1;
      if next > 100 {
        rising := false;
      }
    } else if light == 0 {
      over := true;
    } else {
      next := light - 1;
    }
  }

  /** The colours of the first `n` iterations of a breath of `color`. */
  function BreathColors(color: uint32, n: nat): (r: seq<uint32>)
    requires n <= BreathLength
    ensures |r| == n && forall k :: 0 <= k < n ==> r[k] == WithBrightness(color, BreathLevel(k))
  {
    seq(n, k requires 0 <= k < n => WithBrightness(color, BreathLevel(k)))
  }

  /** One more iteration of a breath adds the picture of its level. */
  lemma BreathNext(color: uint32, k: nat, n: nat)
    requires k < BreathLength
    ensures Frames(BreathColors(color, k + 1), n) ==
            Frames(BreathColors(color, k), n) + [Fill(WithBrightness(color, BreathLevel(k)), n)]
  {
    assert BreathColors(color, k + 1) == BreathColors(color, k) + [WithBrightness(color, BreathLevel(k))];
    FramesAppend(BreathColors(color, k), [WithBrightness(color, BreathLevel(k))], n);
  }

  /** The colours of `Breathe` when the interruption comes after `polls`
      checks: whole breaths while the checks last, then the partial breath. */
  function Breaths(color: uint32, polls: nat): seq<uint32>
    decreases polls
  {
    if polls < BreathLength then BreathColors(color, polls)
    else BreathColors(color, BreathLength) + Breaths(color, polls - BreathLength)
  }

  /** Breathing is periodic: `polls` pictures, the `k`-th at the level of
      iteration `k % 203` of a breath. */
  lemma BreathsArePeriodic(color: uint32, polls: nat)
    ensures |Breaths(color, polls)| == polls
    ensures forall k :: 0 <= k < polls ==> Breaths(color, polls)[k] == WithBrightness(color, BreathLevel(k % 203))
  {
    BreathsLength(color, polls);
    forall k | 0 <= k < polls
      ensures Breaths(color, polls)[k] == WithBrightness(color, BreathLevel(k % 203))
    {
      BreathAt(color, polls, k);
    }
  }

  lemma {:induction false} BreathsLength(color: uint32, polls: nat)
    ensures |Breaths(color, polls)| == polls
    decreases polls
  {
    if polls >= BreathLength {
      BreathsLength(color, polls - BreathLength);
    }
  }

  lemma ModShift(k: int)
    requires k >= 203
    ensures k % 203 == (k - 203) % 203
  {
  }

  lemma {:induction false} BreathAt(color: uint32, polls: nat, k: nat)
    requires k < polls
    ensures |Breaths(color, polls)| == polls
    ensures Breaths(color, polls)[k] == WithBrightness(color, BreathLevel(k % 203))
    decreases polls
  {
    BreathsLength(color, polls);
    if polls < BreathLength {
      assert k % 203 == k;
    } else if k < BreathLength {
      assert k % 203 == k;
      assert Breaths(color, polls)[k] == BreathColors(color, BreathLength)[k];
    } else {
      BreathAt(color, polls - 203, k - 203);
      ModShift(k);
      assert Breaths(color, polls)[k] == Breaths(color, polls - 203)[k - 203];
    }
  }

  /** The flash pattern: the colour three times, each followed by black. */
  function FlashColors(color: uint32): seq<uint32>
  {
    [color, 0, color, 0, color, 0]
  }

  // ---------------------------------------------------------------------------
  // The controller
  // ---------------------------------------------------------------------------

  /** One breath of `Breathe`: the pictures of a whole breath followed by
      those still to come are the pictures from `q` checks on. */
  lemma BreathStep(color: uint32, q: nat, before: seq<seq<uint32>>, after: seq<seq<uint32>>, n: nat)
    requires after == before + Frames(BreathColors(color, Min(q, BreathLength)), n)
    ensures after + Frames(Breaths(color, q - Min(q, BreathLength)), n) == before + Frames(Breaths(color, q), n)
  {
    if q < BreathLength {
      LastBreath(color, q, n);
    } else {
      WholeBreath(color, q, n);
    }
  }

  /** An interrupted breath is the last: nothing follows it. */
  lemma LastBreath(color: uint32, q: nat, n: nat)
    requires q < BreathLength
    ensures Frames(Breaths(color, q), n) == Frames(BreathColors(color, q), n)
    ensures Frames(Breaths(color, 0), n) == []
  {
    assert Breaths(color, 0) == BreathColors(color, 0);
  }

  /** A whole breath is followed by the breaths of the remaining checks. */
  lemma WholeBreath(color: uint32, q: nat, n: nat)
    requires q >= BreathLength
    ensures Frames(Breaths(color, q), n) ==
            Frames(BreathColors(color, BreathLength), n) + Frames(Breaths(color, q - BreathLength), n)
  {
    FramesAppend(BreathColors(color, BreathLength), Breaths(color, q - BreathLength), n);
  }

  /** `Interruptor` (internal/neopixel/interruptor.go): `waiting` counts the
      requests for the ring that have been made but are not running yet.
      The locks are not modelled: calls are taken one after another. */
  class Interruptor {
    var waiting: int

    constructor ()
      ensures waiting == 0
    {
      waiting := 0;
    }

    /** `interrupt`: a request is registered, interrupting the animation. */
    method Request()
      modifies this
      ensures waiting == old(waiting) + 1
    {
      waiting := waiting + 1;
    }

    /** `running`: the request has the ring, so it no longer waits. */
    method Running()
      modifies this
      ensures waiting == old(waiting) - 1
    {
      waiting := waiting - 1;
    }

    /** `Interrupt`: register, (take the run lock,) then mark as running;
        the caller's own request is withdrawn again. */
    method Interrupt()
      modifies this
      ensures waiting == old(waiting)
    {
      Request();
      Running();
    }

    /** `IsInterrupted`: some request is waiting. */
    method IsInterrupted() returns (interrupted: bool)
      ensures interrupted <==> waiting != 0
    {
      interrupted := waiting != 0;
    }

    /** `done`: releases the run lock; the count is left as it is. */
    method Done()
      ensures waiting == old(waiting)
    {
    }
  }

  /** An animation that took the ring through `Interrupt` is not interrupted
      by its own request: its first check answers as the other callers'
      requests decide, false when none waits. */
  method OwnRequestWithdrawn(i: Interruptor) returns (interrupted: bool)
    modifies i
    ensures interrupted <==> old(i.waiting) != 0
    ensures i.waiting == old(i.waiting)
  {
    i.Interrupt();
    interrupted := i.IsInterrupted();
  }

  /** A request made by another caller while the animation runs is seen at
      the animation's next check. */
  method OtherRequestInterrupts(i: Interruptor) returns (interrupted: bool)
    requires i.waiting >= 0
    modifies i
    ensures interrupted
    ensures i.waiting == old(i.waiting) + 1
  {
    i.Request();
    interrupted := i.IsInterrupted();
  }

  class LedController {
    /** The ring's colour buffer, `ws.Leds(0)`. */
    const leds: array<uint32>
    /** Every picture rendered so far. */
    var frames: seq<seq<uint32>>
    /** How many more interruption checks answer false. */
    var quietPolls: nat

    /** A fresh ring of `LedCount` dark LEDs. */
    constructor (quietPolls: nat)
      ensures leds.Length == LedCount && leds[..] == Fill(0, LedCount)
      ensures frames == [] && this.quietPolls == quietPolls
    {
      leds := new uint32[LedCount](_ => 0);
      frames := [];
      this.quietPolls := quietPolls;
    }

    /** The interruption check: true once the quiet checks are used up. */
    method IsInterrupted() returns (interrupted: bool)
      modifies this
      ensures interrupted <==> old(quietPolls) == 0
      ensures quietPolls == if interrupted then 0 else old(quietPolls) - 1
      ensures frames == old(frames)
    {
      if quietPolls == 0 {
        return true;
      }
      quietPolls := quietPolls - 1;
      return false;
    }

    /** `ws.Render`: shows the buffer. */
    method Render()
      modifies this
      ensures frames == old(frames) + [leds[..]]
      ensures quietPolls == old(quietPolls)
    {
      frames := frames + [leds[..]];
    }

    /** `setColor`: writes `color` into every LED of the buffer, then renders
      it. */
    method SetColor(color: uint32)
      modifies this, leds
      ensures leds[..] == Fill(color, leds.Length)
      ensures frames == old(frames) + [Fill(color, leds.Length)]
      ensures quietPolls == old(quietPolls)
    {
      var i := 0;
      while i < leds.Length
        modifies leds
        invariant 0 <= i <= leds.Length
        invariant forall k :: 0 <= k < i ==> leds[k] == color
      {
        leds[i] := color;
        i := i + 1;
      }
      assert leds[..] == Fill(color, leds.Length);
      Render();
    }

    /** `clear`: all LEDs off. */
    method Clear()
      modifies this, leds
      ensures leds[..] == Fill(0, leds.Length)
      ensures frames == old(frames) + [Fill(0, leds.Length)]
      ensures quietPolls == old(quietPolls)
    {
      SetColor(0);
    }

    /** `Stop`: takes the ring and turns it off. */
    method Stop()
      modifies this, leds
      ensures leds[..] == Fill(0, leds.Length)
      ensures frames == old(frames) + [Fill(0, leds.Length)]
      ensures quietPolls == old(quietPolls)
    {
      Clear();
    }

    /** `Flash`: the colour, black, the colour, black, the colour, black; the
      ring is left dark. */
    method Flash(color: uint32)
      modifies this, leds
      ensures frames == old(frames) + Frames(FlashColors(color), leds.Length)
      ensures leds[..] == Fill(0, leds.Length)
      ensures quietPolls == old(quietPolls)
    {
      SetColor(color);
      SetColor(0);
      SetColor(color);
      SetColor(0);
      SetColor(color);
      SetColor(0);
    }

    /** `Rainbow`: steps 0 to 399 of the rainbow schedule, one picture per
      step, stopping with an error at the first interrupted check; either way
      the ring is cleared at the end. */
    method Rainbow() returns (interrupted: bool)
      modifies this, leds
      ensures interrupted <==> old(quietPolls) < 400
      ensures frames == old(frames) + Frames(RainbowColors(Min(old(quietPolls), 400)) + [0], leds.Length)
      ensures quietPolls == old(quietPolls) - Min(old(quietPolls), 400)
      ensures leds[..] == Fill(0, leds.Length)
    {
      var step := 0;
      while step < 400
        invariant 0 <= step <= 400 && step <= old(quietPolls)
        invariant quietPolls == old(quietPolls) - step
        invariant frames == old(frames) + Frames(RainbowColors(step), leds.Length)
      {
        interrupted := IsInterrupted();
        if interrupted {
          Clear();
          FramesAppend(RainbowColors(step), [0], leds.Length);
          return;
        }
        var c := RainbowStepColor(step);
        SetColor(c);
        RainbowNext(step, leds.Length);
        step := step + 1;
      }
      interrupted := false;
      Clear();
      FramesAppend(RainbowColors(400), [0], leds.Length);
    }

    /** `singleBreathe`: one breath of `color`, up from dark to full and back
      to dark, one picture per iteration; an interrupted check ends it with
      an error before that iteration's picture. */
    method SingleBreathe(color: uint32) returns (interrupted: bool)
      modifies this, leds
      ensures interrupted <==> old(quietPolls) < BreathLength
      ensures frames == old(frames) + Frames(BreathColors(color, Min(old(quietPolls), BreathLength)), leds.Length)
      ensures quietPolls == old(quietPolls) - Min(old(quietPolls), BreathLength)
    {
      var light: uint32 := 0;
      var increase := true;
      ghost var k: nat := 0;
      while true
        invariant k < BreathLength && k <= old(quietPolls)
        invariant light == BreathLevel(k) && (increase <==> k <= 100)
        invariant quietPolls == old(quietPolls) - k
        invariant frames == old(frames) + Frames(BreathColors(color, k), leds.Length)
        decreases BreathLength - k
      {
        interrupted := IsInterrupted();
        if interrupted {
          return;
        }
        var c := WithBrightness(color, light);
        SetColor(c);
        BreathNext(color, k, leds.Length);
        var over;
        light, increase, over := NextLevel(light, increase, k);
        if over {
          break;
        }
        k := k + 1;
      }
      interrupted := false;
    }

    /** `Breathe`: breaths of `color` one after another until one is
      interrupted, then the ring is cleared. */
    method Breathe(color: uint32)
      modifies this, leds
      ensures frames == old(frames) + Frames(Breaths(color, old(quietPolls)) + [0], leds.Length)
      ensures quietPolls == 0
      ensures leds[..] == Fill(0, leds.Length)
    {
      ghost var polls := quietPolls;
      while true
        invariant old(frames) + Frames(Breaths(color, polls), leds.Length) ==
                  frames + Frames(Breaths(color, quietPolls), leds.Length)
        decreases quietPolls
      {
        ghost var q := quietPolls;
        ghost var before := frames;
        var interrupted := SingleBreathe(color);
        BreathStep(color, q, before, frames, leds.Length);
        if interrupted {
          break;
        }
      }
      Clear();
      FramesAppend(Breaths(color, polls), [0], leds.Length);
    }
  }
}
