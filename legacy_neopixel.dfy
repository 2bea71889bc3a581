/** The first LED controller, neopixel/neo.go. Its `withBrightness`,
    `setColor` and `Flash` are the statements of internal/neopixel/neo.go
    (`Colour.WithBrightness`, `NeoPixel.LedController.SetColor` and
    `NeoPixel.LedController.Flash`); its `singleBreathe` writes the LED buffer
    inline instead of calling `setColor`, and is shown here to draw the same
    pictures. Its `Queue` (neopixel/interruptor.go) counts a caller's own
    request as waiting until `done`, so an animation interrupts itself. */
module LegacyNeoPixel {
  import opened Colour
  import opened NeoPixel

  /** The inline loop of `singleBreathe` writing `c` into every LED of the
      buffer (without rendering). */
  method FillLeds(l: LedController, c: uint32)
    modifies l.leds
    ensures l.leds[..] == Fill(c, l.leds.Length)
  {
    var i := 0;
    while i < l.leds.Length
      invariant 0 <= i <= l.leds.Length
      invariant forall j :: 0 <= j < i ==> l.leds[j] == c
    {
      l.leds[i] := c;
      i := i + 1;
    }
    assert l.leds[..] == Fill(c, l.leds.Length);
  }

  /** `singleBreathe` with the inline buffer fill: each iteration writes the
      dimmed colour into every LED, then renders. */
  method SingleBreathe(l: LedController, color: uint32) returns (interrupted: bool)
    modifies l, l.leds
    ensures interrupted <==> old(l.quietPolls) < BreathLength
    ensures l.frames == old(l.frames) + Frames(BreathColors(color, Min(old(l.quietPolls), BreathLength)), l.leds.Length)
    ensures l.quietPolls == old(l.quietPolls) - Min(old(l.quietPolls), BreathLength)
  {
    var light: uint32 := 0;
    var increase := true;
    ghost var k: nat := 0;
    while true
      invariant k < BreathLength && k <= old(l.quietPolls)
      invariant light == BreathLevel(k) && (increase <==> k <= 100)
      invariant l.quietPolls == old(l.quietPolls) - k
      invariant l.frames == old(l.frames) + Frames(BreathColors(color, k), l.leds.Length)
      decreases BreathLength - k
    {
      interrupted := l.IsInterrupted();
      if interrupted {
        return;
      }
      var c := WithBrightness(color, light);
      FillLeds(l, c);
      l.Render();
      BreathNext(color, k, l.leds.Length);
      if increase {
        light := light + 1;
        if light > 100 {
          increase := false;
        }
      } else {
        if light == 0 {
          break;
        }
        light := light - 1;
      }
      k := k + 1;
    }
    interrupted := false;
  }

  /** `Breathe`: the inline breaths one after another until one is
      interrupted, then the ring is cleared. */
  method Breathe(l: LedController, color: uint32)
    modifies l, l.leds
    ensures l.frames == old(l.frames) + Frames(Breaths(color, old(l.quietPolls)) + [0], l.leds.Length)
    ensures l.quietPolls == 0
    ensures l.leds[..] == Fill(0, l.leds.Length)
  {
    ghost var polls := l.quietPolls;
    while true
      invariant old(l.frames) + Frames(Breaths(color, polls), l.leds.Length) ==
                l.frames + Frames(Breaths(color, l.quietPolls), l.leds.Length)
      decreases l.quietPolls
    {
      ghost var q := l.quietPolls;
      ghost var before := l.frames;
      var interrupted := SingleBreathe(l, color);
      BreathStep(color, q, before, l.frames, l.leds.Length);
      if interrupted {
        break;
      }
    }
    l.Clear();
    FramesAppend(Breaths(color, polls), [0], l.leds.Length);
  }

  /** `Queue` (neopixel/interruptor.go): `waiting` counts the requests made
      and not yet done, the running one included. The locks are not
      modelled: calls are taken one after another. */
  class Queue {
    var waiting: int

    constructor ()
      ensures waiting == 0
    {
      waiting := 0;
    }

    /** `interrupt`: a request is registered. */
    method Request()
      modifies this
      ensures waiting == old(waiting) + 1
    {
      waiting := waiting + 1;
    }

    /** `Queue`: register, then (take the run lock and) run; nothing
        withdraws the request before `done`. */
    method Enqueue()
      modifies this
      ensures waiting == old(waiting) + 1
    {
      Request();
    }

    /** `IsInterrupted`: some request is counted. */
    method IsInterrupted() returns (interrupted: bool)
      ensures interrupted <==> waiting != 0
    {
      interrupted := waiting != 0;
    }

    /** `done`: the request is withdrawn (and the run lock released). */
    method Done()
      modifies this
      ensures waiting == old(waiting) - 1
    {
      waiting := waiting - 1;
    }
  }

  /** As written: an animation that took the ring through `Queue` finds its
      own request counted, so its first check answers interrupted even when
      no other caller waits. */
  method OwnRequestInterrupts(q: Queue) returns (interrupted: bool)
    requires q.waiting >= 0
    modifies q
    ensures interrupted
    ensures q.waiting == old(q.waiting) + 1
  {
    q.Enqueue();
    interrupted := q.IsInterrupted();
  }

  /** So `Breathe` meets zero quiet checks: no breath is drawn, and the only
      picture it shows is the dark ring. */
  lemma {:induction false} BreatheInterruptedAtOnce(color: uint32, n: nat)
    ensures Frames(Breaths(color, 0) + [0], n) == [Fill(0, n)]
  {
    assert Breaths(color, 0) == BreathColors(color, 0) == [];
    FramesAppend([], [0], n);
  }

  /** `Breathe` behind its `Queue`: the controller's quiet checks are those
      the queue answers false, and the queue answers every check true once
      the caller's own request is counted, so there are none. The ring shows
      the dark picture only, and `done` withdraws the request. */
  method QueuedBreathe(q: Queue, l: LedController, color: uint32)
    requires q.waiting >= 0
    modifies q, l, l.leds
    ensures l.frames == old(l.frames) + [Fill(0, l.leds.Length)]
    ensures l.leds[..] == Fill(0, l.leds.Length)
    ensures q.waiting == old(q.waiting)
  {
    q.Enqueue();
    var interrupted := q.IsInterrupted();
    assert interrupted;
    l.quietPolls := 0;
    Breathe(l, color);
    BreatheInterruptedAtOnce(color, l.leds.Length);
    q.Done();
  }
}
