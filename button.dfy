/** The push button of internal/button: its event text (common.go) and the
    debounce loop `handleButton` (button.go) that turns the pin's edges into
    press and release events. The pin is an input script: for each turn of
    the loop, whether an edge arrived within the second, and the two reads
    that follow it. */
module Button {
  import opened Wrappers

  /** A pin level; `Low` is a pressed button (the pin is pulled up). */
  type Level = bool
  const High: Level := true
  const Low: Level := false

  datatype ButtonEvent = ButtonEvent(pressed: bool)

  const Prefix := "Button was "

  /** `ButtonEvent.String`. */
  function EventText(b: ButtonEvent): (s: string)
    ensures |s| > |Prefix| && s[..|Prefix|] == Prefix
    ensures b.pressed <==> s == "Button was pressed"
    ensures !b.pressed <==> s == "Button was released"
  {
    Prefix + (if b.pressed then "pressed" else "released")
  }

  /** One turn of the loop: `WaitForEdge` timed out, or an edge came and the
      pin then read `first`, and `second` after the 15 ms pause (the second
      read is made only when the first differs from the remembered level). */
  datatype Poll = NoEdge | Edge(first: Level, second: Level)

  /** One turn: the remembered level afterwards and the event sent, if any. */
  function Step(last: Level, p: Poll): (r: (Level, Option<ButtonEvent>))
    // a timeout or a read equal to the remembered level does nothing
    ensures (p.NoEdge? || p.first == last) ==> r == (last, None)
    // a changed level is reported only when the second read confirms it
    ensures p.Edge? && p.first != last ==>
      if p.second == p.first then r == (p.first, Some(ButtonEvent(p.first == Low))) else r == (last, None)
  {
    match p
    case NoEdge => (last, None)
    case Edge(l, again) =>
      if l == last then (last, None)
      else if l == again then (l, Some(ButtonEvent(l == Low)))
      else (last, None)
  }

  /** The remembered level and the events sent over a script of turns. */
  function Debounce(last: Level, polls: seq<Poll>): (Level, seq<ButtonEvent>)
    decreases |polls|
  {
    if polls == [] then (last, [])
    else
      var (before, events) := Debounce(last, polls[..|polls| - 1]);
      var (after, e) := Step(before, polls[|polls| - 1]);
      (after, events + (if e.Some? then [e.value] else []))
  }

  /** Events alternate: the first reports a change from the starting level,
      each later one reverses the one before, and the remembered level is
      the one the last event reported. */
  predicate Alternating(initial: Level, last: Level, events: seq<ButtonEvent>)
  {
    (|events| == 0 ==> last == initial) &&
    (|events| > 0 ==> events[0].pressed == (initial == High) && events[|events| - 1].pressed == (last == Low)) &&
    (forall k :: 0 <= k < |events| - 1 ==> events[k].pressed != events[k + 1].pressed)
  }

  lemma {:induction false} DebounceAlternates(initial: Level, polls: seq<Poll>)
    ensures Alternating(initial, Debounce(initial, polls).0, Debounce(initial, polls).1)
    decreases |polls|
  {
    if polls != [] {
      var init := polls[..|polls| - 1];
      DebounceAlternates(initial, init);
    }
  }

  /** `handleButton` for the given turns of its endless loop: returns the
      events sent on the channel and the level it remembers at the end. */
  method HandleButton(initial: Level, polls: seq<Poll>) returns (events: seq<ButtonEvent>, last: Level)
    ensures (last, events) == Debounce(initial, polls)
    ensures Alternating(initial, last, events)
  {
    last := initial;
    events := [];
    var i := 0;
    while i < |polls|
      invariant 0 <= i <= |polls|
      invariant (last, events) == Debounce(initial, polls[..i])
    {
      assert polls[..i + 1][..i] == polls[..i];
      ghost var before := events;
      ghost var r := Step(last, polls[i]);
      match polls[i] {
        case NoEdge =>
        case Edge(l, again) =>
          if l != last && l == again {
            last := l;
            events := events + [ButtonEvent(l == Low)];
          }
      }
      assert last == r.0 && events == before + (if r.1.Some? then [r.1.value] else []);
      i := i + 1;
    }
    assert polls[..i] == polls;
    DebounceAlternates(initial, polls);
  }
}
