/** The small decisions of cmd/big-switch/main.go: how `LedNotifier` names
    an author and picks a service's colour, and the goroutine of
    `startConfirmChannel` that turns button presses into confirmations. */
module Notifier {
  import opened Colour
  import Button

  /** The maps `LedNotifier` is built with. */
  datatype LedNotifier = LedNotifier(colorMap: map<string, uint32>, authorMap: map<string, string>)

  /** The colour `Alert` breathes when a service has none configured. */
  const DefaultColor: uint32 := 0x0000FF

  /** `strings.Cut(s, " ")`'s first result: the text before the first
      space, or all of `s` when it has none. */
  function FirstWord(s: string): (r: string)
    ensures |r| <= |s| && r == s[..|r|]
    ensures forall k :: 0 <= k < |r| ==> r[k] != ' '
    ensures |r| == |s| || s[|r|] == ' '
  {
    if s == [] || s[0] == ' ' then [] else [s[0]] + FirstWord(s[1..])
  }

  /** The three properties of `FirstWord` single it out: the longest prefix
      without a space. */
  lemma FirstWordUnique(s: string, w: string)
    requires |w| <= |s| && w == s[..|w|]
    requires forall k :: 0 <= k < |w| ==> w[k] != ' '
    requires |w| == |s| || s[|w|] == ' '
    ensures w == FirstWord(s)
  {
    var r := FirstWord(s);
    if |w| < |r| {
      assert false;
    } else if |r| < |w| {
      assert false;
    }
  }

  /** `mapAuthor`: the configured display name, or else the author's first
      word. */
  function MapAuthor(n: LedNotifier, author: string): (name: string)
    ensures author in n.authorMap ==> name == n.authorMap[author]
    ensures author !in n.authorMap ==> name == FirstWord(author)
  {
    if author in n.authorMap then n.authorMap[author] else FirstWord(author)
  }

  /** An unmapped author is shown by the first word of the name, so an
      unmapped author without a space is shown whole. */
  lemma UnmappedSingleWord(n: LedNotifier, author: string)
    requires author !in n.authorMap
    requires forall k :: 0 <= k < |author| ==> author[k] != ' '
    ensures MapAuthor(n, author) == author
  {
    FirstWordUnique(author, author);
  }

  /** The colour `Alert` breathes for `service`. */
  function AlertColor(n: LedNotifier, service: string): (c: uint32)
    ensures service in n.colorMap ==> c == n.colorMap[service]
    ensures service !in n.colorMap ==> c == DefaultColor
  {
    if service in n.colorMap then n.colorMap[service] else DefaultColor
  }

  // ---------------------------------------------------------------------------
  // startConfirmChannel
  // ---------------------------------------------------------------------------

  /** One turn of the forwarding loop: the context's done channel was chosen
      (the `break` leaves only the `select`), or a button event arrived
      while the listener was, or was not, waiting on the confirmation
      channel. */
  datatype Turn = Done | Event(event: Button.ButtonEvent, listening: bool)

  /** A turn that hands a confirmation over. */
  predicate Delivers(t: Turn)
  {
    t.Event? && t.event.pressed && t.listening
  }

  /** The number of turns that hand a confirmation over. */
  function Deliveries(turns: seq<Turn>): nat
  {
    if turns == [] then 0
    else Deliveries(turns[..|turns| - 1]) + (if Delivers(turns[|turns| - 1]) then 1 else 0)
  }

  /** The goroutine of `startConfirmChannel` over the given turns of its
      endless loop: the values it sends on the confirmation channel. Only a
      press is forwarded, and only when someone is receiving; a release, a
      press nobody receives and a cancellation send nothing. */
  method ForwardPresses(turns: seq<Turn>) returns (confirms: seq<bool>)
    ensures |confirms| == Deliveries(turns)
    ensures forall k :: 0 <= k < |confirms| ==> confirms[k]
  {
    confirms := [];
    var i := 0;
    while i < |turns|
      invariant 0 <= i <= |turns|
      invariant |confirms| == Deliveries(turns[..i])
      invariant forall k :: 0 <= k < |confirms| ==> confirms[k]
    {
      assert turns[..i + 1][..i] == turns[..i];
      match turns[i] {
        case Done =>
        case Event(e, listening) =>
          if e.pressed {
            if listening {
              confirms := confirms + [true];
            }
          }
      }
      i := i + 1;
    }
    assert turns[..i] == turns;
  }

  /** With nobody listening, every press is lost: nothing is queued for a
      later receiver. */
  lemma {:induction false} UnheardPressesAreDropped(turns: seq<Turn>)
    requires forall k :: 0 <= k < |turns| ==> !(turns[k].Event? && turns[k].listening)
    ensures Deliveries(turns) == 0
  {
    if turns != [] {
      UnheardPressesAreDropped(turns[..|turns| - 1]);
    }
  }

  /** Releases never confirm: appending release events delivers nothing. */
  lemma {:induction false} ReleasesAreSilent(turns: seq<Turn>, releases: seq<Turn>)
    requires forall k :: 0 <= k < |releases| ==> releases[k].Event? && !releases[k].event.pressed
    ensures Deliveries(turns + releases) == Deliveries(turns)
    decreases |releases|
  {
    if releases != [] {
      var init := releases[..|releases| - 1];
      assert (turns + releases)[..|turns + releases| - 1] == turns + init;
      assert (turns + releases)[|turns + releases| - 1] == releases[|releases| - 1];
      ReleasesAreSilent(turns, init);
    } else {
      assert turns + releases == turns;
    }
  }
}
