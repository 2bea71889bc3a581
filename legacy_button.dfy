/** The first button handler, button.go. Its `handleButton` runs the
    statements of internal/button/button.go (`Button.HandleButton`), sending
    events whose extra `Held` field is always false; its `String` lets
    `Held` override the pressed / released word. */
module LegacyButton {
  import Button

  datatype ButtonEvent = ButtonEvent(pressed: bool, held: bool)

  /** `ButtonEvent.String`. */
  function EventText(b: ButtonEvent): (s: string)
    ensures |s| > |Button.Prefix| && s[..|Button.Prefix|] == Button.Prefix
    ensures b.held <==> s == "Button was held"
    ensures !b.held && b.pressed <==> s == "Button was pressed"
    ensures !b.held && !b.pressed <==> s == "Button was released"
  {
    var action := if !b.pressed then "released" else "pressed";
    var action := if b.held then "held" else action;
    Button.Prefix + action
  }

  /** `handleButton`: the debounce of `Button.HandleButton`, each event sent
      with `Held` false. */
  method HandleButton(initial: Button.Level, polls: seq<Button.Poll>) returns (events: seq<ButtonEvent>, last: Button.Level)
    ensures |events| == |Button.Debounce(initial, polls).1| && last == Button.Debounce(initial, polls).0
    ensures forall k :: 0 <= k < |events| ==>
      events[k] == ButtonEvent(Button.Debounce(initial, polls).1[k].pressed, false)
    ensures forall k :: 0 <= k < |events| - 1 ==> events[k].pressed != events[k + 1].pressed
  {
    var sent;
    sent, last := Button.HandleButton(initial, polls);
    events := seq(|sent|, k requires 0 <= k < |sent| => ButtonEvent(sent[k].pressed, false));
  }
}
