/** The confirmation listener `ChangeListener` of internal/deploy/watcher.go:
    for each change event it alerts the notifier, waits for a confirmation or a
    timeout, promotes on a `true` confirmation and reports the outcome, and
    always resets the notifier. The blocking selects become a scripted input
    and the notifier / promoter calls an output trace. */
module ChangeListener {
  import opened Wrappers
  import opened Watcher
  import opened Counting

  /** How the inner `select` for one event ends: a value received on the
      confirmation channel (with, for `true`, whether `Promote` returned an
      error), or the 45-second timeout. */
  datatype Outcome = Confirmed(value: bool, promoteFails: bool) | TimedOut

  /** One turn of the outer `select`. `Cancelled`: the context's done channel
      was chosen; the `break` there leaves only the `select`, so the loop goes
      on. `Unarmed`: a confirmation offered while no event is pending, which
      nobody receives. `Changed`: an event received, and how its wait ended. */
  datatype Input = Cancelled | Unarmed(value: bool) | Changed(event: ChangeEvent, outcome: Outcome)

  /** The calls the listener makes on its collaborators, in order. `Print` is
      the direct `lcd.Print` call; `Pause` the wait after a failed trigger. */
  datatype Call =
    | Alert(service: string)
    | Promote(service: string, artifact: string)
    | Print(line1: string, line2: string)
    | Failure
    | Pause(seconds: nat)
    | Success
    | Reset

  /** The calls made for one turn of the outer loop. */
  function Handle(input: Input): seq<Call>
  {
    match input
    case Cancelled => []
    case Unarmed(_) => []
    case Changed(e, TimedOut) => [Alert(e.service), Reset]
    case Changed(e, Confirmed(value, promoteFails)) =>
      if !value then [Alert(e.service), Reset]
      else if promoteFails then [Alert(e.service), Promote(e.service, e.artifact), Print("TRIGGER FAILED", ""), Failure, Pause(5), Reset]
      else [Alert(e.service), Promote(e.service, e.artifact), Success, Reset]
  }

  lemma HandleShape(input: Input)
    // nothing happens on a cancellation or an unreceived confirmation
    ensures !input.Changed? ==> Handle(input) == []
    // an event is announced first and ends with the (single) reset
    ensures var r := Handle(input);
      input.Changed? ==> |r| >= 2 && r[0] == Alert(input.event.service) && r[|r| - 1] == Reset
    ensures var r := Handle(input);
      forall k :: 0 <= k < |r| - 1 ==> r[k] != Reset
    // a promotion happens exactly on a `true` confirmation, right after the alert, with the event's data
    ensures var r := Handle(input);
      !(input.Changed? && input.outcome.Confirmed? && input.outcome.value) ==> forall k :: 0 <= k < |r| ==> !r[k].Promote?
    ensures var r := Handle(input);
      input.Changed? && input.outcome.Confirmed? && input.outcome.value ==> r[1] == Promote(input.event.service, input.event.artifact)
    // success and failure are reported exactly on the promoter's result, never both
    ensures Success in Handle(input) <==> input.Changed? && input.outcome == Confirmed(true, false)
    ensures Failure in Handle(input) <==> input.Changed? && input.outcome == Confirmed(true, true)
  {
  }

  /** The trace of the whole listener over a script of loop turns. */
  function Listen(inputs: seq<Input>): seq<Call>
  {
    if inputs == [] then [] else Listen(inputs[..|inputs| - 1]) + Handle(inputs[|inputs| - 1])
  }

  /** The listener loop. It never returns on its own (cancellation does not end
      it), so this models the turns it makes on a given script. */
  method Run(inputs: seq<Input>) returns (calls: seq<Call>)
    ensures calls == Listen(inputs)
  {
    calls := [];
    var i := 0;
    while i < |inputs|
      invariant 0 <= i <= |inputs|
      invariant calls == Listen(inputs[..i])
      decreases |inputs| - i
    {
      assert inputs[..i + 1][..i] == inputs[..i];
      var turn: seq<Call> := [];
      match inputs[i] {
        case Cancelled =>
        case Unarmed(_) =>
        case Changed(e, outcome) =>
          turn := [Alert(e.service)];
          match outcome {
            case TimedOut =>
            case Confirmed(value, promoteFails) =>
              if value {
                turn := turn + [Promote(e.service, e.artifact)];
                if promoteFails {
                  turn := turn + [Print("TRIGGER FAILED", ""), Failure, Pause(5)];
                } else {
                  turn := turn + [Success];
                }
              }
          }
          turn := turn + [Reset];
          assert turn == Handle(Changed(e, outcome));
      }
      calls := calls + turn;
      i := i + 1;
    }
    assert inputs[..i] == inputs;
  }

  // ---------------------------------------------------------------------------
  // Protocol: a phase automaton over the trace
  // ---------------------------------------------------------------------------

  /** Where the notifier protocol stands: no event pending; an alert shown for
      a service; a promotion issued; a failure printed, reported; the outcome
      reported and only the reset missing. */
  datatype Phase = Idle | Alerted(service: string) | Promoting | FailurePrinted | FailureReported | Reported

  /** The protocol: `Alert` only when idle; `Promote` only for the alerted
      service; then either `Success`, or the failure message, `Failure` and
      the pause; `Reset` closes every alert, whether or not anything was
      promoted. */
  function Next(p: Phase, c: Call): Option<Phase>
  {
    match (p, c)
    case (Idle, Alert(s)) => Some(Alerted(s))
    case (Alerted(s), Promote(s', _)) => if s == s' then Some(Promoting) else None
    case (Alerted(_), Reset) => Some(Idle)
    case (Promoting, Success) => Some(Reported)
    case (Promoting, Print(_, _)) => Some(FailurePrinted)
    case (FailurePrinted, Failure) => Some(FailureReported)
    case (FailureReported, Pause(_)) => Some(Reported)
    case (Reported, Reset) => Some(Idle)
    case _ => None
  }

  /** Runs the automaton over a trace; None when the trace breaks the protocol. */
  function Replay(p: Phase, trace: seq<Call>): Option<Phase>
    decreases |trace|
  {
    if trace == [] then Some(p)
    else match Next(p, trace[0])
      case None => None
      case Some(q) => Replay(q, trace[1..])
  }

  lemma {:induction false} ReplayAppend(p: Phase, a: seq<Call>, b: seq<Call>)
    requires Replay(p, a).Some?
    ensures Replay(p, a + b) == Replay(Replay(p, a).value, b)
    decreases |a|
  {
    if a == [] {
      assert a + b == b;
    } else {
      assert (a + b)[0] == a[0];
      assert (a + b)[1..] == a[1..] + b;
      ReplayAppend(Next(p, a[0]).value, a[1..], b);
    }
  }

  /** Each turn takes the protocol from idle back to idle. */
  lemma HandleKeepsProtocol(input: Input)
    ensures Replay(Idle, Handle(input)) == Some(Idle)
  {
    var r := Handle(input);
    if input.Changed? {
      var phases: seq<Phase>;
      var s := input.event.service;
      if |r| == 2 {
        phases := [Idle, Alerted(s), Idle];
      } else if |r| == 4 {
        phases := [Idle, Alerted(s), Promoting, Reported, Idle];
      } else {
        phases := [Idle, Alerted(s), Promoting, FailurePrinted, FailureReported, Reported, Idle];
      }
      ReplayPath(r, phases);
    }
  }

  /** A trace whose every call moves the automaton along `phases` replays to
      the last phase. */
  lemma {:induction false} ReplayPath(trace: seq<Call>, phases: seq<Phase>)
    requires |phases| == |trace| + 1
    requires forall k :: 0 <= k < |trace| ==> Next(phases[k], trace[k]) == Some(phases[k + 1])
    ensures Replay(phases[0], trace) == Some(phases[|trace|])
    decreases |trace|
  {
    if trace != [] {
      ReplayPath(trace[1..], phases[1..]);
    }
  }

  /** The whole listener trace follows the protocol: every alert is closed by
      exactly one reset before the next alert, promotions happen only for the
      alerted service while an alert is open, and success and failure are
      never both reported for one alert. */
  lemma {:induction false} ListenKeepsProtocol(inputs: seq<Input>)
    ensures Replay(Idle, Listen(inputs)) == Some(Idle)
  {
    if inputs != [] {
      var init := inputs[..|inputs| - 1];
      ListenKeepsProtocol(init);
      ReplayAppend(Idle, Listen(init), Handle(inputs[|inputs| - 1]));
      HandleKeepsProtocol(inputs[|inputs| - 1]);
    }
  }

  // ---------------------------------------------------------------------------
  // Counting: one alert and one reset per event, promotions per confirmation
  // ---------------------------------------------------------------------------

  predicate IsAlert(c: Call) { c.Alert? }
  predicate IsReset(c: Call) { c.Reset? }
  predicate IsPromote(c: Call) { c.Promote? }
  predicate IsEvent(i: Input) { i.Changed? }
  predicate IsApproval(i: Input) { i.Changed? && i.outcome.Confirmed? && i.outcome.value }

  lemma HandleCounts(input: Input)
    ensures Count(Handle(input), IsAlert) == (if IsEvent(input) then 1 else 0)
    ensures Count(Handle(input), IsReset) == (if IsEvent(input) then 1 else 0)
    ensures Count(Handle(input), IsPromote) == (if IsApproval(input) then 1 else 0)
  {
    var r := Handle(input);
    if IsEvent(input) {
      CountOne(r, IsAlert, 0);
      CountOne(r, IsReset, |r| - 1);
      if IsApproval(input) {
        CountOne(r, IsPromote, 1);
      } else {
        CountNone(r, IsPromote);
      }
    } else {
      CountNone(r, IsAlert);
      CountNone(r, IsReset);
      CountNone(r, IsPromote);
    }
  }

  /** Every received event gets exactly one alert and exactly one reset, and
      exactly the `true` confirmations lead to a promotion. */
  lemma {:induction false} OneResetPerEvent(inputs: seq<Input>)
    ensures Count(Listen(inputs), IsAlert) == Count(inputs, IsEvent)
    ensures Count(Listen(inputs), IsReset) == Count(inputs, IsEvent)
    ensures Count(Listen(inputs), IsPromote) == Count(inputs, IsApproval)
  {
    if inputs != [] {
      var init := inputs[..|inputs| - 1];
      var last := inputs[|inputs| - 1];
      OneResetPerEvent(init);
      HandleCounts(last);
      CountAppend(Listen(init), Handle(last), IsAlert);
      CountAppend(Listen(init), Handle(last), IsReset);
      CountAppend(Listen(init), Handle(last), IsPromote);
    }
  }

  /** Confirmations offered while no event is pending and cancellations leave
      no trace: with no event, the listener never touches the promoter or the
      notifier. */
  lemma {:induction false} NotArmedIsSilent(inputs: seq<Input>)
    requires forall k :: 0 <= k < |inputs| ==> !inputs[k].Changed?
    ensures Listen(inputs) == []
  {
    if inputs != [] {
      NotArmedIsSilent(inputs[..|inputs| - 1]);
    }
  }

  /** Cancellation does not stop the listener: an event received after the
      context was cancelled is handled exactly as before. */
  lemma CancellationDoesNotStop(before: seq<Input>, after: Input)
    ensures Listen(before + [Cancelled, after]) == Listen(before) + Handle(after)
  {
    var s := before + [Cancelled, after];
    assert s[..|s| - 1] == before + [Cancelled];
    assert (before + [Cancelled])[..|before|] == before;
  }
}
