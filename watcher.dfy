/** The release-drift watcher of internal/deploy/watcher.go: environment
    selection from a decoded status payload, and the per-tick cold / warm-up /
    hot state machine of `AddWatch`. Time is abstracted: the ticker and the
    warm-up sleep become the sequence of poll results the loop sees. */
module Watcher {
  import opened Wrappers
  import opened Artifacts

  /** A proposal to promote `artifact` of `service` to prod. */
  datatype ChangeEvent = ChangeEvent(service: string, artifact: string)

  /** One decoded entry of the status payload's `environments` list. */
  datatype Environment = Environment(name: string, artifact: Artifact)

  // ---------------------------------------------------------------------------
  // Environment selection (GetArtifacts)
  // ---------------------------------------------------------------------------

  /** Reference definition: the artifact of the LAST entry named `env`, or the
      zero artifact when there is none. */
  function LastArtifact(entries: seq<Environment>, env: string): Artifact
  {
    if entries == [] then ZeroArtifact
    else if entries[|entries| - 1].name == env then entries[|entries| - 1].artifact
    else LastArtifact(entries[..|entries| - 1], env)
  }

  /** `LastArtifact` picks the last matching entry: either no entry carries that
      name and the result is the zero artifact, or some entry `i` does, the
      result is its artifact and no later entry carries the name. */
  lemma {:induction false} LastArtifactIsLastMatch(entries: seq<Environment>, env: string)
    ensures (forall i :: 0 <= i < |entries| ==> entries[i].name != env) ==> LastArtifact(entries, env) == ZeroArtifact
    ensures (exists i :: 0 <= i < |entries| && entries[i].name == env) ==>
      exists i :: 0 <= i < |entries| && entries[i].name == env && LastArtifact(entries, env) == entries[i].artifact &&
        forall j :: i < j < |entries| ==> entries[j].name != env
  {
    if entries != [] {
      var n := |entries| - 1;
      var init := entries[..n];
      if entries[n].name != env {
        LastArtifactIsLastMatch(init, env);
        assert LastArtifact(entries, env) == LastArtifact(init, env);
        if exists i :: 0 <= i < |entries| && entries[i].name == env {
          var i :| 0 <= i < |entries| && entries[i].name == env;
          assert init[i].name == env;
          var j :| 0 <= j < |init| && init[j].name == env && LastArtifact(init, env) == init[j].artifact &&
            forall m :: j < m < |init| ==> init[m].name != env;
          assert entries[j] == init[j];
          assert forall m :: j < m < |entries| ==> entries[m].name != env by {
            forall m | j < m < |entries| ensures entries[m].name != env {
              if m < n {
                assert entries[m] == init[m];
              }
            }
          }
        } else {
          assert forall i :: 0 <= i < |init| ==> init[i].name != env by {
            forall i | 0 <= i < |init| ensures init[i].name != env {
              assert init[i] == entries[i];
            }
          }
        }
      }
    }
  }

  /** The snapshot `GetArtifacts` builds from the decoded entries. */
  function Selected(service: string, entries: seq<Environment>): Artifacts
  {
    Artifacts(service, LastArtifact(entries, "prod"), LastArtifact(entries, "dev"))
  }

  /** The environment loop of `GetArtifacts`: starts from the service name and
      zero artifacts and overwrites Dev / Prod for each "dev" / "prod" entry;
      other names are ignored. */
  method GetArtifacts(service: string, entries: seq<Environment>) returns (a: Artifacts)
    ensures a.service == service
    ensures a.dev == LastArtifact(entries, "dev") && a.prod == LastArtifact(entries, "prod")
  {
    a := Artifacts(service, ZeroArtifact, ZeroArtifact);
    var i := 0;
    while i < |entries|
      invariant 0 <= i <= |entries|
      invariant a == Selected(service, entries[..i])
    {
      assert entries[..i + 1][..i] == entries[..i];
      var env := entries[i];
      if env.name == "dev" {
        a := a.(dev := env.artifact);
      } else if env.name == "prod" {
        a := a.(prod := env.artifact);
      }
      i := i + 1;
    }
    assert entries[..|entries|] == entries;
  }

  // ---------------------------------------------------------------------------
  // Fetching a snapshot (the error handling around the decoded payload)
  // ---------------------------------------------------------------------------

  /** What one status request produced: whether building the request failed,
      and the decoded entries, or None when `client.Do` returned an error. */
  datatype Response = Response(requestFailed: bool, body: Option<seq<Environment>>)

  /** `GetArtifacts` as written: the error of `client.Do` is discarded and the
      stale `err` of the request builder is checked again, so a failed call
      decodes nothing and yields a snapshot with zero artifacts. */
  function FetchAsWritten(service: string, r: Response): (a: Option<Artifacts>)
    ensures a.None? <==> r.requestFailed
    ensures !r.requestFailed && r.body.None? ==> a == Some(Artifacts(service, ZeroArtifact, ZeroArtifact))
  {
    if r.requestFailed then None
    else Some(Selected(service, r.body.GetOr([])))
  }

  /** `GetArtifacts` with the error of `client.Do` returned, as the code
      evidently intends: any failure is a failed fetch. */
  function Fetch(service: string, r: Response): (a: Option<Artifacts>)
    ensures a.None? <==> r.requestFailed || r.body.None?
    ensures a.Some? ==> a.value.service == service && a.value.dev == LastArtifact(r.body.value, "dev")
                        && a.value.prod == LastArtifact(r.body.value, "prod")
  {
    if r.requestFailed || r.body.None? then None
    else Some(Selected(service, r.body.value))
  }

  // ---------------------------------------------------------------------------
  // The per-tick state machine of AddWatch
  // ---------------------------------------------------------------------------

  /** The loop variables of one watch: `cold`, `warmupArtifact` (the dev
      artifact that started the warm-up) and `lastHotArtifact` (the dev
      artifact last handled in the hot state). */
  datatype WatchState = WatchState(cold: bool, warmupArtifact: Artifact, lastHotArtifact: Artifact)

  const InitialState := WatchState(true, ZeroArtifact, ZeroArtifact)

  /** One tick on a fetched snapshot (None: the fetch failed). */
  function Step(s: WatchState, poll: Option<Artifacts>): (r: (WatchState, Option<ChangeEvent>))
    // a failed fetch sends nothing and changes nothing
    ensures poll.None? ==> r == (s, None)
    // an event is sent exactly on a hot poll that sees the warm-up dev artifact still behind
    ensures r.1.Some? <==> poll.Some? && !s.cold && Equals(s.warmupArtifact, poll.value.dev) && IsProdBehind(poll.value)
    ensures r.1.Some? ==> r.1.value == ChangeEvent(poll.value.service, poll.value.dev.name)
    // cold and already seen: skipped
    ensures poll.Some? && s.cold && Equals(s.lastHotArtifact, poll.value.dev) ==> r.0 == s
    // cold, new dev artifact, prod behind: warm up on that dev artifact
    ensures poll.Some? && s.cold && !Equals(s.lastHotArtifact, poll.value.dev) && IsProdBehind(poll.value) ==>
      r.0 == WatchState(false, poll.value.dev, s.lastHotArtifact)
    // every other successful poll is handled as hot: back to cold, remembering the warm-up artifact
    ensures poll.Some? && (!s.cold || (!Equals(s.lastHotArtifact, poll.value.dev) && !IsProdBehind(poll.value))) ==>
      r.0 == WatchState(true, s.warmupArtifact, s.warmupArtifact)
  {
    match poll
    case None => (s, None)
    case Some(a) =>
      if s.cold && Equals(s.lastHotArtifact, a.dev) then (s, None)
      else if s.cold && IsProdBehind(a) then (s.(warmupArtifact := a.dev, cold := false), None)
      else
        var event := if Equals(s.warmupArtifact, a.dev) && IsProdBehind(a) then Some(ChangeEvent(a.service, a.dev.name)) else None;
        (s.(lastHotArtifact := s.warmupArtifact, cold := true), event)
  }

  /** The watch loop over a sequence of ticks: the state afterwards and, per
      tick, what was sent on the changes channel. */
  function Run(s: WatchState, polls: seq<Option<Artifacts>>): (r: (WatchState, seq<Option<ChangeEvent>>))
    ensures |r.1| == |polls|
    decreases |polls|
  {
    if polls == [] then (s, [])
    else
      var (s1, event) := Step(s, polls[0]);
      var (s2, events) := Run(s1, polls[1..]);
      (s2, [event] + events)
  }

  /** The events actually sent, in order. */
  function Sent(outputs: seq<Option<ChangeEvent>>): seq<ChangeEvent>
  {
    if outputs == [] then []
    else (if outputs[0].Some? then [outputs[0].value] else []) + Sent(outputs[1..])
  }

  /** The number of successful fetches among the first `k` ticks. */
  function Successes(polls: seq<Option<Artifacts>>, k: nat): nat
    requires k <= |polls|
  {
    if k == 0 then 0 else (if polls[0].Some? then 1 else 0) + Successes(polls[1..], k - 1)
  }

  /** The state of a watch that has seen `n` successful polls of the same
      drifted snapshot `a` from the initial state. */
  function SteadyPhase(a: Artifacts, n: nat): WatchState
  {
    if n == 0 then InitialState
    else if n == 1 then WatchState(false, a.dev, ZeroArtifact)
    else WatchState(true, a.dev, a.dev)
  }

  lemma {:induction false} SteadyRun(a: Artifacts, n: nat, polls: seq<Option<Artifacts>>)
    requires IsProdBehind(a) && a.dev != ZeroArtifact
    requires forall k :: 0 <= k < |polls| ==> polls[k] in {None, Some(a)}
    ensures forall k :: 0 <= k < |polls| ==>
      Run(SteadyPhase(a, n), polls).1[k] ==
        if polls[k].Some? && n + Successes(polls, k) == 1 then Some(ChangeEvent(a.service, a.dev.name)) else None
    ensures Run(SteadyPhase(a, n), polls).0 == SteadyPhase(a, n + Successes(polls, |polls|))
    decreases |polls|
  {
    if polls != [] {
      var s := SteadyPhase(a, n);
      var n1 := if polls[0].Some? then n + 1 else n;
      assert Step(s, polls[0]).0 == SteadyPhase(a, n1);
      SteadyRun(a, n1, polls[1..]);
      assert Successes(polls, |polls|) == (if polls[0].Some? then 1 else 0) + Successes(polls[1..], |polls[1..]|);
      forall k | 0 <= k < |polls|
        ensures Run(s, polls).1[k] ==
          if polls[k].Some? && n + Successes(polls, k) == 1 then Some(ChangeEvent(a.service, a.dev.name)) else None
      {
        if k > 0 {
          assert polls[1..][k - 1] == polls[k];
          assert Run(s, polls).1[k] == Run(SteadyPhase(a, n1), polls[1..]).1[k - 1];
        }
      }
    }
  }

  /** If every successful poll returns the same drifted snapshot, exactly one
      event is sent, on the second successful poll, and never again; failed
      polls in between do not disturb the count. */
  lemma OnlyReportsChangeOnce(a: Artifacts, polls: seq<Option<Artifacts>>)
    requires IsProdBehind(a) && a.dev != ZeroArtifact
    requires forall k :: 0 <= k < |polls| ==> polls[k] in {None, Some(a)}
    ensures forall k :: 0 <= k < |polls| ==>
      Run(InitialState, polls).1[k] ==
        if polls[k].Some? && Successes(polls, k) == 1 then Some(ChangeEvent(a.service, a.dev.name)) else None
  {
    SteadyRun(a, 0, polls);
  }

  /** Once a dev artifact has been handled hot, polls that keep showing that
      dev artifact (or fail) send nothing and leave the state as it is. */
  lemma {:induction false} QuietWhileDevUnchanged(s: WatchState, polls: seq<Option<Artifacts>>)
    requires s.cold
    requires forall k :: 0 <= k < |polls| && polls[k].Some? ==> polls[k].value.dev == s.lastHotArtifact
    ensures Run(s, polls).0 == s
    ensures forall k :: 0 <= k < |polls| ==> Run(s, polls).1[k].None?
  {
    if polls != [] {
      QuietWhileDevUnchanged(s, polls[1..]);
      assert forall k :: 1 <= k < |polls| ==> Run(s, polls).1[k] == Run(s, polls[1..]).1[k - 1];
    }
  }

  /** The corner the drift predicate leaves open: a drifted snapshot whose dev
      artifact is the zero artifact (possible only with a negative prod time)
      looks to a fresh watch like a dev artifact already handled, so it is
      never reported. */
  lemma ZeroDevDriftNeverSent(a: Artifacts, polls: seq<Option<Artifacts>>)
    requires IsProdBehind(a) && a.dev == ZeroArtifact
    requires forall k :: 0 <= k < |polls| ==> polls[k] in {None, Some(a)}
    ensures Run(InitialState, polls).0 == InitialState
    ensures forall k :: 0 <= k < |polls| ==> Run(InitialState, polls).1[k].None?
  {
    QuietWhileDevUnchanged(InitialState, polls);
  }

  /** Re-arming: after an event for one dev artifact, a new drifted dev
      artifact is reported once more after its own warm-up poll. */
  lemma RearmsOnNewDevArtifact(s: WatchState, b: Artifacts)
    requires s.cold && IsProdBehind(b) && b.dev != s.lastHotArtifact
    ensures Run(s, [Some(b), Some(b)]).1 == [None, Some(ChangeEvent(b.service, b.dev.name))]
    ensures Run(s, [Some(b), Some(b)]).0 == WatchState(true, b.dev, b.dev)
  {
    var s1 := WatchState(false, b.dev, s.lastHotArtifact);
    assert Step(s, Some(b)) == (s1, None);
    assert Step(s1, Some(b)) == (WatchState(true, b.dev, b.dev), Some(ChangeEvent(b.service, b.dev.name)));
    assert [Some(b), Some(b)][1..] == [Some(b)];
    RunOne(s1, Some(b));
  }

  /** A hot poll that no longer sees the warm-up artifact drifted sends
      nothing, yet still records the warm-up artifact as handled: when dev
      comes back to it, the drift is not reported again. */
  lemma ChangedHotPollSuppresses(s: WatchState, b: Artifacts, polls: seq<Option<Artifacts>>)
    requires !s.cold && (!Equals(s.warmupArtifact, b.dev) || !IsProdBehind(b))
    requires forall k :: 0 <= k < |polls| && polls[k].Some? ==> polls[k].value.dev == s.warmupArtifact
    ensures Run(s, [Some(b)] + polls).1 == [None] + Run(s.(cold := true, lastHotArtifact := s.warmupArtifact), polls).1
    ensures forall k :: 0 <= k < |polls| + 1 ==> Run(s, [Some(b)] + polls).1[k].None?
  {
    assert ([Some(b)] + polls)[1..] == polls;
    QuietWhileDevUnchanged(s.(cold := true, lastHotArtifact := s.warmupArtifact), polls);
  }

  // ---------------------------------------------------------------------------
  // Finding: the discarded client.Do error loses a drift
  // ---------------------------------------------------------------------------

  /** `n` copies of `x`: a poll repeated over `n` ticks. */
  function Repeat<T>(x: T, n: nat): (r: seq<T>)
    ensures |r| == n && forall k :: 0 <= k < n ==> r[k] == x
  {
    if n == 0 then [] else [x] + Repeat(x, n - 1)
  }

  /** As written: a warm-up poll, then a tick whose `client.Do` fails, then any
      number of polls of the same drifted snapshot: no event is ever sent. The
      failed call decodes to zero artifacts, which the hot branch treats as a
      changed state, so the warm-up dev artifact is marked as handled. */
  lemma SwallowedFetchErrorHidesDrift(a: Artifacts, n: nat)
    requires IsProdBehind(a) && a.dev != ZeroArtifact
    ensures var failed := FetchAsWritten(a.service, Response(false, None));
      forall k :: 0 <= k < n + 2 ==> Run(InitialState, [Some(a), failed] + Repeat(Some(a), n)).1[k].None?
  {
    var failed := FetchAsWritten(a.service, Response(false, None));
    var polls := [Some(a), failed] + Repeat(Some(a), n);
    var s1 := Step(InitialState, Some(a)).0;
    assert s1 == WatchState(false, a.dev, ZeroArtifact);
    var s2 := Step(s1, failed).0;
    assert s2 == WatchState(true, a.dev, a.dev);
    QuietWhileDevUnchanged(s2, Repeat(Some(a), n));
    assert polls[1..] == [failed] + Repeat(Some(a), n);
    assert polls[1..][1..] == Repeat(Some(a), n);
    forall k | 2 <= k < n + 2 ensures Run(InitialState, polls).1[k] == Run(s2, Repeat(Some(a), n)).1[k - 2] {
      assert Run(InitialState, polls).1[k] == Run(s1, polls[1..]).1[k - 1];
    }
  }

  /** Corrected: with the error of `client.Do` returned, the failed tick is a
      failed fetch, and the drift is reported on the next successful poll. */
  lemma FetchErrorKeepsDrift(a: Artifacts, n: nat)
    requires IsProdBehind(a) && a.dev != ZeroArtifact
    ensures var failed := Fetch(a.service, Response(false, None));
      Run(InitialState, [Some(a), failed, Some(a)] + Repeat(Some(a), n)).1[2] == Some(ChangeEvent(a.service, a.dev.name))
  {
    var polls := [Some(a), None, Some(a)] + Repeat(Some(a), n);
    OnlyReportsChangeOnce(a, polls);
    assert Successes(polls, 2) == 1 by {
      assert polls[1..][0] == None;
      assert Successes(polls[1..], 1) == Successes(polls[1..][1..], 0);
    }
  }

  // ---------------------------------------------------------------------------
  // The watch object
  // ---------------------------------------------------------------------------

  /** One goroutine started by `AddWatch`: the watched service and its loop
      variables, updated tick by tick. */
  class DriftWatch {
    const service: string
    var cold: bool
    var warmupArtifact: Artifact
    var lastHotArtifact: Artifact

    function State(): WatchState
      reads this
    {
      WatchState(cold, warmupArtifact, lastHotArtifact)
    }

    constructor (service: string)
      ensures this.service == service && State() == InitialState
    {
      this.service := service;
      cold := true;
      warmupArtifact := ZeroArtifact;
      lastHotArtifact := ZeroArtifact;
    }

    /** The body of the watch loop for one tick. */
    method Tick(poll: Option<Artifacts>) returns (event: Option<ChangeEvent>)
      modifies this
      ensures (State(), event) == Step(old(State()), poll)
      ensures poll.None? ==> event.None? && State() == old(State())
    {
      if poll.None? {
        return None;
      }
      var a := poll.value;
      if cold {
        if Equals(lastHotArtifact, a.dev) {
          return None;
        }
        if IsProdBehind(a) {
          warmupArtifact := a.dev;
          cold := false;
          return None;
        }
      }
      event := None;
      if Equals(warmupArtifact, a.dev) && IsProdBehind(a) {
        event := Some(ChangeEvent(a.service, a.dev.name));
      }
      lastHotArtifact := warmupArtifact;
      cold := true;
    }

    /** The watch loop over the ticks that happen before cancellation: each
        tick fetches the watched service's snapshot (as the code is written)
        and runs the loop body on it; what is sent on the changes channel is
        returned in order. */
    method Watch(responses: seq<Response>) returns (sent: seq<ChangeEvent>)
      modifies this
      ensures State() == Run(old(State()), Polls(service, responses)).0
      ensures sent == Sent(Run(old(State()), Polls(service, responses)).1)
    {
      ghost var start := State();
      ghost var polls := Polls(service, responses);
      var i := 0;
      sent := [];
      while i < |responses|
        invariant 0 <= i <= |responses|
        invariant State() == Run(start, polls[..i]).0
        invariant sent == Sent(Run(start, polls[..i]).1)
      {
        var poll := FetchAsWritten(service, responses[i]);
        assert poll == polls[i];
        ghost var before := State();
        RunSplit(start, polls[..i], [poll]);
        assert polls[..i] + [poll] == polls[..i + 1];
        RunOne(before, poll);
        var event := Tick(poll);
        SentAppend(Run(start, polls[..i]).1, [event]);
        assert Sent([event]) == if event.Some? then [event.value] else [];
        if event.Some? {
          sent := sent + [event.value];
        }
        i := i + 1;
      }
      assert polls[..i] == polls;
    }
  }

  /** The snapshots the watch loop's fetches give, one per tick, with the
      fetch as written. */
  function Polls(service: string, responses: seq<Response>): (polls: seq<Option<Artifacts>>)
    ensures |polls| == |responses|
    ensures forall k :: 0 <= k < |responses| ==> polls[k] == FetchAsWritten(service, responses[k])
  {
    if responses == [] then [] else [FetchAsWritten(service, responses[0])] + Polls(service, responses[1..])
  }

  lemma {:induction false} RunSplit(s: WatchState, p: seq<Option<Artifacts>>, q: seq<Option<Artifacts>>)
    ensures Run(s, p + q) == (Run(Run(s, p).0, q).0, Run(s, p).1 + Run(Run(s, p).0, q).1)
    decreases |p|
  {
    if p == [] {
      assert p + q == q;
      assert Run(s, p) == (s, []);
      assert [] + Run(s, q).1 == Run(s, q).1;
    } else {
      assert (p + q)[0] == p[0];
      assert (p + q)[1..] == p[1..] + q;
      var s1 := Step(s, p[0]).0;
      var e := Step(s, p[0]).1;
      RunSplit(s1, p[1..], q);
      var mid := Run(s1, p[1..]);
      assert Run(s, p) == (mid.0, [e] + mid.1);
      assert Run(s, p + q) == (Run(s1, p[1..] + q).0, [e] + Run(s1, p[1..] + q).1);
      assert [e] + (mid.1 + Run(mid.0, q).1) == ([e] + mid.1) + Run(mid.0, q).1;
    }
  }

  lemma RunOne(s: WatchState, poll: Option<Artifacts>)
    ensures Run(s, [poll]) == (Step(s, poll).0, [Step(s, poll).1])
  {
    assert [poll][1..] == [];
    var (s1, e) := Step(s, poll);
    assert Run(s1, []) == (s1, []);
    assert [e] + [] == [e];
  }

  lemma {:induction false} SentAppend(a: seq<Option<ChangeEvent>>, b: seq<Option<ChangeEvent>>)
    ensures Sent(a + b) == Sent(a) + Sent(b)
    decreases |a|
  {
    if a == [] {
      assert a + b == b;
    } else {
      assert (a + b)[0] == a[0];
      assert (a + b)[1..] == a[1..] + b;
      SentAppend(a[1..], b);
    }
  }
}
