/** The earlier release-manager checker of internal/deploy/ham.go: every
    tick whose fetch succeeds and whose dev and prod tags differ is offered,
    with no warm-up and no de-duplication. Its `GetArtifacts` environment loop
    is the one of `Watcher.GetArtifacts`; what differs is the query it builds
    and the emit rule. */
module HamChecker {
  import opened Wrappers
  import opened Artifacts
  import opened Watcher

  /** The query parameters of the status request: the service always, the
      namespace only when one is given. */
  function QueryValues(service: string, namespace: string): (values: map<string, seq<string>>)
    ensures "service" in values && values["service"] == [service]
    ensures "namespace" in values <==> namespace != []
    ensures "namespace" in values ==> values["namespace"] == [namespace]
    ensures values.Keys <= {"service", "namespace"}
  {
    if namespace == "" then map["service" := [service]]
    else map["service" := [service], "namespace" := [namespace]]
  }

  /** One tick of `Checker.AddWatch` as written: a differing dev and prod tag
      is offered with the PROD tag, even when prod is the newer deployment
      (that case is only logged). */
  function Tick(poll: Option<Artifacts>): (event: Option<ChangeEvent>)
    ensures event.Some? <==> poll.Some? && poll.value.dev.name != poll.value.prod.name
    ensures event.Some? ==> event.value == ChangeEvent(poll.value.service, poll.value.prod.name)
  {
    match poll
    case None => None
    case Some(a) => if a.dev.name != a.prod.name then Some(ChangeEvent(a.service, a.prod.name)) else None
  }

  /** What the watch sends over a sequence of ticks, in order. */
  function Offers(polls: seq<Option<Artifacts>>): seq<ChangeEvent>
  {
    if polls == [] then []
    else Offers(polls[..|polls| - 1]) + (match Tick(polls[|polls| - 1]) case Some(e) => [e] case None => [])
  }

  /** The watch loop over the ticks before the kill switch is flipped. */
  method Watch(polls: seq<Option<Artifacts>>) returns (sent: seq<ChangeEvent>)
    ensures sent == Offers(polls)
  {
    sent := [];
    var i := 0;
    while i < |polls|
      invariant 0 <= i <= |polls|
      invariant sent == Offers(polls[..i])
    {
      assert polls[..i + 1][..i] == polls[..i];
      if polls[i].Some? {
        var a := polls[i].value;
        if a.dev.name != a.prod.name {
          sent := sent + [ChangeEvent(a.service, a.prod.name)];
        }
      }
      i := i + 1;
    }
    assert polls[..i] == polls;
  }

  /** No de-duplication: a differing snapshot seen on `n` successful ticks is
      offered `n` times, and failed ticks offer nothing. */
  lemma {:induction false} OffersEveryTick(a: Artifacts, polls: seq<Option<Artifacts>>)
    requires a.dev.name != a.prod.name
    requires forall k :: 0 <= k < |polls| ==> polls[k] in {None, Some(a)}
    ensures |Offers(polls)| == Successes(polls, |polls|)
    ensures forall k :: 0 <= k < |Offers(polls)| ==> Offers(polls)[k] == ChangeEvent(a.service, a.prod.name)
  {
    if polls != [] {
      var n := |polls| - 1;
      OffersEveryTick(a, polls[..n]);
      SuccessesLast(polls);
    }
  }

  /** Counting successes one tick further. */
  lemma {:induction false} SuccessesLast(polls: seq<Option<Artifacts>>)
    requires polls != []
    ensures Successes(polls, |polls|) == Successes(polls[..|polls| - 1], |polls| - 1) + (if polls[|polls| - 1].Some? then 1 else 0)
    decreases |polls|
  {
    var n := |polls| - 1;
    if n > 0 {
      assert polls[..n][1..] == polls[1..][..n - 1];
      SuccessesLast(polls[1..]);
    }
  }

  /** What the log message promises: when prod is the newer deployment the
      tick does not offer a deploy. */
  function IntendedTick(poll: Option<Artifacts>): (event: Option<ChangeEvent>)
    ensures event.Some? <==> poll.Some? && poll.value.dev.name != poll.value.prod.name && poll.value.prod.time <= poll.value.dev.time
    ensures event.Some? ==> event.value == ChangeEvent(poll.value.service, poll.value.prod.name)
  {
    match poll
    case None => None
    case Some(a) =>
      if a.dev.name != a.prod.name && a.prod.time <= a.dev.time then Some(ChangeEvent(a.service, a.prod.name)) else None
  }

  /** As written, a prod newer than dev is still offered for promotion; the
      intended tick offers nothing for it, and agrees with the written one
      everywhere else. */
  lemma ProdNewerStillOffered(a: Artifacts)
    requires a.dev.name != a.prod.name && a.prod.time > a.dev.time
    ensures Tick(Some(a)) == Some(ChangeEvent(a.service, a.prod.name))
    ensures IntendedTick(Some(a)) == None
    ensures forall poll: Option<Artifacts> :: poll.Some? && poll.value.prod.time <= poll.value.dev.time ==> IntendedTick(poll) == Tick(poll)
  {
  }

  /** The checker's lifetime: whether the `sync.Once` guarding `Close` has run
      and how often the kill switch was closed. */
  class Checker {
    var stopped: bool
    var killSwitchCloses: nat

    /** The kill switch is closed at most once, and exactly when the guard ran. */
    predicate Valid()
      reads this
    {
      killSwitchCloses == if stopped then 1 else 0
    }

    constructor ()
      ensures Valid() && !stopped
    {
      stopped := false;
      killSwitchCloses := 0;
    }

    /** `Close`: closes the kill switch the first time only; later calls do
        nothing and every call reports no error. */
    method Close() returns (err: Option<string>)
      requires Valid()
      modifies this
      ensures Valid() && stopped
      ensures killSwitchCloses == 1
      ensures old(stopped) ==> killSwitchCloses == old(killSwitchCloses)
      ensures err == None
    {
      if !stopped {
        stopped := true;
        killSwitchCloses := killSwitchCloses + 1;
      }
      err := None;
    }
  }
}
