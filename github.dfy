/** The GitHub branch watcher of deploy/github.go: a rate-limit safety gate
    in front of every head-commit request, and a watch loop that reports a
    branch whenever its head commit changes. The wall clock is a parameter
    (`now`) and each GitHub reply is an input. */
module GithubWatcher {
  import opened Wrappers

  /** `MinRatePercentage`: at or below this share of the hourly quota left,
      requests stop. */
  const MinRatePercentage := 20

  /** A branch that moved to a new head commit. */
  datatype ChangeEvent = ChangeEvent(owner: string, repo: string, branch: string, sha: string)

  /** The rate information of the last GitHub reply: the quota, what is left
      of it, and when it resets (as a clock reading). */
  datatype Rate = Rate(limit: int, remaining: int, reset: int)

  datatype Error = RateLimited

  /** Go's integer division, which truncates toward zero (Dafny's `/` is
      Euclidean). */
  function GoQuo(a: int, b: int): (q: int)
    requires b != 0
    ensures a >= 0 && b > 0 ==> q == a / b
    ensures q * b == a - GoRem(a, b)
  {
    var q := Abs(a) / Abs(b);
    TruncatedDivision(a, b);
    if (a < 0) == (b < 0) then q else -q
  }

  /** Dividing the magnitudes and restoring the signs keeps Euclid's
      equation. */
  lemma TruncatedDivision(a: int, b: int)
    requires b != 0
    ensures var q := Abs(a) / Abs(b);
      (if (a < 0) == (b < 0) then q else -q) * b == a - GoRem(a, b)
  {
    var q := Abs(a) / Abs(b);
    var r := Abs(a) % Abs(b);
    assert q * Abs(b) + r == Abs(a);
    if b < 0 {
      assert (-q) * b == q * Abs(b);
      assert q * b == -(q * Abs(b));
    } else {
      assert q * b == q * Abs(b);
    }
  }

  /** The remainder matching `GoQuo`: it takes the sign of the dividend and
      is smaller than the divisor in magnitude. */
  function GoRem(a: int, b: int): (r: int)
    requires b != 0
    ensures Abs(r) < Abs(b) && (r == 0 || (r < 0) == (a < 0))
  {
    var r := Abs(a) % Abs(b);
    if a < 0 then -r else r
  }

  function Abs(x: int): nat { if x < 0 then -x else x }

  /** `CheckRate`: no error before the first request or once the quota has
      reset; otherwise an error unless more than 20 percent (in truncated
      whole percent) of the quota is left. The division needs a non-zero
      limit wherever it is reached. */
  function CheckRate(rate: Option<Rate>, now: int): (r: Option<Error>)
    requires rate.Some? && !(rate.value.reset < now) ==> rate.value.limit != 0
    ensures rate.None? ==> r.None?
    ensures rate.Some? && rate.value.reset < now ==> r.None?
    ensures rate.Some? && !(rate.value.reset < now) ==>
      (r.None? <==> GoQuo(rate.value.remaining * 100, rate.value.limit) > MinRatePercentage)
  {
    match rate
    case None => None
    case Some(rt) =>
      if rt.reset < now then None
      else
        var percent := GoQuo(rt.remaining * 100, rt.limit);
        if percent > MinRatePercentage then None else Some(RateLimited)
  }

  /** The gate in whole numbers, for a positive quota and a non-negative
      remainder: requests go on exactly while at least 21 percent is left,
      so exactly 20 percent is already rate limited. */
  lemma RateThreshold(limit: int, remaining: int, reset: int, now: int)
    requires limit > 0 && remaining >= 0 && !(reset < now)
    ensures CheckRate(Some(Rate(limit, remaining, reset)), now).None? <==> remaining * 100 >= 21 * limit
    ensures remaining * 100 == 20 * limit ==> CheckRate(Some(Rate(limit, remaining, reset)), now) == Some(RateLimited)
  {
    QuotientAtLeast(remaining * 100, limit, 21);
  }

  lemma QuotientAtLeast(a: int, b: int, c: int)
    requires a >= 0 && b > 0 && c >= 0
    ensures a / b >= c <==> a >= c * b
  {
    var q, r := a / b, a % b;
    assert a == q * b + r && 0 <= r < b;
    if q >= c {
      MulMonotone(c, q, b);
    } else {
      MulMonotone(q + 1, c, b);
    }
  }

  lemma MulMonotone(x: int, y: int, b: int)
    requires x <= y && b >= 0
    ensures x * b <= y * b
  {
  }

  /** The reply of one GitHub branch request: the head commit and the rate
      information returned with it. */
  datatype Reply = Reply(sha: string, rate: Rate)

  /** One watch tick: the clock reading and what GitHub would answer. */
  datatype Tick = Tick(now: int, reply: Reply)

  /** Every reply reports a non-zero limit. */
  predicate RepliesUsable(ticks: seq<Tick>)
  {
    forall k :: 0 <= k < |ticks| ==> ticks[k].reply.rate.limit != 0
  }

  /** Every rate the checker can hold has a non-zero limit. */
  predicate RatesUsable(rate: Option<Rate>, ticks: seq<Tick>)
  {
    (rate.Some? ==> rate.value.limit != 0) && RepliesUsable(ticks)
  }

  /** `GetHeadCommit`: refused by the rate gate, or the head commit with the
      reply's rate recorded. */
  function HeadCommit(rate: Option<Rate>, t: Tick): (r: (Option<Rate>, Result<string, Error>))
    requires rate.Some? ==> rate.value.limit != 0
    ensures CheckRate(rate, t.now).Some? ==> r == (rate, Err(RateLimited))
    ensures CheckRate(rate, t.now).None? ==> r == (Some(t.reply.rate), Ok(t.reply.sha))
  {
    if CheckRate(rate, t.now).Some? then (rate, Err(RateLimited))
    else (Some(t.reply.rate), Ok(t.reply.sha))
  }

  /** The watch loop's variables: the recorded rate and the last head commit
      seen. */
  datatype WatchState = WatchState(rate: Option<Rate>, sha: string)

  /** One tick: a refused request changes nothing and sends nothing; a new
      head commit is remembered and reported; the same one is ignored. */
  function Step(s: WatchState, t: Tick): (r: (WatchState, Option<string>))
    requires s.rate.Some? ==> s.rate.value.limit != 0
    ensures CheckRate(s.rate, t.now).Some? ==> r == (s, None)
    ensures r.1.Some? <==> CheckRate(s.rate, t.now).None? && t.reply.sha != s.sha
    ensures r.1.Some? ==> r.1.value == t.reply.sha
    ensures CheckRate(s.rate, t.now).None? ==> r.0 == WatchState(Some(t.reply.rate), t.reply.sha)
  {
    var (rate, head) := HeadCommit(s.rate, t);
    match head
    case Err(_) => (s, None)
    case Ok(newSha) =>
      if newSha != s.sha then (WatchState(rate, newSha), Some(newSha))
      else (WatchState(rate, s.sha), None)
  }

  /** The loop over a sequence of ticks: the final state and the head commits
      reported, in order. */
  function Run(s: WatchState, ticks: seq<Tick>): (r: (WatchState, seq<string>))
    requires RatesUsable(s.rate, ticks)
    ensures r.0.rate.Some? ==> r.0.rate.value.limit != 0
  {
    if ticks == [] then (s, [])
    else
      var (s1, shas) := Run(s, ticks[..|ticks| - 1]);
      var (s2, sha) := Step(s1, ticks[|ticks| - 1]);
      (s2, shas + (match sha case Some(x) => [x] case None => []))
  }

  /** The events sent for the reported head commits. */
  function Events(owner: string, repo: string, branch: string, shas: seq<string>): (r: seq<ChangeEvent>)
    ensures |r| == |shas| && forall k :: 0 <= k < |r| ==> r[k] == ChangeEvent(owner, repo, branch, shas[k])
  {
    seq(|shas|, k requires 0 <= k < |shas| => ChangeEvent(owner, repo, branch, shas[k]))
  }

  /** Reports are changes: the first reported head differs from the starting
      one, each differs from the one reported before it, and the loop ends
      remembering the last report (or the starting head if none). */
  lemma {:induction false} ReportsAreChanges(s: WatchState, ticks: seq<Tick>)
    requires RatesUsable(s.rate, ticks)
    ensures var (end, shas) := Run(s, ticks);
      (|shas| > 0 ==> shas[0] != s.sha) &&
      (forall k :: 0 <= k < |shas| - 1 ==> shas[k] != shas[k + 1]) &&
      end.sha == (if |shas| > 0 then shas[|shas| - 1] else s.sha)
  {
    if ticks != [] {
      ReportsAreChanges(s, ticks[..|ticks| - 1]);
    }
  }

  /** A head that stays where it is produces no report and leaves the
      remembered head alone, whatever the rate gate does. */
  lemma {:induction false} SameHeadIsSilent(s: WatchState, ticks: seq<Tick>)
    requires RatesUsable(s.rate, ticks)
    requires forall k :: 0 <= k < |ticks| ==> ticks[k].reply.sha == s.sha
    ensures Run(s, ticks).1 == [] && Run(s, ticks).0.sha == s.sha
  {
    if ticks != [] {
      SameHeadIsSilent(s, ticks[..|ticks| - 1]);
    }
  }

  /** A checker: the rate of its last reply, and the once-guards of `init`
      (which makes the channels) and `Close` (which closes the kill switch). */
  class Checker {
    var rate: Option<Rate>
    var initialized: bool
    var channelsMade: nat
    var stopped: bool
    var killSwitchCloses: nat
    /** The `Close` guard ran its body before `init`, on a nil kill switch. */
    var closePanicked: bool

    /** Each once-guarded body has run exactly when its guard is set; a body
        that panicked closed nothing. */
    predicate Valid()
      reads this
    {
      channelsMade == (if initialized then 1 else 0) &&
      killSwitchCloses == (if stopped && !closePanicked then 1 else 0) &&
      (closePanicked ==> stopped) &&
      (rate.Some? ==> rate.value.limit != 0)
    }

    constructor ()
      ensures Valid() && rate == None && !initialized && !stopped && !closePanicked
    {
      rate := None;
      initialized := false;
      channelsMade := 0;
      stopped := false;
      killSwitchCloses := 0;
      closePanicked := false;
    }

    /** `init`: makes the channels on the first call only. */
    method Init()
      requires Valid()
      modifies this
      ensures Valid() && initialized && channelsMade == 1
      ensures rate == old(rate) && stopped == old(stopped) && killSwitchCloses == old(killSwitchCloses)
      ensures closePanicked == old(closePanicked)
    {
      if !initialized {
        initialized := true;
        channelsMade := channelsMade + 1;
      }
    }

    /** `Close`: closes the kill switch on the first call only. Before
        `init` the kill switch is a nil channel, and closing it panics
        (`panicked`, and `Close` does not return); the once-guard counts a
        panicking body as run, so no later `Close` closes the switch. */
    method Close() returns (panicked: bool, err: Option<Error>)
      requires Valid()
      modifies this
      ensures Valid() && stopped
      ensures panicked <==> !old(stopped) && !old(initialized)
      ensures closePanicked == (old(closePanicked) || panicked)
      ensures killSwitchCloses == (if !old(stopped) && old(initialized) then 1 else old(killSwitchCloses))
      ensures killSwitchCloses == 1 <==> !closePanicked
      ensures rate == old(rate) && initialized == old(initialized) && channelsMade == old(channelsMade)
      ensures err == None
    {
      panicked, err := false, None;
      if !stopped {
        stopped := true;
        if initialized {
          killSwitchCloses := killSwitchCloses + 1;
        } else {
          closePanicked := true;
          panicked := true;
        }
      }
    }

    /** `GetHeadCommit` against one reply. */
    method GetHeadCommit(t: Tick) returns (sha: Result<string, Error>)
      requires Valid() && t.reply.rate.limit != 0
      modifies this
      ensures Valid()
      ensures (rate, sha) == HeadCommit(old(rate), t)
      ensures initialized == old(initialized) && stopped == old(stopped)
      ensures channelsMade == old(channelsMade) && killSwitchCloses == old(killSwitchCloses)
      ensures closePanicked == old(closePanicked)
    {
      var limited := CheckRate(rate, t.now);
      if limited.Some? {
        return Err(limited.value);
      }
      rate := Some(t.reply.rate);
      return Ok(t.reply.sha);
    }

    /** `AddWatch`: the initial head commit (whose refusal is returned as the
        error), then the watch loop over the ticks before the kill switch. */
    method AddWatch(owner: string, repo: string, branch: string, first: Tick, ticks: seq<Tick>)
      returns (err: Option<Error>, sent: seq<ChangeEvent>)
      requires Valid() && first.reply.rate.limit != 0 && RepliesUsable(ticks)
      modifies this
      ensures Valid() && initialized
      ensures HeadCommit(old(rate), first).1.Err? ==> err == Some(RateLimited) && sent == [] && rate == old(rate)
      ensures HeadCommit(old(rate), first).1.Ok? ==>
        var start := WatchState(Some(first.reply.rate), first.reply.sha);
        err == None && rate == Run(start, ticks).0.rate && sent == Events(owner, repo, branch, Run(start, ticks).1)
    {
      Init();
      var head := GetHeadCommit(first);
      if head.Err? {
        return Some(head.error), [];
      }
      var sha := head.value;
      ghost var start := WatchState(rate, sha);
      sent := [];
      var i := 0;
      while i < |ticks|
        invariant 0 <= i <= |ticks|
        invariant Valid() && initialized
        invariant RatesUsable(start.rate, ticks[..i])
        invariant WatchState(rate, sha) == Run(start, ticks[..i]).0
        invariant sent == Events(owner, repo, branch, Run(start, ticks[..i]).1)
      {
        assert ticks[..i + 1][..i] == ticks[..i];
        var newSha := GetHeadCommit(ticks[i]);
        if newSha.Ok? && newSha.value != sha {
          sha := newSha.value;
          sent := sent + [ChangeEvent(owner, repo, branch, sha)];
        }
        i := i + 1;
      }
      assert ticks[..i] == ticks;
      err := None;
    }
  }

  /** A checker closed before any `AddWatch` (so before `init`) panics on the
      nil kill switch; one closed after `init` closes it and returns nil. */
  method CloseNeedsInit() returns (early: bool, late: bool, closes: nat)
    ensures early && !late && closes == 1
  {
    var c := new Checker();
    var err;
    early, err := c.Close();
    var d := new Checker();
    d.Init();
    late, err := d.Close();
    closes := d.killSwitchCloses;
  }
}
