/** The deployer of cmd/main.go: the validation half of `getConfig`,
    `RepoName`, the colour table built from the configured repositories,
    and the listener goroutine of `startServer` that, for each changed
    branch, breathes the repository's colour, asks for a press, and on a
    `true` confirmation triggers the (fixed) Jenkins deploy. The blocking
    selects become a scripted input and the LED, display and Jenkins calls
    an output trace. */
module Deployer {
  import opened Wrappers
  import opened Colour
  import LcdText
  import GithubWatcher
  import opened Counting

  // ---------------------------------------------------------------------------
  // Configuration
  // ---------------------------------------------------------------------------

  datatype Repository = Repository(owner: string, repo: string, branch: string, color: uint32)

  /** The fields the checks look at; the Jenkins user, certificate and key
      are read but never checked. */
  datatype Config = Config(githubToken: string, jenkinsToken: string, repositories: seq<Repository>)

  /** Which check refused the configuration, and for which entry. */
  datatype ConfigError =
    | GithubTokenMissing
    | JenkinsTokenMissing
    | OwnerMissing(index: nat)
    | RepoMissing(index: nat)
    | BranchMissing(index: nat)
    | ColorMissing(index: nat)
  {
    predicate IsEntryError() { !GithubTokenMissing? && !JenkinsTokenMissing? }
  }

  /** An entry that passes the four checks. */
  predicate RepositoryOk(r: Repository)
  {
    r.owner != "" && r.repo != "" && r.branch != "" && r.color != 0
  }

  /** The error an entry's checks report, in field order: owner, repository
      name, branch, colour. */
  function RepositoryFault(r: Repository, i: nat): (e: Option<ConfigError>)
    ensures e.None? <==> RepositoryOk(r)
    ensures e.Some? ==> e.value.IsEntryError() && e.value.index == i
    ensures e == Some(OwnerMissing(i)) <==> r.owner == ""
    ensures e == Some(RepoMissing(i)) <==> r.owner != "" && r.repo == ""
    ensures e == Some(BranchMissing(i)) <==> r.owner != "" && r.repo != "" && r.branch == ""
    ensures e == Some(ColorMissing(i)) <==> r.owner != "" && r.repo != "" && r.branch != "" && r.color == 0
  {
    if r.owner == "" then Some(OwnerMissing(i))
    else if r.repo == "" then Some(RepoMissing(i))
    else if r.branch == "" then Some(BranchMissing(i))
    else if r.color == 0 then Some(ColorMissing(i))
    else None
  }

  /** The loop over the repositories: the fault of the first entry that
      fails a check, or None when all pass. */
  method CheckRepositories(repos: seq<Repository>) returns (err: Option<ConfigError>)
    ensures err.None? <==> forall j :: 0 <= j < |repos| ==> RepositoryOk(repos[j])
    ensures err.Some? ==>
      err.value.IsEntryError() && err.value.index < |repos| &&
      err == RepositoryFault(repos[err.value.index], err.value.index) &&
      forall j :: 0 <= j < err.value.index ==> RepositoryOk(repos[j])
  {
    var i := 0;
    while i < |repos|
      invariant 0 <= i <= |repos|
      invariant forall j :: 0 <= j < i ==> RepositoryOk(repos[j])
    {
      if repos[i].owner == "" {
        return Some(OwnerMissing(i));
      }
      if repos[i].repo == "" {
        return Some(RepoMissing(i));
      }
      if repos[i].branch == "" {
        return Some(BranchMissing(i));
      }
      if repos[i].color == 0 {
        return Some(ColorMissing(i));
      }
      i := i + 1;
    }
    return None;
  }

  /** `getConfig` once the file is decoded: the GitHub token first, then the
      repositories; a valid configuration is returned unchanged. */
  method GetConfig(c: Config) returns (r: Result<Config, ConfigError>)
    ensures r.Ok? <==> c.githubToken != "" && forall j :: 0 <= j < |c.repositories| ==> RepositoryOk(c.repositories[j])
    ensures r.Ok? ==> r.value == c
    ensures r == Err(GithubTokenMissing) <==> c.githubToken == ""
    ensures r.Err? && r.error.IsEntryError() ==>
      r.error.index < |c.repositories| && !RepositoryOk(c.repositories[r.error.index]) &&
      forall j :: 0 <= j < r.error.index ==> RepositoryOk(c.repositories[j])
  {
    if c.githubToken == "" {
      return Err(GithubTokenMissing);
    }
    var err := CheckRepositories(c.repositories);
    if err.Some? {
      return Err(err.value);
    }
    return Ok(c);
  }

  // ---------------------------------------------------------------------------
  // Repository names and colours
  // ---------------------------------------------------------------------------

  /** `RepoName`: "owner/repo". */
  function RepoName(owner: string, repo: string): (name: string)
    ensures |name| == |owner| + 1 + |repo|
    ensures name[..|owner|] == owner && name[|owner|] == '/' && name[|owner| + 1..] == repo
  {
    owner + "/" + repo
  }

  /** GitHub owners contain no slash, so the name tells the repository:
      the owner is everything before the first slash. */
  lemma RepoNameInjective(o1: string, r1: string, o2: string, r2: string)
    requires forall k :: 0 <= k < |o1| ==> o1[k] != '/'
    requires forall k :: 0 <= k < |o2| ==> o2[k] != '/'
    requires RepoName(o1, r1) == RepoName(o2, r2)
    ensures o1 == o2 && r1 == r2
  {
    var n := RepoName(o1, r1);
    if |o1| < |o2| {
      assert false;
    } else if |o2| < |o1| {
      assert false;
    }
    assert o1 == n[..|o1|] == o2;
  }

  /** A repository's key in the colour table. */
  function NameOf(r: Repository): string
  {
    RepoName(r.owner, r.repo)
  }

  /** The colour table: each repository's colour under its name, a later
      entry replacing an earlier one of the same name. */
  function Colors(repos: seq<Repository>): map<string, uint32>
  {
    if repos == [] then map[]
    else Colors(repos[..|repos| - 1])[NameOf(repos[|repos| - 1]) := repos[|repos| - 1].color]
  }

  /** The table holds exactly the configured names. */
  lemma {:induction false} ColorsDomain(repos: seq<Repository>)
    ensures forall name :: name in Colors(repos) <==> exists k :: 0 <= k < |repos| && NameOf(repos[k]) == name
  {
    if repos != [] {
      var n := |repos| - 1;
      var init := repos[..n];
      ColorsDomain(init);
      forall name | name in Colors(repos)
        ensures exists k :: 0 <= k < |repos| && NameOf(repos[k]) == name
      {
        if name != NameOf(repos[n]) {
          assert name in Colors(init);
          var k :| 0 <= k < |init| && NameOf(init[k]) == name;
          assert repos[k] == init[k];
        }
      }
      forall name, k | 0 <= k < |repos| && NameOf(repos[k]) == name
        ensures name in Colors(repos)
      {
        if k < n {
          assert init[k] == repos[k];
        }
      }
    }
  }

  /** Each name holds the colour of the last entry with that name. */
  lemma {:induction false} ColorsLastWins(repos: seq<Repository>, k: nat)
    requires k < |repos|
    requires forall j :: k < j < |repos| ==> NameOf(repos[j]) != NameOf(repos[k])
    ensures NameOf(repos[k]) in Colors(repos) && Colors(repos)[NameOf(repos[k])] == repos[k].color
  {
    var n := |repos| - 1;
    if k < n {
      var init := repos[..n];
      assert init[k] == repos[k];
      forall j | k < j < |init|
        ensures NameOf(init[j]) != NameOf(init[k])
      {
        assert init[j] == repos[j];
      }
      ColorsLastWins(init, k);
    }
  }

  /** Repositories with slash-free owners and distinct (owner, repo) pairs
      each get their own colour. */
  lemma DistinctReposKeepColors(repos: seq<Repository>)
    requires forall k, c :: 0 <= k < |repos| && 0 <= c < |repos[k].owner| ==> repos[k].owner[c] != '/'
    requires forall j, k :: 0 <= j < k < |repos| ==> (repos[j].owner, repos[j].repo) != (repos[k].owner, repos[k].repo)
    ensures forall k :: 0 <= k < |repos| ==> NameOf(repos[k]) in Colors(repos) && Colors(repos)[NameOf(repos[k])] == repos[k].color
  {
    forall k | 0 <= k < |repos|
      ensures NameOf(repos[k]) in Colors(repos) && Colors(repos)[NameOf(repos[k])] == repos[k].color
    {
      forall j | k < j < |repos|
        ensures NameOf(repos[j]) != NameOf(repos[k])
      {
        if NameOf(repos[j]) == NameOf(repos[k]) {
          RepoNameInjective(repos[j].owner, repos[j].repo, repos[k].owner, repos[k].repo);
        }
      }
      ColorsLastWins(repos, k);
    }
  }

  /** The loop that fills the colour table. */
  method BuildColors(repos: seq<Repository>) returns (colors: map<string, uint32>)
    ensures colors == Colors(repos)
  {
    colors := map[];
    for i := 0 to |repos|
      invariant colors == Colors(repos[..i])
    {
      assert repos[..i + 1][..i] == repos[..i];
      colors := colors[RepoName(repos[i].owner, repos[i].repo) := repos[i].color];
    }
    assert repos[..|repos|] == repos;
  }

  /** `colors[name]`: Go's zero colour for a name not in the table. */
  function ColorFor(colors: map<string, uint32>, name: string): uint32
  {
    if name in colors then colors[name] else 0
  }

  // ---------------------------------------------------------------------------
  // The listener goroutine
  // ---------------------------------------------------------------------------

  /** How the wait for a confirmation ends: a value received (with, for
      `true`, whether the Jenkins trigger returned an error), or the
      30-second timeout. */
  datatype Outcome = Confirmed(value: bool, deployFails: bool) | TimedOut

  /** One event from the branch watcher and how its wait ended. */
  datatype Turn = Turn(event: GithubWatcher.ChangeEvent, outcome: Outcome)

  predicate Approved(t: Turn)
  {
    t.outcome.Confirmed? && t.outcome.value
  }

  /** `deploy.Sandbox`. */
  datatype Environment = Sandbox

  /** The calls the listener makes on the LEDs, the display and Jenkins. */
  datatype Call =
    | Breathe(color: uint32)
    | PrintLine(line: LcdText.byte, text: string)
    | Deploy(owner: string, repo: string, branch: string, env: Environment)
    | Flash(color: uint32)
    | Pause(seconds: nat)
    | LcdReset
    | LedStop

  /** The only deploy this listener triggers, whatever changed. */
  const FixedDeploy := Deploy("callebjorkell", "big-switch", "master", Sandbox)

  const Green: uint32 := 0x00ff00
  const Red: uint32 := 0xff0000

  /** The calls for one event: the repository's colour breathed, the
      prompt, and on a `true` confirmation the deploy (followed, when it
      fails, by the failure line, a red flash and a 5-second pause) and a
      green flash; then the display reset and the LEDs stopped. */
  function Handle(colors: map<string, uint32>, t: Turn): seq<Call>
  {
    var e := t.event;
    var alert := [Breathe(ColorFor(colors, RepoName(e.owner, e.repo))),
                  PrintLine(LcdText.Line1, "Press to deploy!"),
                  PrintLine(LcdText.Line2, e.repo)];
    var deploy :=
      if !Approved(t) then []
      else if t.outcome.deployFails then
        [FixedDeploy, PrintLine(LcdText.Line1, " TRIGGER FAILED"), Flash(Red), Pause(5), Flash(Green)]
      else [FixedDeploy, Flash(Green)];
    alert + deploy + [LcdReset, LedStop]
  }

  lemma HandleShape(colors: map<string, uint32>, t: Turn)
    // the repository's colour, the prompt and the repository name come first
    ensures var r := Handle(colors, t);
      |r| >= 5 && r[0] == Breathe(ColorFor(colors, RepoName(t.event.owner, t.event.repo))) &&
      r[1] == PrintLine(LcdText.Line1, "Press to deploy!") && r[2] == PrintLine(LcdText.Line2, t.event.repo)
    // every event ends with the display reset and the LEDs stopped, and nothing is reset earlier
    ensures var r := Handle(colors, t);
      r[|r| - 2] == LcdReset && r[|r| - 1] == LedStop &&
      forall k :: 0 <= k < |r| - 2 ==> !r[k].LcdReset? && !r[k].LedStop?
    // a deploy happens exactly on a `true` confirmation, always the same one
    ensures var r := Handle(colors, t);
      ((exists k :: 0 <= k < |r| && r[k].Deploy?) <==> Approved(t)) &&
      forall k :: 0 <= k < |r| && r[k].Deploy? ==> r[k] == FixedDeploy
    // a confirmed deploy always ends in a green flash, even after a failure
    ensures var r := Handle(colors, t);
      (Approved(t) ==> r[|r| - 3] == Flash(Green)) &&
      (Flash(Red) in r <==> t.outcome == Confirmed(true, true)) &&
      (!Approved(t) ==> |r| == 5)
  {
    var r := Handle(colors, t);
    if Approved(t) {
      assert r[3].Deploy?;
    }
  }

  /** The trace of the listener over a script of events. */
  function Listen(colors: map<string, uint32>, turns: seq<Turn>): seq<Call>
  {
    if turns == [] then [] else Listen(colors, turns[..|turns| - 1]) + Handle(colors, turns[|turns| - 1])
  }

  /** The listener loop. It never returns, so this models the events it
      handles on a given script. */
  method Run(colors: map<string, uint32>, turns: seq<Turn>) returns (calls: seq<Call>)
    ensures calls == Listen(colors, turns)
  {
    calls := [];
    for i := 0 to |turns|
      invariant calls == Listen(colors, turns[..i])
    {
      assert turns[..i + 1][..i] == turns[..i];
      var e := turns[i].event;
      var name := RepoName(e.owner, e.repo);
      var turn := [Breathe(ColorFor(colors, name)), PrintLine(LcdText.Line1, "Press to deploy!"), PrintLine(LcdText.Line2, e.repo)];
      match turns[i].outcome {
        case Confirmed(confirmed, deployFails) =>
          if confirmed {
            turn := turn + [FixedDeploy];
            if deployFails {
              turn := turn + [PrintLine(LcdText.Line1, " TRIGGER FAILED"), Flash(Red), Pause(5)];
            }
            turn := turn + [Flash(Green)];
          }
        case TimedOut =>
      }
      turn := turn + [LcdReset, LedStop];
      assert turn == Handle(colors, turns[i]);
      calls := calls + turn;
    }
    assert turns[..|turns|] == turns;
  }

  predicate IsDeploy(c: Call) { c.Deploy? }
  predicate IsReset(c: Call) { c.LcdReset? }
  predicate IsStop(c: Call) { c.LedStop? }

  /** One reset and one stop per event, and one deploy per `true`
      confirmation. */
  lemma HandleCounts(colors: map<string, uint32>, t: Turn)
    ensures Count(Handle(colors, t), IsReset) == 1 && Count(Handle(colors, t), IsStop) == 1
    ensures Count(Handle(colors, t), IsDeploy) == if Approved(t) then 1 else 0
  {
    var r := Handle(colors, t);
    HandleShape(colors, t);
    CountOne(r, IsReset, |r| - 2);
    CountOne(r, IsStop, |r| - 1);
    if Approved(t) {
      assert r[3] == FixedDeploy;
      forall k | 0 <= k < |r| && k != 3
        ensures !IsDeploy(r[k])
      {
      }
      CountOne(r, IsDeploy, 3);
    } else {
      CountNone(r, IsDeploy);
    }
  }

  /** Over any script: one display reset and one LED stop per event, and
      exactly as many deploys as `true` confirmations. */
  lemma {:induction false} ResetAfterEveryEvent(colors: map<string, uint32>, turns: seq<Turn>)
    ensures Count(Listen(colors, turns), IsReset) == |turns|
    ensures Count(Listen(colors, turns), IsStop) == |turns|
    ensures Count(Listen(colors, turns), IsDeploy) == Count(turns, Approved)
  {
    if turns != [] {
      var init := turns[..|turns| - 1];
      var last := turns[|turns| - 1];
      ResetAfterEveryEvent(colors, init);
      HandleCounts(colors, last);
      CountAppend(Listen(colors, init), Handle(colors, last), IsReset);
      CountAppend(Listen(colors, init), Handle(colors, last), IsStop);
      CountAppend(Listen(colors, init), Handle(colors, last), IsDeploy);
    }
  }

  /** Whatever the events, every deploy triggered is the fixed one. */
  lemma {:induction false} EveryDeployIsFixed(colors: map<string, uint32>, turns: seq<Turn>)
    ensures forall k :: 0 <= k < |Listen(colors, turns)| && Listen(colors, turns)[k].Deploy? ==>
      Listen(colors, turns)[k] == FixedDeploy
  {
    if turns != [] {
      var init := turns[..|turns| - 1];
      EveryDeployIsFixed(colors, init);
      var a: seq<Call> := Listen(colors, init);
      var b: seq<Call> := Handle(colors, turns[|turns| - 1]);
      forall k | 0 <= k < |a + b| && (a + b)[k].Deploy?
        ensures (a + b)[k] == FixedDeploy
      {
        if k >= |a| {
          assert (a + b)[k] == b[k - |a|];
        }
      }
    }
  }
}
