/** The first deployer, main.go. Its `RepoName`, its repository checks and
    the loop filling its colour table are the statements of cmd/main.go
    (`Deployer.RepoName`, `Deployer.CheckRepositories`,
    `Deployer.BuildColors`); its `getConfig` also refuses a missing Jenkins
    token, and its listener only flashes green on a confirmation instead of
    triggering a deploy. */
module LegacyDeployer {
  import opened Wrappers
  import LcdText
  import GithubWatcher
  import opened Deployer
  import opened Counting

  /** `getConfig` once the file is decoded: the GitHub token, then the
      Jenkins token, then the repositories; a valid configuration is
      returned unchanged. */
  method GetConfig(c: Config) returns (r: Result<Config, ConfigError>)
    ensures r.Ok? <==>
      c.githubToken != "" && c.jenkinsToken != "" &&
      forall j :: 0 <= j < |c.repositories| ==> RepositoryOk(c.repositories[j])
    ensures r.Ok? ==> r.value == c
    ensures r == Err(GithubTokenMissing) <==> c.githubToken == ""
    ensures r == Err(JenkinsTokenMissing) <==> c.githubToken != "" && c.jenkinsToken == ""
    ensures r.Err? && r.error.IsEntryError() ==>
      r.error.index < |c.repositories| && !RepositoryOk(c.repositories[r.error.index]) &&
      forall j :: 0 <= j < r.error.index ==> RepositoryOk(c.repositories[j])
  {
    if c.githubToken == "" {
      return Err(GithubTokenMissing);
    }
    if c.jenkinsToken == "" {
      return Err(JenkinsTokenMissing);
    }
    var err := CheckRepositories(c.repositories);
    if err.Some? {
      return Err(err.value);
    }
    return Ok(c);
  }

  /** One event and how its wait ended: the value received on the
      confirmation channel, or None for the 30-second timeout. */
  datatype Turn = Turn(event: GithubWatcher.ChangeEvent, confirmed: Option<bool>)

  predicate Approved(t: Turn)
  {
    t.confirmed == Some(true)
  }

  /** The calls for one event: the repository's colour breathed, the
      prompt, a green flash on a `true` confirmation, then the display
      reset and the LEDs stopped. */
  function Handle(colors: map<string, Colour.uint32>, t: Turn): seq<Call>
  {
    var e := t.event;
    [Breathe(ColorFor(colors, RepoName(e.owner, e.repo))),
     PrintLine(LcdText.Line1, "Press to deploy!"),
     PrintLine(LcdText.Line2, e.repo)] +
    (if Approved(t) then [Flash(Green)] else []) +
    [LcdReset, LedStop]
  }

  /** Nothing is ever deployed; a `true` confirmation flashes green, and
      every event ends with the display reset and the LEDs stopped. */
  lemma HandleShape(colors: map<string, Colour.uint32>, t: Turn)
    ensures var r := Handle(colors, t);
      |r| >= 5 && r[|r| - 2] == LcdReset && r[|r| - 1] == LedStop &&
      forall k :: 0 <= k < |r| - 2 ==> !r[k].LcdReset? && !r[k].LedStop?
    ensures var r := Handle(colors, t);
      forall k :: 0 <= k < |r| ==> !r[k].Deploy?
    ensures var r := Handle(colors, t);
      (Flash(Green) in r <==> Approved(t)) && (Approved(t) <==> |r| == 6)
  {
    var r := Handle(colors, t);
    if Approved(t) {
      assert r[3] == Flash(Green);
    } else {
      assert |r| == 5;
    }
  }

  function Listen(colors: map<string, Colour.uint32>, turns: seq<Turn>): seq<Call>
  {
    if turns == [] then [] else Listen(colors, turns[..|turns| - 1]) + Handle(colors, turns[|turns| - 1])
  }

  /** The listener loop over a script of events. */
  method Run(colors: map<string, Colour.uint32>, turns: seq<Turn>) returns (calls: seq<Call>)
    ensures calls == Listen(colors, turns)
  {
    calls := [];
    for i := 0 to |turns|
      invariant calls == Listen(colors, turns[..i])
    {
      assert turns[..i + 1][..i] == turns[..i];
      var e := turns[i].event;
      var name := RepoName(e.owner, e.repo);
      var turn := [Breathe(ColorFor(colors, name)), PrintLine(LcdText.Line1, "Press to deploy!"), PrintLine(LcdText.Line2, e.repo)];
      match turns[i].confirmed {
        case Some(confirmed) =>
          if confirmed {
            turn := turn + [Flash(Green)];
          }
        case None =>
      }
      turn := turn + [LcdReset, LedStop];
      assert turn == Handle(colors, turns[i]);
      calls := calls + turn;
    }
    assert turns[..|turns|] == turns;
  }

  /** Over any script: one display reset and one LED stop per event, and no
      deploy at all. */
  lemma {:induction false} ResetAfterEveryEvent(colors: map<string, Colour.uint32>, turns: seq<Turn>)
    ensures Count(Listen(colors, turns), IsReset) == |turns|
    ensures Count(Listen(colors, turns), IsStop) == |turns|
    ensures Count(Listen(colors, turns), IsDeploy) == 0
  {
    if turns != [] {
      var init := turns[..|turns| - 1];
      var last := turns[|turns| - 1];
      var r := Handle(colors, last);
      ResetAfterEveryEvent(colors, init);
      HandleShape(colors, last);
      CountOne(r, IsReset, |r| - 2);
      CountOne(r, IsStop, |r| - 1);
      CountNone(r, IsDeploy);
      CountAppend(Listen(colors, init), r, IsReset);
      CountAppend(Listen(colors, init), r, IsStop);
      CountAppend(Listen(colors, init), r, IsDeploy);
    }
  }
}
