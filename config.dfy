/** The validation half of `readConfig` in cmd/big-switch/config.go: after
    the YAML is decoded, a missing release-manager token is refused, then
    every service entry is checked in order, name before colour, and the
    first failing check is reported with the entry's index. */
module ServiceConfig {
  import opened Wrappers
  import opened Colour

  datatype Service = Service(name: string, color: uint32)

  datatype Config = Config(token: string, services: seq<Service>)

  /** The reasons a configuration is refused; the message text is not
      modelled, only which check failed and for which entry. */
  datatype ConfigError = TokenMissing | NameMissing(index: nat) | ColorMissing(index: nat)

  /** An entry that passes both checks. */
  predicate ServiceOk(s: Service)
  {
    |s.name| >= 1 && s.color != 0
  }

  /** The entry checks from index `i` on: the first failure, or None. */
  function CheckServices(services: seq<Service>, i: nat): (r: Option<ConfigError>)
    requires i <= |services|
    ensures r.None? <==> forall j :: i <= j < |services| ==> ServiceOk(services[j])
    ensures r.Some? ==> !r.value.TokenMissing? && i <= r.value.index < |services|
    ensures r.Some? ==> forall j :: i <= j < r.value.index ==> ServiceOk(services[j])
    ensures r.Some? && r.value.NameMissing? ==> services[r.value.index].name == ""
    ensures r.Some? && r.value.ColorMissing? ==>
      services[r.value.index].name != "" && services[r.value.index].color == 0
    decreases |services| - i
  {
    if i == |services| then None
    else if |services[i].name| < 1 then Some(NameMissing(i))
    else if services[i].color == 0 then Some(ColorMissing(i))
    else CheckServices(services, i + 1)
  }

  /** `readConfig` once the file is decoded: the configuration unchanged,
      or the first failing check. */
  function ReadConfig(c: Config): (r: Result<Config, ConfigError>)
    ensures r.Ok? <==> c.token != "" && forall j :: 0 <= j < |c.services| ==> ServiceOk(c.services[j])
    ensures r.Ok? ==> r.value == c
    ensures r == Err(TokenMissing) <==> c.token == ""
    ensures r.Err? && !r.error.TokenMissing? ==>
      r.error.index < |c.services| && !ServiceOk(c.services[r.error.index]) &&
      forall j :: 0 <= j < r.error.index ==> ServiceOk(c.services[j])
  {
    if c.token == "" then Err(TokenMissing)
    else match CheckServices(c.services, 0)
      case Some(e) => Err(e)
      case None => Ok(c)
  }

  /** A token and no services at all is a valid configuration. */
  lemma NoServicesIsValid(token: string)
    requires token != ""
    ensures ReadConfig(Config(token, [])) == Ok(Config(token, []))
  {
  }

  /** The report does not depend on what follows the first bad entry:
      entries after it are never looked at. */
  lemma FirstFailureWins(c: Config, more: seq<Service>)
    requires ReadConfig(c).Err?
    ensures ReadConfig(Config(c.token, c.services + more)) == ReadConfig(c)
  {
    if c.token != "" {
      var e := ReadConfig(c).error;
      CheckPrefix(c.services, more, 0, e.index);
    }
  }

  /** Extending the entries after a failing one leaves the search's answer
      alone. */
  lemma {:induction false} CheckPrefix(services: seq<Service>, more: seq<Service>, i: nat, bad: nat)
    requires i <= bad < |services|
    requires CheckServices(services, i).Some? && CheckServices(services, i).value.index == bad
    ensures CheckServices(services + more, i) == CheckServices(services, i)
    decreases bad - i
  {
    var all := services + more;
    assert all[i] == services[i];
    if i < bad {
      assert ServiceOk(services[i]);
      CheckPrefix(services, more, i + 1, bad);
    }
  }
}
