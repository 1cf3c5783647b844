/**
 * How both server variants walk an environment's service configurations:
 * the first rejected one aborts construction, and services are filed by name.
 */
module Setup {
  import opened Wrappers
  import opened Camel

  /** The error of the first configuration `check` rejects, if any. */
  function FirstError(services: seq<ServiceConfig>, check: ServiceConfig -> Option<string>): (err: Option<string>)
    ensures err.None? <==> forall i :: 0 <= i < |services| ==> check(services[i]).None?
    ensures err.Some? ==> exists i :: 0 <= i < |services| && err == check(services[i])
    decreases |services|
  {
    if services == [] then None
    else
      var n := |services| - 1;
      var prev := FirstError(services[..n], check);
      assert services == services[..n] + [services[n]];
      if prev.Some? then prev else check(services[n])
  }

  /** Once a prefix holds a rejected configuration, the rest does not matter. */
  lemma {:induction false} FirstErrorStays(services: seq<ServiceConfig>, check: ServiceConfig -> Option<string>, i: nat)
    requires i <= |services| && FirstError(services[..i], check).Some?
    ensures FirstError(services, check) == FirstError(services[..i], check)
    decreases |services| - i
  {
    if i < |services| {
      var n := |services| - 1;
      assert services[..n][..i] == services[..i];
      FirstErrorStays(services[..n], check, i);
    } else {
      assert services[..i] == services;
    }
  }

  /** The configuration of the last service named `name`: it wins the map slot. */
  function LastConfig(services: seq<ServiceConfig>, name: string): (c: Option<ServiceConfig>)
    ensures c.Some? <==> exists i :: 0 <= i < |services| && services[i].name == name
    ensures c.Some? ==> c.value.name == name
    ensures c.Some? ==> (exists i :: 0 <= i < |services| && services[i] == c.value
                                     && forall j :: i < j < |services| ==> services[j].name != name)
    decreases |services|
  {
    if services == [] then None
    else
      var n := |services| - 1;
      assert services == services[..n] + [services[n]];
      if services[n].name == name then Some(services[n]) else LastConfig(services[..n], name)
  }
}
