/**
 * The older server variant, model.go: existing routes keep their state,
 * a route's outputs are replaced on every refresh, and endpoint uris are only
 * brace-decoded.
 */
module LegacyModel {
  import opened Wrappers
  import opened Text
  import opened Camel
  import opened Normalize
  import opened Listing
  import opened Setup
  import SM = ServiceModel

  type RouteView = SM.RouteView

  const UPDATE_STATE_IN_PROCESS: string := "in_process"

  // ---------------------------------------------------------------------------
  // Endpoint uris

  /** What `extractEndpointUrlsAsStrings` makes of a list of uris. */
  function Extracted(uris: seq<string>): (r: seq<string>)
    ensures |r| == |uris|
    ensures forall i :: 0 <= i < |uris| ==> r[i] == DecodeBraces(uris[i])
  {
    seq(|uris|, i requires 0 <= i < |uris| => DecodeBraces(uris[i]))
  }

  /** `extractEndpointUrlsAsStrings`: each uri brace-decoded, in order, and nothing more. */
  method ExtractEndpointUrls(uris: seq<string>) returns (urls: seq<string>)
    ensures urls == Extracted(uris)
  {
    urls := [];
    for i := 0 to |uris|
      invariant urls == Extracted(uris[..i])
    {
      urls := urls + [DecodeBraces(uris[i])];
    }
    assert uris[..|uris|] == uris;
  }

  /** Every extracted uri is free of `%7B`/`%7D`, and one without them passes through unchanged. */
  lemma ExtractedDecodes(uris: seq<string>, i: nat)
    requires i < |uris|
    ensures !Contains(Extracted(uris)[i], "%7B") && !Contains(Extracted(uris)[i], "%7D")
    ensures !Contains(uris[i], "%7B") && !Contains(uris[i], "%7D") ==> Extracted(uris)[i] == uris[i]
  {
    DecodeBracesComplete(uris[i]);
    if !Contains(uris[i], "%7B") && !Contains(uris[i], "%7D") {
      DecodeBracesPlain(uris[i]);
    }
  }

  /**
   * The outputs a refresh leaves: those of the last route entry whose
   * outputs are not nil, or none.
   */
  function LastOutputs(routes: seq<RouteEndpoints>): (r: seq<string>)
    ensures (forall i :: 0 <= i < |routes| ==> routes[i].outputs.None?) ==> r == []
    ensures (exists i :: 0 <= i < |routes| && routes[i].outputs.Some?) ==>
      exists i :: 0 <= i < |routes| && routes[i].outputs.Some? && r == Extracted(routes[i].outputs.value)
        && forall j :: i < j < |routes| ==> routes[j].outputs.None?
    decreases |routes|
  {
    if routes == [] then []
    else
      var n := |routes| - 1;
      assert forall i :: 0 <= i < n ==> routes[..n][i] == routes[i];
      if routes[n].outputs.Some? then Extracted(routes[n].outputs.value) else LastOutputs(routes[..n])
  }

  lemma LastOutputsPrefix(routes: seq<RouteEndpoints>, i: nat)
    requires i < |routes|
    ensures LastOutputs(routes[..i + 1])
      == if routes[i].outputs.Some? then Extracted(routes[i].outputs.value) else LastOutputs(routes[..i])
  {
    assert routes[..i + 1][..i] == routes[..i];
  }

  // ---------------------------------------------------------------------------
  // Specification of one route

  /** A route created for an unseen key: state and uptime from the entry, its raw uri as only input. */
  function NewRoute(e: ReadRouteEntry): RouteView {
    SM.RouteView(e.camelManagementName, e.routeId, e.endpointUri, e.state, e.uptime, SM.NoCounters,
                 [e.endpointUri], [], "")
  }

  /** A reported entry overwrites the eleven counters only. */
  function Count(r: RouteView, e: ReadRouteEntry): RouteView {
    r.(counters := e.counters)
  }

  /**
   * `Route.update`: the schema first (stored whatever its value), then the
   * endpoints, whose outputs replace the old ones. A reply whose `routes` is
   * absent leaves no outputs (see `OutputsAsWritten`).
   */
  function Refresh(r: RouteView, schema: Fetch<SchemaReply>, endpoints: Fetch<EndpointsReply>)
    : (RouteView, Option<string>)
  {
    match schema
    case Failed(error) => (r, Some(error))
    case Fetched(s) =>
      var r1 := r.(schema := s.value);
      match endpoints
      case Failed(error) => (r1, Some(error))
      case Fetched(reply) =>
        if reply.status != 200 then (r1, Some(reply.error))
        else (r1.(outputs := LastOutputs(reply.routes.GetOr([]))), None)
  }

  /** A non-200 endpoints reply reports its error and leaves the outputs untouched. */
  lemma RefreshNon200KeepsOutputs(r: RouteView, s: SchemaReply, reply: EndpointsReply)
    requires reply.status != 200
    ensures Refresh(r, Fetched(s), Fetched(reply)) == (r.(schema := s.value), Some(reply.error))
  {
  }

  /**
   * On success the outputs are replaced, not merged: they do not depend on
   * what the route held before.
   */
  lemma RefreshReplacesOutputs(r1: RouteView, r2: RouteView, s: SchemaReply, reply: EndpointsReply)
    requires reply.status == 200
    ensures Refresh(r1, Fetched(s), Fetched(reply)).0.outputs == Refresh(r2, Fetched(s), Fetched(reply)).0.outputs
    ensures Refresh(r1, Fetched(s), Fetched(reply)).0.inputs == r1.inputs
  {
  }

  /** Refreshing twice with the same replies is the same as once. */
  lemma RefreshIdempotent(r: RouteView, schema: Fetch<SchemaReply>, endpoints: Fetch<EndpointsReply>)
    ensures var once := Refresh(r, schema, endpoints);
      Refresh(once.0, schema, endpoints) == once
  {
  }

  datatype Outcome = Panic | Outputs(uris: seq<string>)

  /** The endpoints branch as written: `*endpointsEntry.Routes` is dereferenced unchecked. */
  function OutputsAsWritten(reply: EndpointsReply): (o: Outcome)
    requires reply.status == 200
    ensures o.Panic? <==> reply.routes.None?
  {
    match reply.routes
    case None => Panic
    case Some(routes) => Outputs(LastOutputs(routes))
  }

  /** A 200 reply without `routes` panics as written; with the nil check it empties the outputs. */
  lemma OutputsWithoutRoutes(r: RouteView, s: SchemaReply)
    ensures OutputsAsWritten(EndpointsReply(200, "", None)).Panic?
    ensures Refresh(r, Fetched(s), Fetched(EndpointsReply(200, "", None))).0.outputs == []
  {
  }

  // ---------------------------------------------------------------------------
  // Specification of a service's route map

  function Absorb(routes: map<string, RouteView>, e: ReadRouteEntry): map<string, RouteView> {
    var key := EntryKey(e);
    var base := if key in routes then routes[key] else NewRoute(e);
    routes[key := Count(base, e)]
  }

  /** `Absorb` as `Service.update` performs it: file the route first, then copy the counters. */
  lemma AbsorbInTwoSteps(routes: map<string, RouteView>, e: ReadRouteEntry)
    ensures var key := EntryKey(e);
      var filed := routes[key := if key in routes then routes[key] else NewRoute(e)];
      filed[key := Count(filed[key], e)] == Absorb(routes, e)
  {
    var key := EntryKey(e);
    var filed := routes[key := if key in routes then routes[key] else NewRoute(e)];
    assert filed[key := Count(filed[key], e)] == routes[key := Count(filed[key], e)];
  }

  function AbsorbAll(routes: map<string, RouteView>, entries: seq<ReadRouteEntry>): map<string, RouteView>
    decreases |entries|
  {
    if entries == [] then routes
    else
      var n := |entries| - 1;
      Absorb(AbsorbAll(routes, entries[..n]), entries[n])
  }

  lemma AbsorbAllPrefix(routes: map<string, RouteView>, entries: seq<ReadRouteEntry>, i: nat)
    requires i < |entries|
    ensures AbsorbAll(routes, entries[..i + 1]) == Absorb(AbsorbAll(routes, entries[..i]), entries[i])
  {
    assert entries[..i + 1][..i] == entries[..i];
  }

  /**
   * What `Service.update` leaves under `key`: an unreported route as it was;
   * a reported one as it was, or as its first entry creates it, with the
   * counters of its last entry.
   */
  function Expected(routes: map<string, RouteView>, entries: seq<ReadRouteEntry>, key: string): RouteView
    requires key in routes || Reported(entries, key)
  {
    match LastReport(entries, key)
    case None => routes[key]
    case Some(last) =>
      Count(if key in routes then routes[key] else NewRoute(FirstReport(entries, key).value), last)
  }

  /** The merge, key by key. */
  lemma {:induction false} AbsorbAllCharacterised(routes: map<string, RouteView>, entries: seq<ReadRouteEntry>,
                                                  key: string)
    ensures key in AbsorbAll(routes, entries) <==> key in routes || Reported(entries, key)
    ensures key in AbsorbAll(routes, entries) ==> AbsorbAll(routes, entries)[key] == Expected(routes, entries, key)
    decreases |entries|
  {
    if entries != [] {
      var n := |entries| - 1;
      assert entries == entries[..n] + [entries[n]];
      AbsorbAllCharacterised(routes, entries[..n], key);
      ReportsGrow(entries[..n], entries[n], key);
    }
  }

  /** Routes are never removed, and appear only for reported keys. */
  lemma AbsorbAllKeys(routes: map<string, RouteView>, entries: seq<ReadRouteEntry>)
    ensures forall k :: k in AbsorbAll(routes, entries) <==> k in routes || Reported(entries, k)
  {
    forall k ensures k in AbsorbAll(routes, entries) <==> k in routes || Reported(entries, k) {
      AbsorbAllCharacterised(routes, entries, k);
    }
  }

  /** A known route keeps its state, uptime, endpoints and schema; only its counters follow the listing. */
  lemma AbsorbAllKeepsKnown(routes: map<string, RouteView>, entries: seq<ReadRouteEntry>, key: string)
    requires key in routes
    ensures key in AbsorbAll(routes, entries)
    ensures AbsorbAll(routes, entries)[key].(counters := routes[key].counters) == routes[key]
    ensures Reported(entries, key) ==> AbsorbAll(routes, entries)[key].counters == LastReport(entries, key).value.counters
  {
    AbsorbAllCharacterised(routes, entries, key);
  }

  /** A new route takes state, uptime and its raw uri from its first entry, and has no outputs. */
  lemma AbsorbAllCreates(routes: map<string, RouteView>, entries: seq<ReadRouteEntry>, key: string)
    requires key !in routes && Reported(entries, key)
    ensures key in AbsorbAll(routes, entries)
    ensures var r := AbsorbAll(routes, entries)[key];
      var first := FirstReport(entries, key).value;
      r.state == first.state && r.uptime == first.uptime
      && r.inputs == [first.endpointUri] && r.outputs == []
      && r.counters == LastReport(entries, key).value.counters
  {
    AbsorbAllCharacterised(routes, entries, key);
  }

  /** Applying the same listing twice gives what applying it once gives. */
  lemma AbsorbAllIdempotent(routes: map<string, RouteView>, entries: seq<ReadRouteEntry>)
    ensures AbsorbAll(AbsorbAll(routes, entries), entries) == AbsorbAll(routes, entries)
  {
    var once := AbsorbAll(routes, entries);
    var twice := AbsorbAll(once, entries);
    forall k | k in once || k in twice
      ensures k in once && k in twice && twice[k] == once[k]
    {
      AbsorbAllCharacterised(routes, entries, k);
      AbsorbAllCharacterised(once, entries, k);
    }
  }

  // ---------------------------------------------------------------------------
  // The objects

  class Route {
    var context: string
    var name: string
    var endpointUri: string
    var state: string
    var uptime: string
    var counters: Counters
    var inputs: seq<string>
    var outputs: seq<string>
    var schema: string

    function View(): RouteView
      reads this
    {
      SM.RouteView(context, name, endpointUri, state, uptime, counters, inputs, outputs, schema)
    }

    /** The route `Service.update` registers for a new key. */
    constructor (e: ReadRouteEntry)
      ensures View() == NewRoute(e)
    {
      context, name, endpointUri := e.camelManagementName, e.routeId, e.endpointUri;
      state, uptime, counters := e.state, e.uptime, SM.NoCounters;
      inputs, outputs, schema := [e.endpointUri], [], "";
    }

    /** Copies the eleven counters from a listing entry. */
    method Report(e: ReadRouteEntry)
      modifies this
      ensures View() == Count(old(View()), e)
    {
      counters := e.counters;
    }

    /** `Route.update` with the two replies it fetches given as inputs. */
    method Update(schemaReply: Fetch<SchemaReply>, endpoints: Fetch<EndpointsReply>) returns (err: Option<string>)
      modifies this
      ensures (View(), err) == Refresh(old(View()), schemaReply, endpoints)
    {
      if schemaReply.Failed? {
        return Some(schemaReply.error);
      }
      schema := schemaReply.body.value;
      if endpoints.Failed? {
        return Some(endpoints.error);
      }
      var reply := endpoints.body;
      if reply.status != 200 {
        return Some(reply.error);
      }
      var routes := reply.routes.GetOr([]);
      var found: seq<string> := [];
      for i := 0 to |routes|
        invariant found == LastOutputs(routes[..i])
        invariant View() == old(View()).(schema := schemaReply.body.value)
      {
        LastOutputsPrefix(routes, i);
        if routes[i].outputs.Some? {
          found := ExtractEndpointUrls(routes[i].outputs.value);
        }
      }
      assert routes[..|routes|] == routes;
      outputs := found;
      return None;
    }
  }

  class Service {
    const name: string
    const url: string
    const color: string
    var routeMap: map<string, Route>
    var updatingState: string
    var finalUpdatingState: string

    /** Each route object sits under one key only. */
    ghost predicate Valid()
      reads this
    {
      forall k1, k2 :: k1 in routeMap && k2 in routeMap && k1 != k2 ==> routeMap[k1] != routeMap[k2]
    }

    ghost function View(): map<string, RouteView>
      reads this, routeMap.Values
    {
      map k | k in routeMap :: routeMap[k].View()
    }

    /** The service `NewService` builds from a valid configuration. */
    constructor (config: ServiceConfig)
      ensures Built(this, config) && Valid()
    {
      name, url, color := config.name, config.url, config.color;
      routeMap := map[];
      updatingState, finalUpdatingState := UPDATE_STATE_IN_PROCESS, UPDATE_STATE_IN_PROCESS;
    }

    /** `Service.update` with the route listing given as input; nothing is reset or removed. */
    method Update(listing: Fetch<seq<ReadRouteEntry>>) returns (err: Option<string>)
      requires Valid()
      modifies this, routeMap.Values
      ensures Valid()
      ensures listing.Failed? ==> err == Some(listing.error) && View() == old(View())
      ensures listing.Fetched? ==> err == None && View() == AbsorbAll(old(View()), listing.body)
      ensures forall k :: k in old(routeMap) ==> k in routeMap && routeMap[k] == old(routeMap[k])
      ensures forall k :: k in routeMap && k !in old(routeMap) ==> fresh(routeMap[k])
    {
      if listing.Failed? {
        return Some(listing.error);
      }
      var entries := listing.body;
      for i := 0 to |entries|
        invariant Valid()
        invariant forall k :: k in old(routeMap) ==> k in routeMap && routeMap[k] == old(routeMap[k])
        invariant forall k :: k in routeMap && k !in old(routeMap) ==> fresh(routeMap[k])
        invariant View() == AbsorbAll(old(View()), entries[..i])
      {
        AbsorbAllPrefix(old(View()), entries, i);
        AbsorbEntry(entries[i]);
      }
      assert entries[..|entries|] == entries;
      return None;
    }

    /** One listing entry: the route under its key, registered if absent, gets the entry's counters. */
    method AbsorbEntry(e: ReadRouteEntry)
      requires Valid()
      modifies this, routeMap.Values
      ensures Valid()
      ensures View() == Absorb(old(View()), e)
      ensures forall k :: k in old(routeMap) ==> k in routeMap && routeMap[k] == old(routeMap[k])
      ensures forall k :: k in routeMap && k !in old(routeMap) ==> fresh(routeMap[k])
    {
      var key := EntryKey(e);
      ghost var v0 := View();
      var route := RouteFor(e);
      CountRoute(key, e);
      AbsorbInTwoSteps(v0, e);
    }

    /** The entry's counters are copied onto the route filed under `key`; no other route changes. */
    method CountRoute(key: string, e: ReadRouteEntry)
      requires Valid() && key in routeMap
      modifies routeMap[key]
      ensures Valid()
      ensures View() == old(View())[key := Count(old(View())[key], e)]
    {
      ghost var before := View();
      var route := routeMap[key];
      route.Report(e);
      SM.UpdatedAt(View(), before, key);
    }

    /** The route filed under the entry's key, registered there if absent. */
    method RouteFor(e: ReadRouteEntry) returns (route: Route)
      requires Valid()
      modifies this
      ensures Valid()
      ensures EntryKey(e) in routeMap && routeMap[EntryKey(e)] == route
      ensures View() == old(View())[EntryKey(e) := if EntryKey(e) in old(View()) then old(View())[EntryKey(e)]
                                                 else NewRoute(e)]
      ensures forall k :: k in old(routeMap) ==> k in routeMap && routeMap[k] == old(routeMap[k])
      ensures forall k :: k in routeMap && k !in old(routeMap) ==> fresh(routeMap[k])
    {
      var key := RouteKey(e.camelManagementName, e.routeId);
      if key in routeMap {
        route := routeMap[key];
      } else {
        route := new Route(e);
        routeMap := routeMap[key := route];
      }
    }
  }

  /** What `NewService` copies from its configuration. */
  ghost predicate Built(s: Service, config: ServiceConfig)
    reads s
  {
    s.name == config.name && s.url == config.url && s.color == config.color && s.routeMap == map[]
    && s.updatingState == UPDATE_STATE_IN_PROCESS && s.finalUpdatingState == UPDATE_STATE_IN_PROCESS
  }

  class Environment {
    const name: string
    var serviceMap: map<string, Service>

    constructor (name: string)
      ensures this.name == name && serviceMap == map[]
    {
      this.name := name;
      serviceMap := map[];
    }
  }

  // ---------------------------------------------------------------------------
  // Validation (same checks as model/service.go, capitalised messages)

  function ServiceError(config: ServiceConfig): (err: Option<string>)
    ensures err.None? <==> config.name != "" && config.url != ""
  {
    if config.name == "" then Some("Service name must not be empty")
    else if config.url == "" then Some("Service url must not be empty")
    else None
  }

  function EnvironmentError(config: EnvironmentConfig): (err: Option<string>)
    ensures err.None? <==> config.name != "" && forall i :: 0 <= i < |config.services| ==>
      config.services[i].name != "" && config.services[i].url != ""
  {
    if config.name == "" then Some("Environment name must not be empty")
    else FirstError(config.services, ServiceError)
  }

  method NewService(config: ServiceConfig) returns (service: Option<Service>, err: Option<string>)
    ensures err == ServiceError(config)
    ensures service.Some? <==> err.None?
    ensures service.Some? ==> fresh(service.value) && Built(service.value, config) && service.value.Valid()
  {
    if config.name == "" {
      return None, Some("Service name must not be empty");
    }
    if config.url == "" {
      return None, Some("Service url must not be empty");
    }
    var s := new Service(config);
    return Some(s), None;
  }

  method NewEnvironment(config: EnvironmentConfig) returns (env: Option<Environment>, err: Option<string>)
    ensures err == EnvironmentError(config)
    ensures env.Some? <==> err.None?
    ensures env.Some? ==> env.value.name == config.name
    ensures env.Some? ==> forall n :: n in env.value.serviceMap <==> LastConfig(config.services, n).Some?
    ensures env.Some? ==> forall n :: n in env.value.serviceMap ==>
      Built(env.value.serviceMap[n], LastConfig(config.services, n).value)
  {
    if config.name == "" {
      return None, Some("Environment name must not be empty");
    }
    var e := new Environment(config.name);
    var services := config.services;
    for i := 0 to |services|
      invariant FirstError(services[..i], ServiceError).None?
      invariant forall n :: n in e.serviceMap <==> LastConfig(services[..i], n).Some?
      invariant forall n :: n in e.serviceMap ==> Built(e.serviceMap[n], LastConfig(services[..i], n).value)
    {
      assert services[..i + 1][..i] == services[..i];
      var s, serr := NewService(services[i]);
      if serr.Some? {
        FirstErrorStays(services, ServiceError, i + 1);
        return None, serr;
      }
      e.serviceMap := e.serviceMap[s.value.name := s.value];
    }
    assert services[..|services|] == services;
    return Some(e), None;
  }
}
