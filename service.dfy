/**
 * The route model of model/service.go: the `Route` and `Service` objects the
 * pollers update in place, and the validating constructors `NewService` and
 * `NewEnvironment`.
 */
module ServiceModel {
  import opened Wrappers
  import opened Camel
  import opened Normalize
  import opened Listing
  import opened Setup

  const NONE: string := "None"
  const UPDATE_STATE_IN_PROCESS: string := "in_process"

  /** The counters of a route that has not been reported yet (Go zero values). */
  const NoCounters := Counters(0, 0, 0, 0, 0, 0, 0, 0, 0, 0, 0)

  /** The fields of a `Route` the merges read or write. */
  datatype RouteView = RouteView(
    context: string,
    name: string,
    endpointUri: string,
    state: string,
    uptime: string,
    counters: Counters,
    inputs: seq<string>,
    outputs: seq<string>,
    schema: string)

  // ---------------------------------------------------------------------------
  // Specification of one route

  /** A route created for an unseen key: no endpoints but its cleaned listing uri. */
  function FreshRoute(service: string, e: ReadRouteEntry): RouteView {
    RouteView(e.camelManagementName, e.routeId, e.endpointUri, "", "", NoCounters,
              [CleanEndpoint(service, e.endpointUri)], [], "")
  }

  /** A reported entry overwrites state, uptime and the eleven counters, nothing else. */
  function Stamp(r: RouteView, e: ReadRouteEntry): RouteView {
    r.(state := e.state, uptime := e.uptime, counters := e.counters)
  }

  /** The cleaned uris of one route's static outputs, minus those the skip guard drops. */
  function KeptOutputs(service: string, uris: seq<string>): (r: seq<string>)
    ensures |r| == |uris|
    ensures forall i :: 0 <= i < |uris| ==> r[i] == CleanEndpoint(service, uris[i])
    decreases |uris|
  {
    if uris == [] then []
    else
      var n := |uris| - 1;
      var prev := KeptOutputs(service, uris[..n]);
      assert uris == uris[..n] + [uris[n]];
      if SkipsUnfilledOutput(uris[n]) then prev else prev + [CleanEndpoint(service, uris[n])]
  }

  /** The static outputs of every route entry of an endpoints reply, in order; nil outputs add none. */
  function StaticOutputs(service: string, routes: seq<RouteEndpoints>): seq<string>
    decreases |routes|
  {
    if routes == [] then []
    else
      var n := |routes| - 1;
      var uris := if routes[n].outputs.Some? then routes[n].outputs.value else [];
      StaticOutputs(service, routes[..n]) + KeptOutputs(service, uris)
  }

  /** The cleaned non-empty `uri` attributes of the schema's `to` or `from` elements. */
  function SchemaUris(service: string, uris: seq<string>): (r: seq<string>)
    ensures forall x :: x in r <==> exists u :: u in uris && u != "" && x == CleanEndpoint(service, u)
    decreases |uris|
  {
    if uris == [] then []
    else
      var n := |uris| - 1;
      var prev := SchemaUris(service, uris[..n]);
      assert uris == uris[..n] + [uris[n]];
      if |uris[n]| > 0 then prev + [CleanEndpoint(service, uris[n])] else prev
  }

  /** A non-empty schema is stored, its `to` uris join the outputs and its `from` uris the inputs. */
  function ApplySchema(service: string, r: RouteView, s: SchemaReply): RouteView {
    if |s.value| > 0 then
      r.(schema := s.value,
         outputs := AppendNew(r.outputs, SchemaUris(service, s.toUris)),
         inputs := AppendNew(r.inputs, SchemaUris(service, s.fromUris)))
    else r
  }

  /**
   * `Route.update`: the endpoints reply, then the schema reply, each of which
   * may stop the update with an error. A reply whose `routes` is absent
   * contributes no outputs (see `EndpointsOutcomeAsWritten` for the code as written).
   */
  function Refresh(service: string, r: RouteView, endpoints: Fetch<EndpointsReply>, schema: Fetch<SchemaReply>)
    : (RouteView, Option<string>)
  {
    match endpoints
    case Failed(error) => (r, Some(error))
    case Fetched(reply) =>
      if reply.status != 200 then (r, Some(reply.error))
      else
        var r1 := r.(outputs := AppendNew(r.outputs, StaticOutputs(service, reply.routes.GetOr([]))));
        match schema
        case Failed(error) => (r1, Some(error))
        case Fetched(s) => (ApplySchema(service, r1, s), None)
  }

  // ---------------------------------------------------------------------------
  // Specification of a service's route map

  /** Every known route is marked `None` before the listing is applied. */
  function ResetStates(routes: map<string, RouteView>): map<string, RouteView> {
    map k | k in routes :: routes[k].(state := NONE)
  }

  /** One listing entry: the route under its key is created if absent, then stamped. */
  function Absorb(service: string, routes: map<string, RouteView>, e: ReadRouteEntry): map<string, RouteView> {
    var key := EntryKey(e);
    var base := if key in routes then routes[key] else FreshRoute(service, e);
    routes[key := Stamp(base, e)]
  }

  /** `Absorb` as `AbsorbEntry` performs it: file the route, then stamp it. */
  lemma AbsorbInTwoSteps(service: string, routes: map<string, RouteView>, e: ReadRouteEntry)
    ensures var key := EntryKey(e);
      var filed := routes[key := if key in routes then routes[key] else FreshRoute(service, e)];
      filed[key := Stamp(filed[key], e)] == Absorb(service, routes, e)
  {
    var key := EntryKey(e);
    var filed := routes[key := if key in routes then routes[key] else FreshRoute(service, e)];
    assert filed[key := Stamp(filed[key], e)] == routes[key := Stamp(filed[key], e)];
  }

  /** A map that differs from `before` at `key` only is `before` updated there. */
  lemma UpdatedAt<K, V>(after: map<K, V>, before: map<K, V>, key: K)
    requires after.Keys == before.Keys && key in after
    requires forall k :: k in after && k != key ==> after[k] == before[k]
    ensures after == before[key := after[key]]
  {
  }

  function AbsorbAll(service: string, routes: map<string, RouteView>, entries: seq<ReadRouteEntry>)
    : map<string, RouteView>
    decreases |entries|
  {
    if entries == [] then routes
    else
      var n := |entries| - 1;
      Absorb(service, AbsorbAll(service, routes, entries[..n]), entries[n])
  }

  /** `Service.update` on a listing it could fetch. */
  function Merge(service: string, routes: map<string, RouteView>, entries: seq<ReadRouteEntry>)
    : map<string, RouteView>
  {
    AbsorbAll(service, ResetStates(routes), entries)
  }

  /**
   * What the merge leaves under `key`, stated per key: an unreported route is
   * its old self marked `None`; a reported one is its old self, or the route
   * its first entry creates, stamped with its last entry.
   */
  function Expected(service: string, routes: map<string, RouteView>, entries: seq<ReadRouteEntry>, key: string): RouteView
    requires key in routes || Reported(entries, key)
  {
    match LastReport(entries, key)
    case None => routes[key].(state := NONE)
    case Some(last) =>
      var base := if key in routes then routes[key] else FreshRoute(service, FirstReport(entries, key).value);
      Stamp(base, last)
  }

  lemma {:induction false} AbsorbAllCharacterised(service: string, routes: map<string, RouteView>,
                                                  entries: seq<ReadRouteEntry>, key: string)
    ensures key in AbsorbAll(service, routes, entries) <==> key in routes || Reported(entries, key)
    ensures key in AbsorbAll(service, routes, entries) ==>
      AbsorbAll(service, routes, entries)[key] ==
        match LastReport(entries, key)
        case None => routes[key]
        case Some(last) =>
          Stamp(if key in routes then routes[key] else FreshRoute(service, FirstReport(entries, key).value), last)
    decreases |entries|
  {
    if entries != [] {
      var n := |entries| - 1;
      assert entries == entries[..n] + [entries[n]];
      AbsorbAllCharacterised(service, routes, entries[..n], key);
      ReportsGrow(entries[..n], entries[n], key);
    }
  }

  /** The merge, key by key. */
  lemma MergeCharacterised(service: string, routes: map<string, RouteView>, entries: seq<ReadRouteEntry>, key: string)
    ensures key in Merge(service, routes, entries) <==> key in routes || Reported(entries, key)
    ensures key in Merge(service, routes, entries) ==>
      Merge(service, routes, entries)[key] == Expected(service, routes, entries, key)
  {
    AbsorbAllCharacterised(service, ResetStates(routes), entries, key);
  }

  /** No route is ever removed, and a route appears only for a reported key. */
  lemma MergeKeys(service: string, routes: map<string, RouteView>, entries: seq<ReadRouteEntry>)
    ensures forall k :: k in Merge(service, routes, entries) <==> k in routes || Reported(entries, k)
  {
    forall k ensures k in Merge(service, routes, entries) <==> k in routes || Reported(entries, k) {
      MergeCharacterised(service, routes, entries, k);
    }
  }

  /** A known route absent from the listing is left `None`, with everything else kept. */
  lemma MergeUnreported(service: string, routes: map<string, RouteView>, entries: seq<ReadRouteEntry>, key: string)
    requires key in routes && !Reported(entries, key)
    ensures key in Merge(service, routes, entries)
    ensures Merge(service, routes, entries)[key] == routes[key].(state := NONE)
  {
    MergeCharacterised(service, routes, entries, key);
  }

  /**
   * A reported route carries the state, uptime and counters of its last
   * entry; a known one keeps its identity, endpoints and schema.
   */
  lemma MergeReported(service: string, routes: map<string, RouteView>, entries: seq<ReadRouteEntry>, i: nat)
    requires i < |entries|
    ensures EntryKey(entries[i]) in Merge(service, routes, entries)
    ensures var key := EntryKey(entries[i]);
      var r := Merge(service, routes, entries)[key];
      var last := LastReport(entries, key).value;
      r.state == last.state && r.uptime == last.uptime && r.counters == last.counters
      && (key in routes ==> r == Stamp(routes[key], last))
  {
    var key := EntryKey(entries[i]);
    assert Reported(entries, key);
    MergeCharacterised(service, routes, entries, key);
  }

  /** A route created by the merge starts with its first entry's cleaned uri as only input, and no outputs. */
  lemma MergeCreates(service: string, routes: map<string, RouteView>, entries: seq<ReadRouteEntry>, key: string)
    requires key !in routes && Reported(entries, key)
    ensures key in Merge(service, routes, entries)
    ensures var r := Merge(service, routes, entries)[key];
      var first := FirstReport(entries, key).value;
      r.context == first.camelManagementName && r.name == first.routeId
      && r.inputs == [CleanEndpoint(service, first.endpointUri)] && r.outputs == []
  {
    MergeCharacterised(service, routes, entries, key);
  }

  /** Applying the same listing twice gives what applying it once gives. */
  lemma MergeIdempotent(service: string, routes: map<string, RouteView>, entries: seq<ReadRouteEntry>)
    ensures Merge(service, Merge(service, routes, entries), entries) == Merge(service, routes, entries)
  {
    var once := Merge(service, routes, entries);
    var twice := Merge(service, once, entries);
    forall k | k in once || k in twice
      ensures k in once && k in twice && twice[k] == once[k]
    {
      MergeCharacterised(service, routes, entries, k);
      MergeCharacterised(service, once, entries, k);
    }
  }

  // ---------------------------------------------------------------------------
  // Properties of one route's refresh

  /** A failed or non-200 endpoints reply changes nothing and reports the error. */
  lemma RefreshFailure(service: string, r: RouteView, endpoints: Fetch<EndpointsReply>, schema: Fetch<SchemaReply>)
    requires endpoints.Failed? || endpoints.body.status != 200
    ensures Refresh(service, r, endpoints, schema).0 == r
    ensures Refresh(service, r, endpoints, schema).1 ==
      Some(if endpoints.Failed? then endpoints.error else endpoints.body.error)
  {
  }

  /**
   * Endpoints are only ever appended: the old lists stay in front, nothing
   * is duplicated, and identity, state and counters are untouched.
   */
  lemma RefreshAppends(service: string, r: RouteView, endpoints: Fetch<EndpointsReply>, schema: Fetch<SchemaReply>)
    requires Distinct(r.inputs) && Distinct(r.outputs)
    ensures var r' := Refresh(service, r, endpoints, schema).0;
      |r.inputs| <= |r'.inputs| && r'.inputs[..|r.inputs|] == r.inputs
      && |r.outputs| <= |r'.outputs| && r'.outputs[..|r.outputs|] == r.outputs
      && Distinct(r'.inputs) && Distinct(r'.outputs)
      && r'.(inputs := r.inputs, outputs := r.outputs, schema := r.schema) == r
  {
    if endpoints.Fetched? && endpoints.body.status == 200 {
      var statics := StaticOutputs(service, endpoints.body.routes.GetOr([]));
      var o1 := AppendNew(r.outputs, statics);
      AppendNewDistinct(r.outputs, statics);
      if schema.Fetched? && |schema.body.value| > 0 {
        var s := schema.body;
        AppendNewDistinct(o1, SchemaUris(service, s.toUris));
        AppendNewDistinct(r.inputs, SchemaUris(service, s.fromUris));
        var o2 := AppendNew(o1, SchemaUris(service, s.toUris));
        assert o2[..|r.outputs|] == o1[..|o1|][..|r.outputs|];
      }
    }
  }

  /** After a successful refresh every static output and every schema uri is present. */
  lemma RefreshCollects(service: string, r: RouteView, reply: EndpointsReply, s: SchemaReply)
    requires reply.status == 200 && |s.value| > 0
    ensures var r' := Refresh(service, r, Fetched(reply), Fetched(s)).0;
      (forall x :: x in StaticOutputs(service, reply.routes.GetOr([])) ==> x in r'.outputs)
      && (forall u :: u in s.toUris && u != "" ==> CleanEndpoint(service, u) in r'.outputs)
      && (forall u :: u in s.fromUris && u != "" ==> CleanEndpoint(service, u) in r'.inputs)
      && r'.schema == s.value
  {
  }

  /** Polling the same replies again changes nothing. */
  lemma RefreshIdempotent(service: string, r: RouteView, endpoints: Fetch<EndpointsReply>, schema: Fetch<SchemaReply>)
    ensures var once := Refresh(service, r, endpoints, schema);
      Refresh(service, once.0, endpoints, schema) == once
  {
    if endpoints.Fetched? && endpoints.body.status == 200 {
      var statics := StaticOutputs(service, endpoints.body.routes.GetOr([]));
      var o1 := AppendNew(r.outputs, statics);
      if schema.Fetched? && |schema.body.value| > 0 {
        var s := schema.body;
        var to, from := SchemaUris(service, s.toUris), SchemaUris(service, s.fromUris);
        var o2 := AppendNew(o1, to);
        AppendNewPresent(o2, statics);
        AppendNewIdempotent(o1, to);
        AppendNewIdempotent(r.inputs, from);
      } else {
        AppendNewIdempotent(r.outputs, statics);
      }
    }
  }

  // ---------------------------------------------------------------------------
  // The endpoints reply as the code is written

  datatype Outcome = Panic | Outputs(uris: seq<string>)

  /**
   * The endpoints loop as written: it dereferences the decoded `Routes`
   * pointer unconditionally (`*endpointsEntry.Routes != nil`), so a reply
   * without a `routes` object panics the polling goroutine.
   */
  function EndpointsOutcomeAsWritten(service: string, reply: EndpointsReply): (o: Outcome)
    requires reply.status == 200
    ensures o.Panic? <==> reply.routes.None?
  {
    match reply.routes
    case None => Panic
    case Some(routes) => Outputs(StaticOutputs(service, routes))
  }

  /** A 200 reply whose value has no `routes` key is enough to panic. */
  lemma EndpointsWithoutRoutesPanic()
    ensures EndpointsOutcomeAsWritten("svc", EndpointsReply(200, "", None)).Panic?
    ensures Refresh("svc", RouteView("c", "r", "", "", "", NoCounters, [], [], ""),
                    Fetched(EndpointsReply(200, "", None)), Fetched(SchemaReply("", [], []))).1 == None
  {
  }

  /** With the nil check applied, a reply without routes leaves the outputs as they were. */
  lemma RefreshWithoutRoutes(service: string, r: RouteView, reply: EndpointsReply)
    requires reply.status == 200 && reply.routes.None?
    ensures Refresh(service, r, Fetched(reply), Fetched(SchemaReply("", [], []))) == (r, None)
  {
  }

  // ---------------------------------------------------------------------------
  // The objects

  class Route {
    const service: string
    var context: string
    var name: string
    var endpointUri: string
    var state: string
    var uptime: string
    var counters: Counters
    var inputs: seq<string>
    var outputs: seq<string>
    var schema: string

    function View(): RouteView
      reads this
    {
      RouteView(context, name, endpointUri, state, uptime, counters, inputs, outputs, schema)
    }

    /** The route `Service.update` creates for a new key, with its first input already added. */
    constructor (service: string, e: ReadRouteEntry)
      ensures this.service == service && View() == FreshRoute(service, e)
    {
      this.service := service;
      context, name, endpointUri := e.camelManagementName, e.routeId, e.endpointUri;
      state, uptime, counters := "", "", NoCounters;
      inputs, outputs, schema := [], [], "";
      new;
      inputs := inputs + [CleanEndpoint(service, e.endpointUri)];
    }

    /** Copies state, uptime and the counters from a listing entry. */
    method Report(e: ReadRouteEntry)
      modifies this
      ensures View() == Stamp(old(View()), e)
    {
      state, uptime, counters := e.state, e.uptime, e.counters;
    }

    /** Appends `candidate` to the outputs unless `contains` finds it there. */
    method AddOutput(candidate: string)
      modifies this
      ensures View() == old(View()).(outputs := AppendNew(old(outputs), [candidate]))
    {
      var found := ContainsEntry(outputs, candidate);
      if !found {
        outputs := outputs + [candidate];
      }
    }

    /** Appends `candidate` to the inputs unless `contains` finds it there. */
    method AddInput(candidate: string)
      modifies this
      ensures View() == old(View()).(inputs := AppendNew(old(inputs), [candidate]))
    {
      var found := ContainsEntry(inputs, candidate);
      if !found {
        inputs := inputs + [candidate];
      }
    }

    /** `Route.update` with the two replies it fetches given as inputs. */
    method Update(endpoints: Fetch<EndpointsReply>, schemaReply: Fetch<SchemaReply>) returns (err: Option<string>)
      modifies this
      ensures (View(), err) == Refresh(service, old(View()), endpoints, schemaReply)
    {
      if endpoints.Failed? {
        return Some(endpoints.error);
      }
      var reply := endpoints.body;
      if reply.status != 200 {
        return Some(reply.error);
      }
      AddStaticOutputs(reply.routes.GetOr([]));
      match schemaReply
      case Failed(error) =>
        return Some(error);
      case Fetched(s) =>
        if |s.value| > 0 {
          schema := s.value;
          AddOutputs(SchemaUris(service, s.toUris));
          AddInputs(SchemaUris(service, s.fromUris));
        }
        return None;
    }

    /** The static-endpoints loop: every route entry's outputs, in order. */
    method AddStaticOutputs(routes: seq<RouteEndpoints>)
      modifies this
      ensures View() == old(View()).(outputs := AppendNew(old(outputs), StaticOutputs(service, routes)))
    {
      for i := 0 to |routes|
        invariant View() == old(View()).(outputs := AppendNew(old(outputs), StaticOutputs(service, routes[..i])))
      {
        assert routes[..i + 1][..i] == routes[..i];
        var uris := if routes[i].outputs.Some? then routes[i].outputs.value else [];
        ghost var mid := outputs;
        AddKeptOutputs(uris);
        AppendNewConcat(old(outputs), StaticOutputs(service, routes[..i]), KeptOutputs(service, uris));
      }
      assert routes[..|routes|] == routes;
    }

    /** One route entry's outputs: each cleaned and appended unless the skip guard holds. */
    method AddKeptOutputs(uris: seq<string>)
      modifies this
      ensures View() == old(View()).(outputs := AppendNew(old(outputs), KeptOutputs(service, uris)))
    {
      for j := 0 to |uris|
        invariant View() == old(View()).(outputs := AppendNew(old(outputs), KeptOutputs(service, uris[..j])))
      {
        assert uris[..j + 1][..j] == uris[..j];
        if SkipsUnfilledOutput(uris[j]) {
          continue;
        }
        var candidate := CleanEndpoint(service, uris[j]);
        AddOutput(candidate);
        AppendNewConcat(old(outputs), KeptOutputs(service, uris[..j]), [candidate]);
      }
      assert uris[..|uris|] == uris;
    }

    method AddOutputs(candidates: seq<string>)
      modifies this
      ensures View() == old(View()).(outputs := AppendNew(old(outputs), candidates))
    {
      for i := 0 to |candidates|
        invariant View() == old(View()).(outputs := AppendNew(old(outputs), candidates[..i]))
      {
        AddOutput(candidates[i]);
        AppendNewConcat(old(outputs), candidates[..i], [candidates[i]]);
        assert candidates[..i] + [candidates[i]] == candidates[..i + 1];
      }
      assert candidates[..|candidates|] == candidates;
    }

    method AddInputs(candidates: seq<string>)
      modifies this
      ensures View() == old(View()).(inputs := AppendNew(old(inputs), candidates))
    {
      for i := 0 to |candidates|
        invariant View() == old(View()).(inputs := AppendNew(old(inputs), candidates[..i]))
      {
        AddInput(candidates[i]);
        AppendNewConcat(old(inputs), candidates[..i], [candidates[i]]);
        assert candidates[..i] + [candidates[i]] == candidates[..i + 1];
      }
      assert candidates[..|candidates|] == candidates;
    }
  }

  class Service {
    const name: string
    const url: string
    const color: string
    var routeMap: map<string, Route>
    var updatingState: string

    /** Each route object sits under one key only, and belongs to this service. */
    ghost predicate Valid()
      reads this, routeMap.Values
    {
      && (forall k1, k2 :: k1 in routeMap && k2 in routeMap && k1 != k2 ==> routeMap[k1] != routeMap[k2])
      && (forall k :: k in routeMap ==> routeMap[k].service == name)
    }

    ghost function View(): map<string, RouteView>
      reads this, routeMap.Values
    {
      map k | k in routeMap :: routeMap[k].View()
    }

    /** The service `NewService` builds from a valid configuration. */
    constructor (config: ServiceConfig)
      ensures Built(this, config) && Valid()
    {
      name, url, color := config.name, config.url, config.color;
      routeMap := map[];
      updatingState := UPDATE_STATE_IN_PROCESS;
    }

    /**
     * `Service.update` with the route listing given as input. The listing is
     * a JSON object, so its entries come in no particular order.
     */
    method Update(listing: Fetch<seq<ReadRouteEntry>>) returns (err: Option<string>)
      requires Valid()
      modifies this, routeMap.Values
      ensures Valid()
      ensures listing.Failed? ==> err == Some(listing.error) && View() == old(View())
      ensures listing.Fetched? ==> err == None && View() == Merge(name, old(View()), listing.body)
      ensures forall k :: k in old(routeMap) ==> k in routeMap && routeMap[k] == old(routeMap[k])
      ensures forall k :: k in routeMap && k !in old(routeMap) ==> fresh(routeMap[k])
    {
      if listing.Failed? {
        return Some(listing.error);
      }
      MarkAllNone();
      var entries := listing.body;
      for i := 0 to |entries|
        invariant Valid()
        invariant forall k :: k in old(routeMap) ==> k in routeMap && routeMap[k] == old(routeMap[k])
        invariant forall k :: k in routeMap && k !in old(routeMap) ==> fresh(routeMap[k])
        invariant View() == AbsorbAll(name, ResetStates(old(View())), entries[..i])
      {
        assert entries[..i + 1][..i] == entries[..i];
        AbsorbEntry(entries[i]);
      }
      assert entries[..|entries|] == entries;
      return None;
    }

    /** Marks every known route `None`. */
    method MarkAllNone()
      requires Valid()
      modifies routeMap.Values
      ensures Valid() && View() == ResetStates(old(View()))
    {
      forall r | r in routeMap.Values {
        r.state := NONE;
      }
    }

    /** One listing entry: the route under its key, created if absent, gets the entry's values. */
    method AbsorbEntry(e: ReadRouteEntry)
      requires Valid()
      modifies this, routeMap.Values
      ensures Valid()
      ensures View() == Absorb(name, old(View()), e)
      ensures forall k :: k in old(routeMap) ==> k in routeMap && routeMap[k] == old(routeMap[k])
      ensures forall k :: k in routeMap && k !in old(routeMap) ==> fresh(routeMap[k])
    {
      var key := EntryKey(e);
      ghost var v0 := View();
      var route := RouteFor(e);
      ghost var v1 := View();
      StampRoute(key, e);
      AbsorbInTwoSteps(name, v0, e);
    }

    /** The entry's values are copied onto the route filed under `key`; no other route changes. */
    method StampRoute(key: string, e: ReadRouteEntry)
      requires Valid() && key in routeMap
      modifies routeMap[key]
      ensures Valid()
      ensures View() == old(View())[key := Stamp(old(View())[key], e)]
    {
      ghost var before := View();
      var route := routeMap[key];
      route.Report(e);
      UpdatedAt(View(), before, key);
    }

    /** The route filed under the entry's key, created and filed there if absent. */
    method RouteFor(e: ReadRouteEntry) returns (route: Route)
      requires Valid()
      modifies this
      ensures Valid()
      ensures EntryKey(e) in routeMap && routeMap[EntryKey(e)] == route
      ensures View() == old(View())[EntryKey(e) := if EntryKey(e) in old(View()) then old(View())[EntryKey(e)]
                                                 else FreshRoute(name, e)]
      ensures forall k :: k in old(routeMap) ==> k in routeMap && routeMap[k] == old(routeMap[k])
      ensures forall k :: k in routeMap && k !in old(routeMap) ==> fresh(routeMap[k])
    {
      var key := RouteKey(e.camelManagementName, e.routeId);
      if key in routeMap {
        route := routeMap[key];
      } else {
        route := new Route(name, e);
        routeMap := routeMap[key := route];
      }
    }
  }

  /** What `NewService` copies from its configuration. */
  ghost predicate Built(s: Service, config: ServiceConfig)
    reads s
  {
    s.name == config.name && s.url == config.url && s.color == config.color
    && s.routeMap == map[] && s.updatingState == UPDATE_STATE_IN_PROCESS
  }

  class Environment {
    const name: string
    var serviceMap: map<string, Service>

    constructor (name: string)
      ensures this.name == name && serviceMap == map[]
    {
      this.name := name;
      serviceMap := map[];
    }
  }

  // ---------------------------------------------------------------------------
  // Validation

  /** The error `NewService` rejects a configuration with, if any. */
  function ServiceError(config: ServiceConfig): (err: Option<string>)
    ensures err.None? <==> config.name != "" && config.url != ""
  {
    if config.name == "" then Some("service name must not be empty")
    else if config.url == "" then Some("service url must not be empty")
    else None
  }

  /** The error `NewEnvironment` rejects a configuration with, if any. */
  function EnvironmentError(config: EnvironmentConfig): (err: Option<string>)
    ensures err.None? <==> config.name != "" && forall i :: 0 <= i < |config.services| ==>
      config.services[i].name != "" && config.services[i].url != ""
  {
    if config.name == "" then Some("environment name must not be empty")
    else FirstError(config.services, ServiceError)
  }

  /** `NewService`: rejects a missing name or url, else builds a service with no routes. */
  method NewService(config: ServiceConfig) returns (service: Option<Service>, err: Option<string>)
    ensures err == ServiceError(config)
    ensures service.Some? <==> err.None?
    ensures service.Some? ==> fresh(service.value) && Built(service.value, config) && service.value.Valid()
  {
    if config.name == "" {
      return None, Some("service name must not be empty");
    }
    if config.url == "" {
      return None, Some("service url must not be empty");
    }
    var s := new Service(config);
    return Some(s), None;
  }

  /**
   * `NewEnvironment`: rejects a missing name or the first invalid service;
   * otherwise files each service under its name, a later one replacing an
   * earlier namesake.
   */
  method NewEnvironment(config: EnvironmentConfig) returns (env: Option<Environment>, err: Option<string>)
    ensures err == EnvironmentError(config)
    ensures env.Some? <==> err.None?
    ensures env.Some? ==> env.value.name == config.name
    ensures env.Some? ==> forall n :: n in env.value.serviceMap <==> LastConfig(config.services, n).Some?
    ensures env.Some? ==> forall n :: n in env.value.serviceMap ==>
      Built(env.value.serviceMap[n], LastConfig(config.services, n).value)
  {
    if config.name == "" {
      return None, Some("environment name must not be empty");
    }
    var e := new Environment(config.name);
    var services := config.services;
    for i := 0 to |services|
      invariant FirstError(services[..i], ServiceError).None?
      invariant forall n :: n in e.serviceMap <==> LastConfig(services[..i], n).Some?
      invariant forall n :: n in e.serviceMap ==> Built(e.serviceMap[n], LastConfig(services[..i], n).value)
    {
      assert services[..i + 1][..i] == services[..i];
      var s, serr := NewService(services[i]);
      if serr.Some? {
        FirstErrorStays(services, ServiceError, i + 1);
        return None, serr;
      }
      e.serviceMap := e.serviceMap[s.value.name := s.value];
    }
    assert services[..|services|] == services;
    return Some(e), None;
  }
}
