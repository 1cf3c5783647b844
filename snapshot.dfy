/**
 * The environment view's controller (public/js/controllers/environment.js):
 * `merge` of two snapshots, the start-up and poll pipelines that feed the
 * graph, and the selection state a click on the graph drives.
 */
module Snapshot {
  import opened Wrappers
  import opened JsData
  import GS = GraphSpec
  import GraphSync

  /** `{}`: a service record with no field set. */
  const Blank := JsService(None, None, None, "", None, [])

  /** The `{}` both callers pass as the old snapshot. */
  const NoSnapshot := JsSnapshot(None, None, None)

  /** `order` lists every key of `m` once and `values` holds their values in that order. */
  ghost predicate Flattens<V>(m: map<string, V>, order: seq<string>, values: seq<V>) {
    && |order| == |values|
    && (forall i, j :: 0 <= i < j < |order| ==> order[i] != order[j])
    && (forall k :: k in order <==> k in m)
    && (forall i :: 0 <= i < |order| ==> order[i] in m && values[i] == m[order[i]])
  }

  /** `values` is what a `for (k in m)` loop pushing `m[k]` yields, in some key order. */
  ghost predicate Lists<V>(m: map<string, V>, values: seq<V>) {
    exists order :: Flattens(m, order, values)
  }

  lemma {:induction false} DistinctCount(s: seq<string>)
    requires forall i, j :: 0 <= i < j < |s| ==> s[i] != s[j]
    ensures |set k | k in s| == |s|
  {
    if s != [] {
      var t := s[..|s| - 1];
      DistinctCount(t);
      assert (set k | k in s) == (set k | k in t) + {s[|s| - 1]};
      assert s[|s| - 1] !in (set k | k in t);
    }
  }

  lemma KeysOf<V>(m: map<string, V>, order: seq<string>, values: seq<V>)
    requires Flattens(m, order, values)
    ensures (set k | k in order) == m.Keys
  {
    var keys := set k | k in order;
    assert forall k :: k in keys <==> k in m;
  }

  /** A flattened map has one entry per key, and every value appears. */
  lemma ListsCount<V>(m: map<string, V>, values: seq<V>)
    requires Lists(m, values)
    ensures |values| == |m|
    ensures forall k :: k in m ==> m[k] in values
  {
    var order :| Flattens(m, order, values);
    DistinctCount(order);
    KeysOf(m, order, values);
    forall k | k in m
      ensures m[k] in values
    {
      var i :| 0 <= i < |order| && order[i] == k;
      assert values[i] == m[k];
    }
  }

  /** A `for ... in` loop that pushes every value of a map; `order` is the key order it took, which is unspecified. */
  method Values<V>(m: map<string, V>) returns (values: seq<V>, order: seq<string>)
    ensures Flattens(m, order, values)
  {
    values := [];
    order := [];
    var pending := m.Keys;
    while pending != {}
      invariant pending <= m.Keys
      invariant |order| == |values|
      invariant forall k :: k in order <==> k in m && k !in pending
      invariant forall i, j :: 0 <= i < j < |order| ==> order[i] != order[j]
      invariant forall i :: 0 <= i < |order| ==> order[i] in m && values[i] == m[order[i]]
      decreases |pending|
    {
      var k :| k in pending;
      values := values + [m[k]];
      order := order + [k];
      pending := pending - {k};
    }
  }

  /** The services of a snapshot, by name; an absent `serviceMap` has none. */
  function ServicesOf(d: JsSnapshot): map<string, JsService> {
    d.serviceMap.GetOr(map[])
  }

  /**
   * The merged record for a service of the new snapshot: when the old snapshot
   * knew the name, a bare record carrying the new `error` and `lastUpdated`;
   * otherwise the new record itself.
   */
  function Adopt(oldData: JsSnapshot, name: string, s: JsService): (r: JsService)
    ensures (name in ServicesOf(oldData)) ==> r == Blank.(error := s.error, lastUpdated := s.lastUpdated)
    ensures (name !in ServicesOf(oldData)) ==> r == s
  {
    if oldData.serviceMap.Some? && name in oldData.serviceMap.value then
      Blank.(error := s.error, lastUpdated := s.lastUpdated)
    else
      s
  }

  /** `after` is `before` with `routes` holding one entry per key of its `routeMap` (none without one). */
  ghost predicate RoutesFlattened(before: JsService, after: JsService) {
    after == before.(routes := after.routes) && Lists(before.routeMap.GetOr(map[]), after.routes)
  }

  /** What `merge` returns. */
  datatype Merged = Merged(
    name: Option<string>,
    lastUpdated: Option<string>,
    serviceMap: map<string, JsService>,
    services: seq<JsService>)

  /** Everything `merge(oldData, newData)` promises of its result. */
  ghost predicate MergeOf(oldData: JsSnapshot, newData: JsSnapshot, result: Merged) {
    && result.name == newData.name
    && result.lastUpdated == newData.lastUpdated
    && result.serviceMap.Keys == ServicesOf(newData).Keys
    && (forall name :: name in result.serviceMap ==>
          RoutesFlattened(Adopt(oldData, name, ServicesOf(newData)[name]), result.serviceMap[name]))
    && Lists(result.serviceMap, result.services)
  }

  /** Both callers merge into `{}`: every service is the new record, with its routes flattened. */
  lemma MergeFromNothing(newData: JsSnapshot, result: Merged)
    requires MergeOf(NoSnapshot, newData, result)
    ensures |result.services| == |ServicesOf(newData)|
    ensures forall name :: name in result.serviceMap ==>
      RoutesFlattened(ServicesOf(newData)[name], result.serviceMap[name])
  {
    ListsCount(result.serviceMap, result.services);
  }

  /** A service the new snapshot lacks is dropped, whatever the old snapshot held. */
  lemma MergeDropsStale(oldData: JsSnapshot, newData: JsSnapshot, result: Merged, name: string)
    requires MergeOf(oldData, newData, result)
    requires name !in ServicesOf(newData)
    ensures forall s :: s in result.services ==> exists n :: n in result.serviceMap && n != name && result.serviceMap[n] == s
  {
    var order :| Flattens(result.serviceMap, order, result.services);
    forall s | s in result.services
      ensures exists n :: n in result.serviceMap && n != name && result.serviceMap[n] == s
    {
      var i :| 0 <= i < |result.services| && result.services[i] == s;
      assert order[i] in result.serviceMap && order[i] != name;
    }
  }

  /** The body of `merge`: the merging loop, then flattening services and each service's routes. */
  method MergeSnapshots(oldData: JsSnapshot, newData: JsSnapshot) returns (result: Merged)
    ensures MergeOf(oldData, newData, result)
  {
    var adopted := AdoptAll(oldData, ServicesOf(newData));
    var services, order := Values(adopted);
    var serviceMap, flat := FlattenRoutes(adopted, order, services);
    result := Merged(newData.name, newData.lastUpdated, serviceMap, flat);
    assert Flattens(serviceMap, order, flat);
  }

  /** The merging loop of `merge`, over the new snapshot's service names. */
  method AdoptAll(oldData: JsSnapshot, incoming: map<string, JsService>) returns (serviceMap: map<string, JsService>)
    ensures serviceMap.Keys == incoming.Keys
    ensures forall n :: n in serviceMap ==> serviceMap[n] == Adopt(oldData, n, incoming[n])
  {
    serviceMap := map[];
    var pending := incoming.Keys;
    while pending != {}
      invariant pending <= incoming.Keys
      invariant serviceMap.Keys == incoming.Keys - pending
      invariant forall n :: n in serviceMap ==> serviceMap[n] == Adopt(oldData, n, incoming[n])
      decreases |pending|
    {
      var name :| name in pending;
      if name !in serviceMap {
        serviceMap := serviceMap[name := Blank];
      }
      if oldData.serviceMap.Some? && name in oldData.serviceMap.value {
        serviceMap := serviceMap[name := serviceMap[name].(error := incoming[name].error, lastUpdated := incoming[name].lastUpdated)];
      } else {
        serviceMap := serviceMap[name := incoming[name]];
      }
      pending := pending - {name};
    }
  }

  /**
   * The route-flattening loop of `merge`. `services[i]` and the map entry for
   * `order[i]` are one object in the source, so both receive the new `routes`.
   */
  method FlattenRoutes(adopted: map<string, JsService>, order: seq<string>, services: seq<JsService>)
    returns (serviceMap: map<string, JsService>, flat: seq<JsService>)
    requires Flattens(adopted, order, services)
    ensures Flattens(serviceMap, order, flat)
    ensures serviceMap.Keys == adopted.Keys
    ensures forall n :: n in serviceMap ==> RoutesFlattened(adopted[n], serviceMap[n])
  {
    serviceMap := adopted;
    flat := services;
    var i := 0;
    while i < |flat|
      invariant i <= |flat|
      invariant Flattens(serviceMap, order, flat)
      invariant serviceMap.Keys == adopted.Keys
      invariant forall k :: 0 <= k < i ==> RoutesFlattened(adopted[order[k]], serviceMap[order[k]])
      invariant forall k :: i <= k < |order| ==> serviceMap[order[k]] == adopted[order[k]]
    {
      var service := flat[i];
      var routes, routeOrder := Values(service.routeMap.GetOr(map[]));
      assert service == adopted[order[i]];
      service := service.(routes := routes);
      assert RoutesFlattened(adopted[order[i]], service);
      flat := flat[i := service];
      serviceMap := serviceMap[order[i] := service];
      i := i + 1;
    }
    forall n | n in serviceMap
      ensures RoutesFlattened(adopted[n], serviceMap[n])
    {
      var k :| 0 <= k < |order| && order[k] == n;
    }
  }

  /** `selectGraphEndpoint`'s rule: choosing the current selection clears it. */
  function Toggle(current: Option<string>, entry: Option<string>): (r: Option<string>)
    ensures r == None <==> current == entry || entry == None
    ensures r != None ==> r == entry
  {
    if current == entry then None else entry
  }

  /** Choosing one endpoint twice from nothing selected leaves nothing selected. */
  lemma ToggleTwice(e: string)
    ensures Toggle(None, Some(e)) == Some(e)
    ensures Toggle(Toggle(None, Some(e)), Some(e)) == None
  {
  }

  /** `nodes.get(ids)`: the nodes with those ids, in order, skipping unknown ids. */
  function NodesGet(nodes: seq<GS.Node>, ids: seq<nat>): (r: seq<GS.Node>)
    ensures |r| <= |ids|
    ensures forall k :: 0 <= k < |r| ==> r[k] in nodes
    ensures ids != [] && ids[0] < |nodes| ==> r != [] && r[0] == nodes[ids[0]]
    ensures r == [] <==> forall k :: 0 <= k < |ids| ==> ids[k] >= |nodes|
  {
    if ids == [] then []
    else if ids[0] < |nodes| then [nodes[ids[0]]] + NodesGet(nodes, ids[1..])
    else
      var rest := NodesGet(nodes, ids[1..]);
      assert forall k :: 1 <= k < |ids| ==> ids[k] == ids[1..][k - 1];
      rest
  }

  /** `edges.get(ids)`: the edges with those ids, in order, skipping unknown ids. */
  function EdgesGet(edges: map<GS.Pair, GS.Edge>, ids: seq<GS.Pair>): (r: seq<GS.Edge>)
    ensures |r| <= |ids|
    ensures forall k :: 0 <= k < |r| ==> r[k] in edges.Values
    ensures ids != [] && ids[0] in edges ==> r != [] && r[0] == edges[ids[0]]
    ensures r == [] <==> forall k :: 0 <= k < |ids| ==> ids[k] !in edges
  {
    if ids == [] then []
    else if ids[0] in edges then [edges[ids[0]]] + EdgesGet(edges, ids[1..])
    else
      var rest := EdgesGet(edges, ids[1..]);
      assert forall k :: 1 <= k < |ids| ==> ids[k] == ids[1..][k - 1];
      rest
  }

  /** What a click resolves to. */
  datatype Target = EndpointTarget(endpoint: string) | RouteTarget(route: JsRoute)

  /**
   * The `prepare` step of the click handler: the first node's label when any
   * node was hit, else the first edge's route; `None` when neither list has an
   * entry (the handler then fails on `data.edges[0].route` or never runs).
   */
  function ClickTarget(nodes: seq<GS.Node>, edges: seq<GS.Edge>): (r: Option<Target>)
    ensures r.Some? <==> nodes != [] || edges != []
    ensures nodes != [] ==> r == Some(EndpointTarget(nodes[0].endpoint))
    ensures nodes == [] && edges != [] ==> r == Some(RouteTarget(edges[0].route))
  {
    if nodes != [] then Some(EndpointTarget(nodes[0].endpoint))
    else if edges != [] then Some(RouteTarget(edges[0].route))
    else None
  }

  /** The `data` object a click builds; each click builds a new one. */
  class Selection {
    const nodes: seq<GS.Node>
    const edges: seq<GS.Edge>
    const endpoint: Option<string>
    const route: Option<JsRoute>

    constructor (nodes: seq<GS.Node>, edges: seq<GS.Edge>, target: Target)
      ensures this.nodes == nodes && this.edges == edges
      ensures endpoint == (if target.EndpointTarget? then Some(target.endpoint) else None)
      ensures route == (if target.RouteTarget? then Some(target.route) else None)
    {
      this.nodes := nodes;
      this.edges := edges;
      endpoint := if target.EndpointTarget? then Some(target.endpoint) else None;
      route := if target.RouteTarget? then Some(target.route) else None;
    }
  }

  /** `result` is `merged` after `processSchema`: each service coloured in place, nothing else changed. */
  ghost predicate Coloured(merged: Merged, result: Merged) {
    && result == merged.(services := result.services)
    && |result.services| == |merged.services|
    && forall i :: 0 <= i < |merged.services| ==> GraphSync.Colored(merged.services[i], result.services[i])
  }

  /** `snapshot` merged into `{}` and then coloured, as both the start and the poll prepare it. */
  ghost predicate Prepared(snapshot: JsSnapshot, result: Merged) {
    exists merged :: MergeOf(NoSnapshot, snapshot, merged) && Coloured(merged, result)
  }

  /** The controller's `$scope`, restricted to the state the core reads and writes. */
  class Place {
    var connectionLastUpdated: Option<string>
    var connectionError: Option<string>
    var selectedGraphEndpoint: Option<string>
    var selectedGraphElement: Selection?
    var data: Merged
    var graph: GraphSync.Graph

    /**
     * The controller's start: merge the initial snapshot into `{}`, colour it
     * and build the graph, with nothing selected.
     */
    constructor (initial: JsSnapshot)
      ensures fresh(graph) && graph.Valid()
      ensures selectedGraphEndpoint == None && selectedGraphElement == null
      ensures connectionLastUpdated == initial.lastUpdated && connectionError == None
      ensures Prepared(initial, data)
      ensures var built := GS.BuildGraph(data.services);
        graph.endpoints == built.endpoints && graph.edgeMap == built.edgeMap
        && graph.nodes == built.nodes && graph.edges == built.edges
      ensures forall k :: k in graph.endpointsKeys <==> k in graph.endpoints
      ensures forall a, b :: 0 <= a < b < |graph.endpointsKeys| ==> graph.endpointsKeys[a] != graph.endpointsKeys[b]
      ensures graph.endpoints.Keys == GS.ServicesFed(data.services)
    {
      var merged := MergeSnapshots(NoSnapshot, initial);
      var services := Colour(merged.services);
      assert Coloured(merged, merged.(services := services));
      var built := GraphSync.BuildGraphFromSchema(services);
      GS.BuildGraphKeys(services);
      connectionLastUpdated := merged.lastUpdated;
      connectionError := None;
      selectedGraphEndpoint := None;
      selectedGraphElement := null;
      data := merged.(services := services);
      graph := built;
    }

    /** `merge`; it also records the new `lastUpdated` on `$scope.connection`. */
    method Merge(oldData: JsSnapshot, newData: JsSnapshot) returns (result: Merged)
      modifies this
      ensures MergeOf(oldData, newData, result)
      ensures connectionLastUpdated == newData.lastUpdated
      ensures connectionError == old(connectionError) && data == old(data) && graph == old(graph)
      ensures selectedGraphEndpoint == old(selectedGraphEndpoint) && selectedGraphElement == old(selectedGraphElement)
    {
      result := MergeSnapshots(oldData, newData);
      connectionLastUpdated := result.lastUpdated;
    }

    /** `selectGraphEndpoint`. */
    method SelectGraphEndpoint(entry: Option<string>)
      modifies this
      ensures selectedGraphEndpoint == Toggle(old(selectedGraphEndpoint), entry)
      ensures selectedGraphElement == old(selectedGraphElement) && data == old(data) && graph == old(graph)
      ensures connectionLastUpdated == old(connectionLastUpdated) && connectionError == old(connectionError)
    {
      selectedGraphEndpoint := if selectedGraphEndpoint == entry then None else entry;
    }

    /** `selectGraphElement`: select the entry's endpoint (or none), and toggle the element by identity. */
    method SelectGraphElement(entry: Selection)
      modifies this
      ensures selectedGraphEndpoint == Toggle(old(selectedGraphEndpoint),
        if entry.endpoint.Some? && entry.endpoint.value != "" then entry.endpoint else None)
      ensures selectedGraphElement == (if old(selectedGraphElement) == entry then null else entry)
      ensures data == old(data) && graph == old(graph)
      ensures connectionLastUpdated == old(connectionLastUpdated) && connectionError == old(connectionError)
    {
      if entry.endpoint.Some? && entry.endpoint.value != "" {
        SelectGraphEndpoint(entry.endpoint);
      } else {
        SelectGraphEndpoint(None);
      }
      selectedGraphElement := if selectedGraphElement == entry then null else entry;
    }

    /**
     * The network's click handler: look the clicked ids up, resolve the click
     * and select the result. A click always selects its new `data` object.
     */
    method Click(nodeIds: seq<nat>, edgeIds: seq<GS.Pair>) returns (entry: Selection?)
      modifies this
      ensures entry != null <==>
        (nodeIds != [] || edgeIds != []) && ClickTarget(NodesGet(graph.nodes, nodeIds), EdgesGet(graph.edges, edgeIds)).Some?
      ensures entry != null ==>
        && fresh(entry)
        && entry.nodes == NodesGet(graph.nodes, nodeIds)
        && entry.edges == EdgesGet(graph.edges, edgeIds)
        && ClickTarget(entry.nodes, entry.edges).Some?
        && (entry.endpoint.Some? <==> ClickTarget(entry.nodes, entry.edges).value.EndpointTarget?)
        && (entry.endpoint.Some? ==> entry.endpoint.value == ClickTarget(entry.nodes, entry.edges).value.endpoint)
        && (entry.route.Some? <==> entry.endpoint.None?)
        && (entry.route.Some? ==> entry.route.value == ClickTarget(entry.nodes, entry.edges).value.route)
      ensures entry != null ==> selectedGraphElement == entry
      ensures entry == null ==> selectedGraphElement == old(selectedGraphElement) && selectedGraphEndpoint == old(selectedGraphEndpoint)
      ensures data == old(data) && graph == old(graph)
      ensures connectionLastUpdated == old(connectionLastUpdated) && connectionError == old(connectionError)
    {
      entry := null;
      if |edgeIds| > 0 || |nodeIds| > 0 {
        var nodes := NodesGet(graph.nodes, nodeIds);
        var edges := EdgesGet(graph.edges, edgeIds);
        var target := ClickTarget(nodes, edges);
        if target.Some? {
          entry := new Selection(nodes, edges, target.value);
          SelectGraphElement(entry);
        }
      }
    }

    /**
     * The poll's success callback: clear the connection error, merge the new
     * snapshot into `{}`, colour it and patch the graph. The merged snapshot
     * is the callback's local `data`, returned here; `$scope.data` keeps the
     * snapshot of the start. Every endpoint the graph had is kept, and the new
     * snapshot's fed endpoints are added; `GraphSpec.UpdateGraphValid` shows
     * the patched graph stays valid.
     */
    method Receive(newData: JsSnapshot) returns (polled: Merged)
      modifies this, graph
      ensures Prepared(newData, polled)
      ensures graph == old(graph) && data == old(data)
      ensures graph.State() == GS.UpdateGraph(old(graph.State()), polled.services)
      ensures graph.endpoints.Keys == old(graph.endpoints).Keys + GS.ServicesFed(polled.services)
      ensures connectionError == None && connectionLastUpdated == newData.lastUpdated
      ensures selectedGraphEndpoint == old(selectedGraphEndpoint) && selectedGraphElement == old(selectedGraphElement)
    {
      connectionError := None;
      var merged := MergeSnapshots(NoSnapshot, newData);
      connectionLastUpdated := merged.lastUpdated;
      var services := Colour(merged.services);
      polled := merged.(services := services);
      assert Coloured(merged, polled);
      GraphSync.UpdateGraph(graph, services);
      GS.UpdateGraphKeys(old(graph.State()), services);
    }

    /** A failed poll: the banner shows the lost connection and nothing else moves. */
    method Lose()
      modifies this
      ensures connectionError == Some(LostConnection)
      ensures connectionLastUpdated == old(connectionLastUpdated) && data == old(data) && graph == old(graph)
      ensures selectedGraphEndpoint == old(selectedGraphEndpoint) && selectedGraphElement == old(selectedGraphElement)
    {
      connectionError := Some(LostConnection);
    }
  }

  /** The message a failed poll leaves on `$scope.connection.error`. */
  const LostConnection := "Connection with server is lost"

  /** `processSchema` on the merged services, through the array it mutates. */
  method Colour(services: seq<JsService>) returns (coloured: seq<JsService>)
    ensures |coloured| == |services|
    ensures forall i :: 0 <= i < |services| ==> GraphSync.Colored(services[i], coloured[i])
  {
    var a := new JsService[|services|](i requires 0 <= i < |services| => services[i]);
    GraphSync.ProcessSchema(a);
    coloured := a[..];
  }
}
