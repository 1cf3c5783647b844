/**
 * The graph object of public/js/services/utils.js and the functions that
 * build and refresh it, as a class whose fields are the object's tables and
 * its two vis.js datasets. Every method is proved to leave the object in the
 * state the matching function of `GraphSpec` describes.
 */
module GraphSync {
  import opened Wrappers
  import opened JsData
  import GS = GraphSpec

  /** `getRandomColor`'s alphabet. */
  const Letters := "0123456789ABCDEF"

  /** A colour as `getRandomColor` writes it: `#` and six upper-case hex digits. */
  predicate IsColor(c: string) {
    |c| == 7 && c[0] == '#' && forall i :: 1 <= i < 7 ==> c[i] in Letters
  }

  /** `getRandomColor`: each `Math.random()` draw is an arbitrary choice among the 16 letters. */
  method RandomColor() returns (color: string)
    ensures IsColor(color)
  {
    color := "#";
    var i := 0;
    while i < 6
      invariant 0 <= i <= 6
      invariant |color| == i + 1 && color[0] == '#'
      invariant forall k :: 1 <= k < |color| ==> color[k] in Letters
    {
      var d :| 0 <= d < 16;
      color := color + [Letters[d]];
      i := i + 1;
    }
  }

  /** What `processSchema` does to one service: a non-empty colour is kept, every route is recoloured. */
  predicate Colored(before: JsService, after: JsService) {
    && after == before.(color := after.color, routes := after.routes)
    && (before.color != "" ==> after.color == before.color)
    && (before.color == "" ==> IsColor(after.color))
    && |after.routes| == |before.routes|
    && forall j :: 0 <= j < |after.routes| ==>
         after.routes[j] == before.routes[j].(color := after.routes[j].color) && IsColor(after.routes[j].color)
  }

  /** `processSchema`, on the snapshot's services array. */
  method ProcessSchema(services: array<JsService>)
    modifies services
    ensures forall i :: 0 <= i < services.Length ==> Colored(old(services[i]), services[i])
  {
    var i := 0;
    while i < services.Length
      invariant 0 <= i <= services.Length
      invariant forall k :: 0 <= k < i ==> Colored(old(services[k]), services[k])
      invariant forall k :: i <= k < services.Length ==> services[k] == old(services[k])
    {
      var after := ColourService(services[i]);
      services[i] := after;
      i := i + 1;
    }
  }

  /** The body of `processSchema`'s outer loop, for one service. */
  method ColourService(service: JsService) returns (after: JsService)
    ensures Colored(service, after)
  {
    var color := service.color;
    if color == "" {
      color := RandomColor();
    }
    var routes := RecolorRoutes(service.routes);
    after := service.(color := color, routes := routes);
  }

  /** The inner loop of `processSchema`: a fresh colour for every route, nothing else changed. */
  method RecolorRoutes(routes: seq<JsRoute>) returns (recolored: seq<JsRoute>)
    ensures |recolored| == |routes|
    ensures forall j :: 0 <= j < |routes| ==>
      recolored[j] == routes[j].(color := recolored[j].color) && IsColor(recolored[j].color)
  {
    recolored := [];
    var j := 0;
    while j < |routes|
      invariant 0 <= j <= |routes| && |recolored| == j
      invariant forall k :: 0 <= k < j ==>
        recolored[k] == routes[k].(color := recolored[k].color) && IsColor(recolored[k].color)
    {
      var color := RandomColor();
      recolored := recolored + [routes[j].(color := color)];
      j := j + 1;
    }
  }

  /** `buildGraphFromSchema`'s `graph` object. */
  class Graph {
    var endpoints: map<string, nat>
    var edgeMap: set<GS.Pair>
    var endpointsKeys: seq<string>
    /** `nodesDataSet`; a node's id is its index. */
    var nodes: seq<GS.Node>
    /** `edgesDataSet`, by `from + "_" + to`. */
    var edges: map<GS.Pair, GS.Edge>

    function State(): GS.Graph
      reads this
    {
      GS.Graph(endpoints, edgeMap, endpointsKeys, nodes, edges)
    }

    ghost predicate Valid()
      reads this
    {
      GS.Valid(State())
    }

    /** The object literal, before `build` creates the datasets. */
    constructor()
      ensures State() == GS.Empty && Valid()
    {
      endpoints := map[];
      edgeMap := {};
      endpointsKeys := [];
      nodes := [];
      edges := map[];
      GS.EmptyValid();
    }

    /** `edgeExists`: whether `edgeMap` marks the pair, which on a valid graph is whether its edge is stored. */
    function EdgeExists(from: nat, to: nat): (b: bool)
      reads this
      ensures Valid() ==> (b <==> (from, to) in edges)
    {
      (from, to) in edgeMap
    }

    /** `addEndpoint`. */
    method AddEndpoint(endpoint: string, serviceColor: string)
      modifies this
      ensures State() == GS.AddEndpoint(old(State()), endpoint, serviceColor)
    {
      if endpoint !in endpoints {
        var e := |nodes|;
        endpoints := endpoints[endpoint := e];
        AddNode(e, endpoint, serviceColor);
      }
      // `updateNode` does nothing
    }

    /** `addNode`: the new node takes the next index, which is the id `addEndpoint` hands it. */
    method AddNode(id: nat, endpoint: string, serviceColor: string)
      requires id == |nodes|
      modifies this
      ensures nodes == old(nodes) + [GS.Node(endpoint, serviceColor, None)]
      ensures endpoints == old(endpoints) && edgeMap == old(edgeMap) && edges == old(edges)
      ensures endpointsKeys == old(endpointsKeys)
    {
      nodes := nodes + [GS.Node(endpoint, serviceColor, None)];
    }

    /** `addEdge`. */
    method AddEdge(route: JsRoute, from: nat, to: nat, serviceColor: string)
      modifies this
      ensures State() == GS.AddEdge(old(State()), route, from, to, serviceColor)
    {
      edges := edges[(from, to) := GS.MakeEdge(route, from, to, serviceColor)];
      edgeMap := edgeMap + {(from, to)};
    }

    /** `updateEdge`: unstrike the destination, then rewrite and strike it if `isNeedUpdate`. */
    method UpdateEdge(route: JsRoute, from: nat, to: nat, serviceColor: string)
      modifies this
      ensures State() == GS.UpdateEdge(old(State()), route, from, to, serviceColor)
    {
      if (from, to) in edges {
        var existed := edges[(from, to)];
        nodes := GS.SetStrike(nodes, to, false);
        if GS.IsNeedUpdate(existed, route) {
          edges := edges[(from, to) := GS.MakeEdge(route, from, to, serviceColor)];
          nodes := GS.SetStrike(nodes, to, true);
        }
      }
    }

    /** The nodes loop over one route's inputs. */
    method AddInputs(inputs: seq<string>, serviceColor: string)
      modifies this
      ensures State() == GS.AddEndpoints(old(State()), GS.InputSteps(inputs, serviceColor))
    {
      var n := 0;
      while n < |inputs|
        invariant n <= |inputs|
        invariant State() == GS.AddEndpoints(old(State()), GS.InputSteps(inputs[..n], serviceColor))
      {
        GS.InputStepsPrefix(inputs, serviceColor, n);
        GS.AddEndpointsSnoc(old(State()), GS.InputSteps(inputs[..n], serviceColor), GS.Step(inputs[n], serviceColor));
        AddEndpoint(inputs[n], serviceColor);
        n := n + 1;
      }
      assert inputs[..n] == inputs;
    }

    /** The nodes loop over one route's outputs: placeholders are skipped. */
    method AddOutputs(outputs: seq<string>, serviceColor: string)
      modifies this
      ensures State() == GS.AddEndpoints(old(State()), GS.OutputSteps(outputs, serviceColor))
    {
      var n := 0;
      while n < |outputs|
        invariant n <= |outputs|
        invariant State() == GS.AddEndpoints(old(State()), GS.OutputSteps(outputs[..n], serviceColor))
      {
        GS.OutputStepsPrefix(outputs, serviceColor, n);
        if !GS.Placeholder(outputs[n]) {
          GS.AddEndpointsSnoc(old(State()), GS.OutputSteps(outputs[..n], serviceColor), GS.Step(outputs[n], serviceColor));
          AddEndpoint(outputs[n], serviceColor);
        }
        n := n + 1;
      }
      assert outputs[..n] == outputs;
    }

    /** The nodes loops over one route: its inputs, then its outputs, when the route lists them. */
    method AddRouteEndpoints(route: JsRoute, serviceColor: string)
      modifies this
      ensures State() == GS.AddEndpoints(old(State()), GS.RouteSteps(route, serviceColor))
    {
      if route.endpoints.Some? && route.endpoints.value.inputs.Some? {
        AddInputs(route.endpoints.value.inputs.value, serviceColor);
      }
      ghost var middle := State();
      if route.endpoints.Some? && route.endpoints.value.outputs.Some? {
        AddOutputs(route.endpoints.value.outputs.value, serviceColor);
      }
      GS.AddEndpointsConcat(old(State()), GS.InputSteps(InputsOf(route), serviceColor), GS.OutputSteps(OutputsOf(route), serviceColor));
    }

    /** The nodes loops over a service's routes. */
    method AddRoutesEndpoints(routes: seq<JsRoute>, serviceColor: string)
      modifies this
      ensures State() == GS.AddEndpoints(old(State()), GS.RoutesSteps(routes, serviceColor))
    {
      var j := 0;
      while j < |routes|
        invariant j <= |routes|
        invariant State() == GS.AddEndpoints(old(State()), GS.RoutesSteps(routes[..j], serviceColor))
      {
        AddRouteEndpoints(routes[j], serviceColor);
        GS.RoutesStepsPrefix(routes, serviceColor, j);
        GS.AddEndpointsConcat(old(State()), GS.RoutesSteps(routes[..j], serviceColor), GS.RouteSteps(routes[j], serviceColor));
        j := j + 1;
      }
      assert routes[..j] == routes;
    }

    /** The nodes phase of `build`. */
    method AddAllEndpoints(services: seq<JsService>)
      modifies this
      ensures State() == GS.AddEndpoints(old(State()), GS.NodeSteps(services))
    {
      var i := 0;
      while i < |services|
        invariant i <= |services|
        invariant State() == GS.AddEndpoints(old(State()), GS.NodeSteps(services[..i]))
      {
        var service := services[i];
        AddRoutesEndpoints(service.routes, service.color);
        assert services[..i + 1][..i] == services[..i];
        GS.AddEndpointsConcat(old(State()), GS.NodeSteps(services[..i]), GS.RoutesSteps(service.routes, service.color));
        i := i + 1;
      }
      assert services[..i] == services;
    }

    /** One pass of the innermost edges loop, as `build` or as `updateGraph` writes it. */
    method LinkOne(route: JsRoute, serviceColor: string, input: string, output: string, mode: GS.Mode)
      modifies this
      ensures State() == GS.LinkStep(old(State()), GS.Link(route, serviceColor, input, output), mode)
    {
      if input in endpoints && output in endpoints {
        var from := endpoints[input];
        var to := endpoints[output];
        if mode.Building? {
          if !EdgeExists(from, to) {
            AddEdge(route, from, to, serviceColor);
          }
        } else if EdgeExists(from, to) {
          UpdateEdge(route, from, to, serviceColor);
        } else {
          AddEdge(route, from, to, serviceColor);
        }
      }
    }

    /** The loop over a route's outputs for one input. */
    method LinkOutputs(route: JsRoute, serviceColor: string, input: string, outputs: seq<string>, mode: GS.Mode)
      modifies this
      ensures State() == GS.LinkAll(old(State()), GS.OutputLinks(route, serviceColor, input, outputs), mode)
    {
      var m := 0;
      while m < |outputs|
        invariant m <= |outputs|
        invariant State() == GS.LinkAll(old(State()), GS.OutputLinks(route, serviceColor, input, outputs[..m]), mode)
      {
        assert outputs[..m + 1][..m] == outputs[..m];
        GS.LinkAllSnoc(old(State()), GS.OutputLinks(route, serviceColor, input, outputs[..m]), GS.Link(route, serviceColor, input, outputs[m]), mode);
        LinkOne(route, serviceColor, input, outputs[m], mode);
        m := m + 1;
      }
      assert outputs[..m] == outputs;
    }

    /** The edges loops over one route: each input against each output. */
    method LinkRoute(route: JsRoute, serviceColor: string, mode: GS.Mode)
      modifies this
      ensures State() == GS.LinkAll(old(State()), GS.RouteLinks(route, serviceColor), mode)
    {
      var inputs := InputsOf(route);
      var n := 0;
      while n < |inputs|
        invariant n <= |inputs|
        invariant State() == GS.LinkAll(old(State()), GS.InputLinks(route, serviceColor, inputs[..n]), mode)
      {
        ghost var before := State();
        if route.endpoints.value.outputs.Some? {
          LinkOutputs(route, serviceColor, inputs[n], route.endpoints.value.outputs.value, mode);
        }
        assert inputs[..n + 1][..n] == inputs[..n];
        GS.LinkAllConcat(old(State()), GS.InputLinks(route, serviceColor, inputs[..n]),
                         GS.OutputLinks(route, serviceColor, inputs[n], OutputsOf(route)), mode);
        n := n + 1;
      }
      assert inputs[..n] == inputs;
    }

    /** The edges loops over a service's routes. */
    method LinkRoutes(routes: seq<JsRoute>, serviceColor: string, mode: GS.Mode)
      modifies this
      ensures State() == GS.LinkAll(old(State()), GS.RoutesLinks(routes, serviceColor), mode)
    {
      var j := 0;
      while j < |routes|
        invariant j <= |routes|
        invariant State() == GS.LinkAll(old(State()), GS.RoutesLinks(routes[..j], serviceColor), mode)
      {
        LinkRoute(routes[j], serviceColor, mode);
        assert routes[..j + 1][..j] == routes[..j];
        GS.LinkAllConcat(old(State()), GS.RoutesLinks(routes[..j], serviceColor), GS.RouteLinks(routes[j], serviceColor), mode);
        j := j + 1;
      }
      assert routes[..j] == routes;
    }

    /** The edges phase. */
    method LinkAll(services: seq<JsService>, mode: GS.Mode)
      modifies this
      ensures State() == GS.LinkAll(old(State()), GS.Links(services), mode)
    {
      var i := 0;
      while i < |services|
        invariant i <= |services|
        invariant State() == GS.LinkAll(old(State()), GS.Links(services[..i]), mode)
      {
        var service := services[i];
        LinkRoutes(service.routes, service.color, mode);
        assert services[..i + 1][..i] == services[..i];
        GS.LinkAllConcat(old(State()), GS.Links(services[..i]), GS.RoutesLinks(service.routes, service.color), mode);
        i := i + 1;
      }
      assert services[..i] == services;
    }

    /**
     * `build` on the fresh object: fresh datasets, the nodes phase, the
     * edges phase, then every endpoint key once, in no particular order.
     */
    method Build(services: seq<JsService>)
      requires endpoints == map[] && edgeMap == {} && endpointsKeys == []
      modifies this
      ensures var built := GS.BuildGraph(services);
        endpoints == built.endpoints && edgeMap == built.edgeMap && nodes == built.nodes && edges == built.edges
      ensures forall k :: k in endpointsKeys <==> k in endpoints
      ensures forall a, b :: 0 <= a < b < |endpointsKeys| ==> endpointsKeys[a] != endpointsKeys[b]
      ensures Valid()
    {
      nodes := [];
      edges := map[];
      assert State() == GS.Empty;
      AddAllEndpoints(services);
      LinkAll(services, GS.Building);
      GS.BuildGraphValid(services);
      PushKeys();
    }

    /** `for (var key in this.endpoints) this.endpointsKeys.push(key)`, in an unspecified order. */
    method PushKeys()
      requires endpointsKeys == []
      modifies this
      ensures endpoints == old(endpoints) && edgeMap == old(edgeMap) && nodes == old(nodes) && edges == old(edges)
      ensures forall k :: k in endpointsKeys <==> k in endpoints
      ensures forall a, b :: 0 <= a < b < |endpointsKeys| ==> endpointsKeys[a] != endpointsKeys[b]
      ensures GS.Valid(old(State())) ==> Valid()
    {
      var remaining := endpoints.Keys;
      while remaining != {}
        invariant endpoints == old(endpoints) && edgeMap == old(edgeMap) && nodes == old(nodes) && edges == old(edges)
        invariant remaining <= endpoints.Keys
        invariant forall k :: k in endpointsKeys <==> k in endpoints && k !in remaining
        invariant forall a, b :: 0 <= a < b < |endpointsKeys| ==> endpointsKeys[a] != endpointsKeys[b]
        decreases |remaining|
      {
        var key :| key in remaining;
        endpointsKeys := endpointsKeys + [key];
        remaining := remaining - {key};
      }
    }
  }

  /** `buildGraphFromSchema`: a new graph object, built from the snapshot. */
  method BuildGraphFromSchema(services: seq<JsService>) returns (graph: Graph)
    ensures fresh(graph)
    ensures var built := GS.BuildGraph(services);
      graph.endpoints == built.endpoints && graph.edgeMap == built.edgeMap
      && graph.nodes == built.nodes && graph.edges == built.edges
    ensures forall k :: k in graph.endpointsKeys <==> k in graph.endpoints
    ensures forall a, b :: 0 <= a < b < |graph.endpointsKeys| ==> graph.endpointsKeys[a] != graph.endpointsKeys[b]
    ensures graph.Valid()
  {
    graph := new Graph();
    graph.Build(services);
  }

  /** `updateGraph`: the nodes phase, then the edges phase that revisits stored edges. */
  method UpdateGraph(graph: Graph, services: seq<JsService>)
    modifies graph
    ensures graph.State() == GS.UpdateGraph(old(graph.State()), services)
    ensures old(graph.Valid()) ==> graph.Valid()
  {
    ghost var start := graph.State();
    graph.AddAllEndpoints(services);
    graph.LinkAll(services, GS.Patching);
    if GS.Valid(start) {
      GS.UpdateGraphValid(start, services);
    }
  }
}
