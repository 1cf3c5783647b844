/**
 * The endpoint/route graph of public/js/services/utils.js as a value: the
 * graph object's tables, the two vis.js datasets as maps from id to record,
 * and each graph operation as a function on that value.
 */
module GraphSpec {
  import opened Wrappers
  import opened Text
  import opened JsData

  /**
   * A node of `nodesDataSet`; `endpoint` is its `label`, and `strike` is
   * absent until an edge into it is revisited. A node's id is its index:
   * ids are handed out as the dataset's length and nodes are never removed.
   */
  datatype Node = Node(endpoint: string, color: string, strike: Option<bool>)

  /** What `getRouteRepresentation` returns. */
  datatype Representation = Representation(color: string, dashes: bool, weight: int)

  /**
   * An edge of `edgesDataSet` (its tooltip `title` is left out). `shown` is
   * its `label`: the total as text, `null` when the total is missing or 0.
   */
  datatype Edge = Edge(from: nat, to: nat, route: JsRoute, color: string, value: int, dashes: bool, shown: Option<int>)

  /** The ids of an edge; `from + "_" + to` names the same pair of numbers. */
  type Pair = (nat, nat)

  /** The graph object: `endpoints`, `edgeMap`, `endpointsKeys`, and the two datasets. */
  datatype Graph = Graph(
    endpoints: map<string, nat>,
    edgeMap: set<Pair>,
    endpointsKeys: seq<string>,
    nodes: seq<Node>,
    edges: map<Pair, Edge>)

  const NoneColor: string := "#b2b2b2"
  const StoppedColor: string := "#ff251e"

  /**
   * Every endpoint names a node labelled with it, and there are as many
   * endpoints as nodes, so the two correspond one to one; `edgeMap` holds
   * exactly the ids of the stored edges, which join known nodes.
   */
  ghost predicate Valid(g: Graph) {
    && (forall e :: e in g.endpoints ==> g.endpoints[e] < |g.nodes| && g.nodes[g.endpoints[e]].endpoint == e)
    && |g.endpoints| == |g.nodes|
    && g.edgeMap == g.edges.Keys
    && (forall p :: p in g.edges ==> p.0 < |g.nodes| && p.1 < |g.nodes| && g.edges[p].from == p.0 && g.edges[p].to == p.1)
  }

  /** A graph before `build`: nothing known, empty datasets. */
  const Empty := Graph(map[], {}, [], [], map[])

  lemma EmptyValid()
    ensures Valid(Empty)
  {
  }

  // ---------------------------------------------------------------------------
  // Routes and edges

  /** `getRouteRepresentation`: grey and dashed for `None`, red and dashed for any other non-started state. */
  function RouteRepresentation(route: JsRoute, serviceColor: string): (rep: Representation)
    ensures rep.weight == 1
    ensures rep.dashes <==> route.state != "Started"
    ensures route.state == "None" ==> rep.color == NoneColor
    ensures route.state != "None" && route.state != "Started" ==> rep.color == StoppedColor
    ensures route.state == "Started" ==> rep.color == serviceColor
  {
    if route.state == "None" then Representation(NoneColor, true, 1)
    else if route.state != "Started" then Representation(StoppedColor, true, 1)
    else Representation(serviceColor, false, 1)
  }

  /** The statistics `isNeedUpdate` compares. */
  function Stats(r: JsRoute): StatsOf {
    (r.exchangesTotal, r.state, r.uptime)
  }

  /**
   * `isNeedUpdate`: never when either total is missing; otherwise exactly
   * when total, state or uptime changed.
   */
  function IsNeedUpdate(edge: Edge, route: JsRoute): (b: bool)
    ensures b <==> route.exchangesTotal.Some? && edge.route.exchangesTotal.Some? && Stats(route) != Stats(edge.route)
  {
    if route.exchangesTotal.None? || edge.route.exchangesTotal.None? then false
    else (route.exchangesTotal != edge.route.exchangesTotal || route.state != edge.route.state
          || route.uptime != edge.route.uptime)
  }

  /** The edge record `addEdge` and `updateEdge` write for a route between two nodes. */
  function MakeEdge(route: JsRoute, from: nat, to: nat, serviceColor: string): Edge {
    var rep := RouteRepresentation(route, serviceColor);
    var shown := if route.exchangesTotal.Some? && route.exchangesTotal.value != 0 then route.exchangesTotal else None;
    Edge(from, to, route, rep.color, rep.weight, rep.dashes, shown)
  }

  // ---------------------------------------------------------------------------
  // The graph operations

  /** `addEndpoint`: an unseen endpoint gets the next id and a node in its service's colour. */
  function AddEndpoint(g: Graph, endpoint: string, serviceColor: string): (r: Graph)
    ensures endpoint in g.endpoints ==> r == g
    ensures r.endpoints.Keys == g.endpoints.Keys + {endpoint}
    ensures forall e :: e in g.endpoints ==> r.endpoints[e] == g.endpoints[e]
    ensures endpoint !in g.endpoints ==>
      r.endpoints[endpoint] == |g.nodes| && r.nodes == g.nodes + [Node(endpoint, serviceColor, None)]
    ensures r.edges == g.edges && r.edgeMap == g.edgeMap && r.endpointsKeys == g.endpointsKeys
  {
    if endpoint in g.endpoints then g
    else g.(endpoints := g.endpoints[endpoint := |g.nodes|], nodes := g.nodes + [Node(endpoint, serviceColor, None)])
  }

  /** `addEndpoint` keeps the graph valid: the next id is the one past the last node. */
  lemma AddEndpointValid(g: Graph, endpoint: string, serviceColor: string)
    requires Valid(g)
    ensures Valid(AddEndpoint(g, endpoint, serviceColor))
  {
    if endpoint !in g.endpoints {
      var r := AddEndpoint(g, endpoint, serviceColor);
      assert |r.endpoints| == |g.endpoints| + 1;
      forall e | e in r.endpoints
        ensures r.endpoints[e] < |r.nodes| && r.nodes[r.endpoints[e]].endpoint == e
      {
        if e != endpoint {
          assert r.nodes[g.endpoints[e]] == g.nodes[g.endpoints[e]];
        }
      }
    }
  }

  /** `addEdge`: stores the route's edge under the pair and marks the pair in `edgeMap`. */
  function AddEdge(g: Graph, route: JsRoute, from: nat, to: nat, serviceColor: string): (r: Graph)
    ensures r.edges == g.edges[(from, to) := MakeEdge(route, from, to, serviceColor)]
    ensures r.edgeMap == g.edgeMap + {(from, to)}
    ensures r.endpoints == g.endpoints && r.nodes == g.nodes && r.endpointsKeys == g.endpointsKeys
  {
    g.(edges := g.edges[(from, to) := MakeEdge(route, from, to, serviceColor)], edgeMap := g.edgeMap + {(from, to)})
  }

  /** An edge between two known nodes keeps the graph valid. */
  lemma AddEdgeValid(g: Graph, route: JsRoute, from: nat, to: nat, serviceColor: string)
    requires Valid(g) && from < |g.nodes| && to < |g.nodes|
    ensures Valid(AddEdge(g, route, from, to, serviceColor))
  {
  }

  /** The node under `id` with its `strike` flag set (`nodesDataSet.update({id, strike})`). */
  function SetStrike(nodes: seq<Node>, id: nat, strike: bool): seq<Node> {
    if id < |nodes| then nodes[id := nodes[id].(strike := Some(strike))] else nodes
  }

  /**
   * `updateEdge`: for a stored edge, the destination loses its strike; the
   * edge is rewritten, and the destination struck, only if `isNeedUpdate`.
   */
  function UpdateEdge(g: Graph, route: JsRoute, from: nat, to: nat, serviceColor: string): (r: Graph)
    ensures r.endpoints == g.endpoints && r.edgeMap == g.edgeMap && r.endpointsKeys == g.endpointsKeys
    ensures |r.nodes| == |g.nodes|
    ensures (from, to) !in g.edges ==> r == g
    ensures (from, to) in g.edges ==>
      var need := IsNeedUpdate(g.edges[(from, to)], route);
      r.nodes == SetStrike(g.nodes, to, need)
      && r.edges == if need then g.edges[(from, to) := MakeEdge(route, from, to, serviceColor)] else g.edges
  {
    if (from, to) !in g.edges then g
    else
      // `strike: false`, then `strike: true` when the edge is rewritten
      var need := IsNeedUpdate(g.edges[(from, to)], route);
      var marked := g.(nodes := SetStrike(g.nodes, to, need));
      if need then marked.(edges := g.edges[(from, to) := MakeEdge(route, from, to, serviceColor)]) else marked
  }

  /** Setting a node's strike flag keeps the graph valid. */
  lemma SetStrikeValid(g: Graph, id: nat, strike: bool)
    requires Valid(g)
    ensures Valid(g.(nodes := SetStrike(g.nodes, id, strike)))
  {
    var nodes := SetStrike(g.nodes, id, strike);
    assert forall k :: 0 <= k < |nodes| ==> nodes[k].endpoint == g.nodes[k].endpoint;
  }

  /** `updateEdge` keeps the graph valid. */
  lemma UpdateEdgeValid(g: Graph, route: JsRoute, from: nat, to: nat, serviceColor: string)
    requires Valid(g)
    ensures Valid(UpdateEdge(g, route, from, to, serviceColor))
  {
    if (from, to) in g.edges {
      SetStrikeValid(g, to, IsNeedUpdate(g.edges[(from, to)], route));
    }
  }

  /** Applying `updateEdge` twice with the same route changes no edge the first did not. */
  lemma UpdateEdgeTwice(g: Graph, route: JsRoute, from: nat, to: nat, serviceColor: string)
    ensures var once := UpdateEdge(g, route, from, to, serviceColor);
      UpdateEdge(once, route, from, to, serviceColor).edges == once.edges
  {
  }

  /**
   * An edge whose stored route has no total is frozen: no later
   * `updateEdge` rewrites it, whatever the route says.
   */
  lemma UpdateEdgeFrozen(g: Graph, route: JsRoute, from: nat, to: nat, serviceColor: string)
    requires (from, to) in g.edges && g.edges[(from, to)].route.exchangesTotal.None?
    ensures UpdateEdge(g, route, from, to, serviceColor).edges == g.edges
  {
  }

  // ---------------------------------------------------------------------------
  // What one snapshot asks of the graph

  /** An endpoint such as `jms:{{queue}}` whose configuration was never filled in: it holds `{{`. */
  predicate Placeholder(endpoint: string) {
    exists i :: 0 <= i < |endpoint| - 1 && endpoint[i] == '{' && endpoint[i + 1] == '{'
  }

  /** `Placeholder` is the source's test `endpoint.indexOf("{{") !== -1`. */
  lemma {:induction false} PlaceholderContains(endpoint: string)
    ensures Placeholder(endpoint) <==> Contains(endpoint, "{{")
    decreases |endpoint|
  {
    if |endpoint| > 0 {
      var rest := endpoint[1..];
      PlaceholderContains(rest);
      if Placeholder(endpoint) && !HasPrefix(endpoint, "{{") {
        var i :| 0 <= i < |endpoint| - 1 && endpoint[i] == '{' && endpoint[i + 1] == '{';
        assert i > 0;
        assert rest[i - 1] == '{' && rest[i] == '{';
      }
      if Placeholder(rest) {
        var i :| 0 <= i < |rest| - 1 && rest[i] == '{' && rest[i + 1] == '{';
        assert endpoint[i + 1] == '{' && endpoint[i + 2] == '{';
      }
      if HasPrefix(endpoint, "{{") {
        assert endpoint[0] == '{' && endpoint[1] == '{';
      }
    }
  }

  /** One `addEndpoint` call of the nodes phase: an endpoint and its service's colour. */
  datatype Step = Step(endpoint: string, color: string)

  /** The endpoints a sequence of steps mentions. */
  function StepEndpoints(steps: seq<Step>): set<string>
    decreases |steps|
  {
    if steps == [] then {} else StepEndpoints(steps[..|steps| - 1]) + {steps[|steps| - 1].endpoint}
  }

  lemma {:induction false} StepEndpointsMembers(steps: seq<Step>, e: string)
    ensures e in StepEndpoints(steps) <==> exists k :: 0 <= k < |steps| && steps[k].endpoint == e
    decreases |steps|
  {
    if steps != [] {
      var n := |steps| - 1;
      StepEndpointsMembers(steps[..n], e);
      if e in StepEndpoints(steps[..n]) {
        var k :| 0 <= k < n && steps[..n][k].endpoint == e;
        assert steps[k].endpoint == e;
      } else if exists k :: 0 <= k < |steps| && steps[k].endpoint == e {
        var k :| 0 <= k < |steps| && steps[k].endpoint == e;
        if k < n {
          assert steps[..n][k].endpoint == e;
        }
      }
    }
  }

  lemma {:induction false} StepEndpointsConcat(a: seq<Step>, b: seq<Step>)
    ensures StepEndpoints(a + b) == StepEndpoints(a) + StepEndpoints(b)
    decreases |b|
  {
    if b != [] {
      assert (a + b)[..|a + b| - 1] == a + b[..|b| - 1];
      StepEndpointsConcat(a, b[..|b| - 1]);
    } else {
      assert a + b == a;
    }
  }

  function InputSteps(inputs: seq<string>, color: string): (steps: seq<Step>)
    ensures forall e :: e in StepEndpoints(steps) <==> e in inputs
    decreases |inputs|
  {
    if inputs == [] then []
    else
      var n := |inputs| - 1;
      var prev := InputSteps(inputs[..n], color);
      assert inputs == inputs[..n] + [inputs[n]];
      assert (prev + [Step(inputs[n], color)])[..|prev|] == prev;
      prev + [Step(inputs[n], color)]
  }

  /** The outputs loop of the nodes phase skips placeholders. */
  function OutputSteps(outputs: seq<string>, color: string): (steps: seq<Step>)
    ensures forall e :: e in StepEndpoints(steps) <==> e in outputs && !Placeholder(e)
    decreases |outputs|
  {
    if outputs == [] then []
    else
      var n := |outputs| - 1;
      var prev := OutputSteps(outputs[..n], color);
      assert outputs == outputs[..n] + [outputs[n]];
      assert (prev + [Step(outputs[n], color)])[..|prev|] == prev;
      if Placeholder(outputs[n]) then prev else prev + [Step(outputs[n], color)]
  }

  /** One route's steps: every input, then every output that is not a placeholder. */
  function RouteSteps(r: JsRoute, color: string): seq<Step> {
    InputSteps(InputsOf(r), color) + OutputSteps(OutputsOf(r), color)
  }

  function RoutesSteps(routes: seq<JsRoute>, color: string): seq<Step>
    decreases |routes|
  {
    if routes == [] then [] else RoutesSteps(routes[..|routes| - 1], color) + RouteSteps(routes[|routes| - 1], color)
  }

  lemma InputStepsPrefix(inputs: seq<string>, color: string, n: nat)
    requires n < |inputs|
    ensures InputSteps(inputs[..n + 1], color) == InputSteps(inputs[..n], color) + [Step(inputs[n], color)]
  {
    assert inputs[..n + 1][..n] == inputs[..n];
  }

  lemma OutputStepsPrefix(outputs: seq<string>, color: string, n: nat)
    requires n < |outputs|
    ensures OutputSteps(outputs[..n + 1], color)
      == if Placeholder(outputs[n]) then OutputSteps(outputs[..n], color)
         else OutputSteps(outputs[..n], color) + [Step(outputs[n], color)]
  {
    assert outputs[..n + 1][..n] == outputs[..n];
  }

  lemma RoutesStepsPrefix(routes: seq<JsRoute>, color: string, j: nat)
    requires j < |routes|
    ensures RoutesSteps(routes[..j + 1], color) == RoutesSteps(routes[..j], color) + RouteSteps(routes[j], color)
  {
    assert routes[..j + 1][..j] == routes[..j];
  }

  /** Every `addEndpoint` call of the nodes phase, in order. */
  function NodeSteps(services: seq<JsService>): seq<Step>
    decreases |services|
  {
    if services == [] then []
    else
      var s := services[|services| - 1];
      NodeSteps(services[..|services| - 1]) + RoutesSteps(s.routes, s.color)
  }

  /** The route mentions the endpoint as an input, or as an output that is not a placeholder. */
  predicate Feeds(r: JsRoute, e: string) {
    e in InputsOf(r) || (e in OutputsOf(r) && !Placeholder(e))
  }

  /** One edge candidate of the edges phase: a route joining one of its inputs to one of its outputs. */
  datatype Link = Link(route: JsRoute, color: string, input: string, output: string)

  function OutputLinks(r: JsRoute, color: string, input: string, outputs: seq<string>): seq<Link>
    decreases |outputs|
  {
    if outputs == [] then []
    else OutputLinks(r, color, input, outputs[..|outputs| - 1]) + [Link(r, color, input, outputs[|outputs| - 1])]
  }

  function InputLinks(r: JsRoute, color: string, inputs: seq<string>): seq<Link>
    decreases |inputs|
  {
    if inputs == [] then []
    else InputLinks(r, color, inputs[..|inputs| - 1]) + OutputLinks(r, color, inputs[|inputs| - 1], OutputsOf(r))
  }

  function RouteLinks(r: JsRoute, color: string): seq<Link> {
    InputLinks(r, color, InputsOf(r))
  }

  function RoutesLinks(routes: seq<JsRoute>, color: string): seq<Link>
    decreases |routes|
  {
    if routes == [] then [] else RoutesLinks(routes[..|routes| - 1], color) + RouteLinks(routes[|routes| - 1], color)
  }

  /** Every edge candidate of the edges phase, in order. */
  function Links(services: seq<JsService>): seq<Link>
    decreases |services|
  {
    if services == [] then []
    else
      var s := services[|services| - 1];
      Links(services[..|services| - 1]) + RoutesLinks(s.routes, s.color)
  }

  // ---------------------------------------------------------------------------
  // The two phases

  /** The nodes phase: `addEndpoint` for each step in turn. */
  function AddEndpoints(g: Graph, steps: seq<Step>): (r: Graph)
    ensures r.endpoints.Keys == g.endpoints.Keys + StepEndpoints(steps)
    ensures forall e :: e in g.endpoints ==> r.endpoints[e] == g.endpoints[e]
    ensures g.nodes <= r.nodes && forall id :: |g.nodes| <= id < |r.nodes| ==> r.nodes[id].strike.None?
    ensures r.edges == g.edges && r.edgeMap == g.edgeMap && r.endpointsKeys == g.endpointsKeys
    decreases |steps|
  {
    if steps == [] then g
    else
      var n := |steps| - 1;
      AddEndpoint(AddEndpoints(g, steps[..n]), steps[n].endpoint, steps[n].color)
  }

  /** The nodes phase keeps the graph valid. */
  lemma {:induction false} AddEndpointsValid(g: Graph, steps: seq<Step>)
    requires Valid(g)
    ensures Valid(AddEndpoints(g, steps))
    decreases |steps|
  {
    if steps != [] {
      var n := |steps| - 1;
      AddEndpointsValid(g, steps[..n]);
      AddEndpointValid(AddEndpoints(g, steps[..n]), steps[n].endpoint, steps[n].color);
    }
  }

  /** The nodes phase creates one node per endpoint it had not seen before. */
  lemma {:induction false} AddEndpointsCount(g: Graph, steps: seq<Step>)
    ensures |AddEndpoints(g, steps).nodes| == |g.nodes| + |StepEndpoints(steps) - g.endpoints.Keys|
    decreases |steps|
  {
    if steps != [] {
      var n := |steps| - 1;
      AddEndpointsCount(g, steps[..n]);
      FreshCount(StepEndpoints(steps[..n]), g.endpoints.Keys, steps[n].endpoint);
    }
  }

  lemma FreshCount(seen: set<string>, known: set<string>, e: string)
    ensures |(seen + {e}) - known| == |seen - known| + if e in seen + known then 0 else 1
  {
    if e !in seen + known {
      assert (seen + {e}) - known == (seen - known) + {e};
    } else {
      assert (seen + {e}) - known == seen - known;
    }
  }

  lemma {:induction false} AddEndpointsConcat(g: Graph, a: seq<Step>, b: seq<Step>)
    ensures AddEndpoints(g, a + b) == AddEndpoints(AddEndpoints(g, a), b)
    decreases |b|
  {
    if b == [] {
      assert a + b == a;
    } else {
      assert (a + b)[..|a + b| - 1] == a + b[..|b| - 1];
      AddEndpointsConcat(g, a, b[..|b| - 1]);
    }
  }

  lemma AddEndpointsSnoc(g: Graph, steps: seq<Step>, s: Step)
    ensures AddEndpoints(g, steps + [s]) == AddEndpoint(AddEndpoints(g, steps), s.endpoint, s.color)
  {
    assert (steps + [s])[..|steps|] == steps;
  }

  /** The edge id a link stands for, when both its endpoints have nodes. */
  function Resolve(g: Graph, link: Link): Option<Pair> {
    if link.input in g.endpoints && link.output in g.endpoints
    then Some((g.endpoints[link.input], g.endpoints[link.output]))
    else None
  }

  /** The edge ids some link stands for. */
  function Resolved(g: Graph, links: seq<Link>): (ps: set<Pair>)
    ensures forall p :: p in ps <==> exists k :: 0 <= k < |links| && Resolve(g, links[k]) == Some(p)
    decreases |links|
  {
    if links == [] then {}
    else
      var n := |links| - 1;
      assert forall k :: 0 <= k < n ==> links[..n][k] == links[k];
      var prev := Resolved(g, links[..n]);
      match Resolve(g, links[n])
      case None => prev
      case Some(p) => prev + {p}
  }

  /** `build` adds only new pairs; `updateGraph` also revisits stored ones. */
  datatype Mode = Building | Patching

  /** One pass of the innermost edges loop. */
  function LinkStep(g: Graph, link: Link, mode: Mode): (r: Graph)
    ensures r.endpoints == g.endpoints && r.endpointsKeys == g.endpointsKeys && |r.nodes| == |g.nodes|
    ensures forall id :: 0 <= id < |g.nodes| ==> r.nodes[id] == g.nodes[id].(strike := r.nodes[id].strike)
    ensures mode.Building? ==> r.nodes == g.nodes
    ensures g.edgeMap == g.edges.Keys ==>
      && r.edgeMap == r.edges.Keys
      && r.edges.Keys == g.edges.Keys + (if Resolve(g, link).Some? then {Resolve(g, link).value} else {})
  {
    match Resolve(g, link)
    case None => g
    case Some(p) =>
      if p in g.edgeMap then
        if mode.Building? then g else UpdateEdge(g, link.route, p.0, p.1, link.color)
      else AddEdge(g, link.route, p.0, p.1, link.color)
  }

  /** The edges phase: every link in turn. */
  function LinkAll(g: Graph, links: seq<Link>, mode: Mode): (r: Graph)
    ensures r.endpoints == g.endpoints && r.endpointsKeys == g.endpointsKeys && |r.nodes| == |g.nodes|
    ensures forall id :: 0 <= id < |g.nodes| ==> r.nodes[id] == g.nodes[id].(strike := r.nodes[id].strike)
    ensures mode.Building? ==> r.nodes == g.nodes
    ensures g.edgeMap == g.edges.Keys ==> r.edgeMap == r.edges.Keys && r.edges.Keys == g.edges.Keys + Resolved(g, links)
    decreases |links|
  {
    if links == [] then g
    else
      var n := |links| - 1;
      var prev := LinkAll(g, links[..n], mode);
      assert Resolve(prev, links[n]) == Resolve(g, links[n]);
      LinkStep(prev, links[n], mode)
  }

  lemma {:induction false} LinkAllConcat(g: Graph, a: seq<Link>, b: seq<Link>, mode: Mode)
    ensures LinkAll(g, a + b, mode) == LinkAll(LinkAll(g, a, mode), b, mode)
    decreases |b|
  {
    if b == [] {
      assert a + b == a;
    } else {
      assert (a + b)[..|a + b| - 1] == a + b[..|b| - 1];
      LinkAllConcat(g, a, b[..|b| - 1], mode);
    }
  }

  lemma LinkAllSnoc(g: Graph, links: seq<Link>, l: Link, mode: Mode)
    ensures LinkAll(g, links + [l], mode) == LinkStep(LinkAll(g, links, mode), l, mode)
  {
    assert (links + [l])[..|links|] == links;
  }

  /** `buildGraphFromSchema` before `endpointsKeys` is filled. */
  function BuildGraph(services: seq<JsService>): Graph {
    var withNodes := AddEndpoints(Empty, NodeSteps(services));
    LinkAll(withNodes, Links(services), Building)
  }

  /** `updateGraph`. */
  function UpdateGraph(g: Graph, services: seq<JsService>): Graph {
    LinkAll(AddEndpoints(g, NodeSteps(services)), Links(services), Patching)
  }

  // ---------------------------------------------------------------------------
  // The nodes phase

  /** The endpoints the nodes phase takes from one route. */
  function FedBy(r: JsRoute): (es: set<string>)
    ensures forall e :: e in es <==> Feeds(r, e)
  {
    set e | e in InputsOf(r) + OutputsOf(r) && Feeds(r, e)
  }

  /** The endpoints the nodes phase takes from a list of routes. */
  function RoutesFed(routes: seq<JsRoute>): set<string>
    decreases |routes|
  {
    if routes == [] then {} else RoutesFed(routes[..|routes| - 1]) + FedBy(routes[|routes| - 1])
  }

  /** The endpoints the nodes phase takes from a snapshot. */
  function ServicesFed(services: seq<JsService>): set<string>
    decreases |services|
  {
    if services == [] then {} else ServicesFed(services[..|services| - 1]) + RoutesFed(services[|services| - 1].routes)
  }

  lemma RouteStepsFed(r: JsRoute, color: string)
    ensures StepEndpoints(RouteSteps(r, color)) == FedBy(r)
  {
    StepEndpointsConcat(InputSteps(InputsOf(r), color), OutputSteps(OutputsOf(r), color));
  }

  lemma {:induction false} RoutesStepsFed(routes: seq<JsRoute>, color: string)
    ensures StepEndpoints(RoutesSteps(routes, color)) == RoutesFed(routes)
    decreases |routes|
  {
    if routes != [] {
      var n := |routes| - 1;
      RoutesStepsFed(routes[..n], color);
      RouteStepsFed(routes[n], color);
      StepEndpointsConcat(RoutesSteps(routes[..n], color), RouteSteps(routes[n], color));
    }
  }

  lemma {:induction false} NodeStepsFed(services: seq<JsService>)
    ensures StepEndpoints(NodeSteps(services)) == ServicesFed(services)
    decreases |services|
  {
    if services != [] {
      var n := |services| - 1;
      NodeStepsFed(services[..n]);
      RoutesStepsFed(services[n].routes, services[n].color);
      StepEndpointsConcat(NodeSteps(services[..n]), RoutesSteps(services[n].routes, services[n].color));
    }
  }

  /** A route of the list feeds `e`, so the list does. */
  lemma {:induction false} RoutesFedAt(routes: seq<JsRoute>, j: nat, e: string)
    requires j < |routes| && Feeds(routes[j], e)
    ensures e in RoutesFed(routes)
    decreases |routes|
  {
    var n := |routes| - 1;
    if j < n {
      assert routes[..n][j] == routes[j];
      RoutesFedAt(routes[..n], j, e);
    }
  }

  /** The list feeds `e` only through one of its routes. */
  lemma {:induction false} RoutesFedWitness(routes: seq<JsRoute>, e: string)
    requires e in RoutesFed(routes)
    ensures exists j :: 0 <= j < |routes| && Feeds(routes[j], e)
    decreases |routes|
  {
    var n := |routes| - 1;
    if e in RoutesFed(routes[..n]) {
      RoutesFedWitness(routes[..n], e);
      var j :| 0 <= j < n && Feeds(routes[..n][j], e);
      assert routes[j] == routes[..n][j];
    } else {
      assert Feeds(routes[n], e);
    }
  }

  lemma RoutesFedMembers(routes: seq<JsRoute>, e: string)
    ensures e in RoutesFed(routes) <==> exists j :: 0 <= j < |routes| && Feeds(routes[j], e)
  {
    if e in RoutesFed(routes) {
      RoutesFedWitness(routes, e);
    }
    if exists j :: 0 <= j < |routes| && Feeds(routes[j], e) {
      var j :| 0 <= j < |routes| && Feeds(routes[j], e);
      RoutesFedAt(routes, j, e);
    }
  }

  /** A route of one of the services feeds `e`, so the snapshot does. */
  lemma {:induction false} ServicesFedAt(services: seq<JsService>, i: nat, j: nat, e: string)
    requires i < |services| && j < |services[i].routes| && Feeds(services[i].routes[j], e)
    ensures e in ServicesFed(services)
    decreases |services|
  {
    var n := |services| - 1;
    if i < n {
      assert services[..n][i] == services[i];
      ServicesFedAt(services[..n], i, j, e);
    } else {
      RoutesFedAt(services[n].routes, j, e);
    }
  }

  /** The snapshot feeds `e` only through a route of one of its services. */
  lemma {:induction false} ServicesFedWitness(services: seq<JsService>, e: string)
    requires e in ServicesFed(services)
    ensures exists i, j :: 0 <= i < |services| && 0 <= j < |services[i].routes| && Feeds(services[i].routes[j], e)
    decreases |services|
  {
    var n := |services| - 1;
    if e in ServicesFed(services[..n]) {
      ServicesFedWitness(services[..n], e);
      var i, j :| 0 <= i < n && 0 <= j < |services[..n][i].routes| && Feeds(services[..n][i].routes[j], e);
      assert services[i] == services[..n][i];
    } else {
      RoutesFedWitness(services[n].routes, e);
      var j :| 0 <= j < |services[n].routes| && Feeds(services[n].routes[j], e);
    }
  }

  /** A snapshot feeds an endpoint when one of its routes does. */
  lemma ServicesFedMembers(services: seq<JsService>, e: string)
    ensures e in ServicesFed(services) <==>
      exists i, j :: 0 <= i < |services| && 0 <= j < |services[i].routes| && Feeds(services[i].routes[j], e)
  {
    if e in ServicesFed(services) {
      ServicesFedWitness(services, e);
    }
    if exists i, j :: 0 <= i < |services| && 0 <= j < |services[i].routes| && Feeds(services[i].routes[j], e) {
      var i, j :| 0 <= i < |services| && 0 <= j < |services[i].routes| && Feeds(services[i].routes[j], e);
      ServicesFedAt(services, i, j, e);
    }
  }

  /**
   * `updateGraph` gives a node to every endpoint a route feeds and to no
   * other new one; known endpoints keep their ids and their nodes' labels
   * and colours.
   */
  lemma UpdateGraphNodes(g: Graph, services: seq<JsService>, e: string)
    requires Valid(g)
    ensures var r := UpdateGraph(g, services);
      && (e in r.endpoints <==>
          e in g.endpoints
          || exists i, j :: 0 <= i < |services| && 0 <= j < |services[i].routes| && Feeds(services[i].routes[j], e))
      && (e in g.endpoints ==> r.endpoints[e] == g.endpoints[e]
                               && r.nodes[g.endpoints[e]].endpoint == e
                               && r.nodes[g.endpoints[e]].color == g.nodes[g.endpoints[e]].color)
  {
    UpdateGraphKeys(g, services);
    ServicesFedMembers(services, e);
    if e in g.endpoints {
      UpdateGraphKept(g, services, e);
    }
  }

  /** A known endpoint keeps its id, its label and its colour through `updateGraph`. */
  lemma UpdateGraphKept(g: Graph, services: seq<JsService>, e: string)
    requires Valid(g) && e in g.endpoints
    ensures var r := UpdateGraph(g, services);
      && e in r.endpoints && r.endpoints[e] == g.endpoints[e]
      && r.nodes[g.endpoints[e]].endpoint == e
      && r.nodes[g.endpoints[e]].color == g.nodes[g.endpoints[e]].color
  {
    var withNodes := AddEndpoints(g, NodeSteps(services));
    assert UpdateGraph(g, services) == LinkAll(withNodes, Links(services), Patching);
    assert withNodes.nodes[g.endpoints[e]] == g.nodes[g.endpoints[e]];
  }

  /** `updateGraph` adds exactly the endpoints the snapshot feeds to the endpoint table. */
  lemma UpdateGraphKeys(g: Graph, services: seq<JsService>)
    ensures UpdateGraph(g, services).endpoints.Keys == g.endpoints.Keys + ServicesFed(services)
  {
    NodeStepsFed(services);
  }

  /** `build`'s endpoint table holds exactly the endpoints the snapshot feeds. */
  lemma BuildGraphKeys(services: seq<JsService>)
    ensures BuildGraph(services).endpoints.Keys == ServicesFed(services)
  {
    NodeStepsFed(services);
  }

  /** `build` gives a node to exactly the endpoints some route feeds, none of them struck. */
  lemma BuildGraphNodes(services: seq<JsService>, e: string)
    ensures var r := BuildGraph(services);
      && (e in r.endpoints <==>
          exists i, j :: 0 <= i < |services| && 0 <= j < |services[i].routes| && Feeds(services[i].routes[j], e))
      && forall id :: 0 <= id < |r.nodes| ==> r.nodes[id].strike.None?
  {
    NodeStepsFed(services);
    ServicesFedMembers(services, e);
  }

  /** A placeholder that no route reads from never gets a node, whatever routes write to it. */
  lemma PlaceholderNeverNode(services: seq<JsService>, e: string)
    requires Placeholder(e)
    requires forall i, j :: 0 <= i < |services| && 0 <= j < |services[i].routes| ==> e !in InputsOf(services[i].routes[j])
    ensures e !in BuildGraph(services).endpoints
  {
    BuildGraphNodes(services, e);
  }

  /**
   * An endpoint met for the first time gets the next free id, the number of
   * new endpoints met before it, and a node in the colour of that step.
   */
  lemma {:induction false} AddEndpointsFirstSeen(g: Graph, steps: seq<Step>, k: nat)
    requires k < |steps| && steps[k].endpoint !in g.endpoints
    requires forall j :: 0 <= j < k ==> steps[j].endpoint != steps[k].endpoint
    ensures var r := AddEndpoints(g, steps);
      var id := |g.nodes| + |StepEndpoints(steps[..k]) - g.endpoints.Keys|;
      && steps[k].endpoint in r.endpoints && r.endpoints[steps[k].endpoint] == id
      && id < |r.nodes| && r.nodes[id] == Node(steps[k].endpoint, steps[k].color, None)
  {
    var head := steps[..k + 1];
    var rest := steps[k + 1..];
    FirstSeenStep(g, steps, k);
    SplitSteps(steps, k + 1);
    AddEndpointsConcat(g, head, rest);
    KnownKept(AddEndpoints(g, head), rest, steps[k].endpoint);
  }

  lemma SplitSteps(steps: seq<Step>, i: nat)
    requires i <= |steps|
    ensures steps[..i] + steps[i..] == steps
  {
  }

  /** Later steps keep an endpoint's id and its node. */
  lemma KnownKept(g: Graph, steps: seq<Step>, e: string)
    requires e in g.endpoints && g.endpoints[e] < |g.nodes|
    ensures var r := AddEndpoints(g, steps);
      e in r.endpoints && r.endpoints[e] == g.endpoints[e] && r.nodes[g.endpoints[e]] == g.nodes[g.endpoints[e]]
  {
  }

  /** `AddEndpointsFirstSeen` up to the step that meets the endpoint. */
  lemma FirstSeenStep(g: Graph, steps: seq<Step>, k: nat)
    requires k < |steps| && steps[k].endpoint !in g.endpoints
    requires forall j :: 0 <= j < k ==> steps[j].endpoint != steps[k].endpoint
    ensures var one := AddEndpoints(g, steps[..k + 1]);
      var id := |g.nodes| + |StepEndpoints(steps[..k]) - g.endpoints.Keys|;
      && steps[k].endpoint in one.endpoints && one.endpoints[steps[k].endpoint] == id
      && id < |one.nodes| && one.nodes[id] == Node(steps[k].endpoint, steps[k].color, None)
  {
    assert steps[..k + 1][..k] == steps[..k];
    AddEndpointsCount(g, steps[..k]);
    StepEndpointsMembers(steps[..k], steps[k].endpoint);
  }

  /** Knowing every endpoint already, the nodes phase changes nothing. */
  lemma {:induction false} AddEndpointsKnown(g: Graph, steps: seq<Step>)
    requires StepEndpoints(steps) <= g.endpoints.Keys
    ensures AddEndpoints(g, steps) == g
    decreases |steps|
  {
    if steps != [] {
      var n := |steps| - 1;
      assert StepEndpoints(steps[..n]) <= StepEndpoints(steps);
      AddEndpointsKnown(g, steps[..n]);
    }
  }

  // ---------------------------------------------------------------------------
  // The edges phase

  /** On a valid graph a link lands, if at all, between two known nodes, so validity is kept. */
  lemma LinkStepValid(g: Graph, link: Link, mode: Mode)
    requires Valid(g)
    ensures Valid(LinkStep(g, link, mode))
  {
    match Resolve(g, link)
    case None =>
    case Some(p) =>
      if p in g.edgeMap {
        UpdateEdgeValid(g, link.route, p.0, p.1, link.color);
      } else {
        AddEdgeValid(g, link.route, p.0, p.1, link.color);
      }
  }

  lemma {:induction false} LinkAllValid(g: Graph, links: seq<Link>, mode: Mode)
    requires Valid(g)
    ensures Valid(LinkAll(g, links, mode))
    decreases |links|
  {
    if links != [] {
      var n := |links| - 1;
      LinkAllValid(g, links[..n], mode);
      LinkStepValid(LinkAll(g, links[..n], mode), links[n], mode);
    }
  }

  /** `build` produces a valid graph. */
  lemma BuildGraphValid(services: seq<JsService>)
    ensures Valid(BuildGraph(services))
  {
    EmptyValid();
    AddEndpointsValid(Empty, NodeSteps(services));
    LinkAllValid(AddEndpoints(Empty, NodeSteps(services)), Links(services), Building);
  }

  /** `updateGraph` keeps a graph valid. */
  lemma UpdateGraphValid(g: Graph, services: seq<JsService>)
    requires Valid(g)
    ensures Valid(UpdateGraph(g, services))
  {
    AddEndpointsValid(g, NodeSteps(services));
    LinkAllValid(AddEndpoints(g, NodeSteps(services)), Links(services), Patching);
  }

  /** `build` never rewrites a stored edge. */
  lemma {:induction false} BuildingKeepsEdges(g: Graph, links: seq<Link>, p: Pair)
    requires g.edgeMap == g.edges.Keys && p in g.edges
    ensures LinkAll(g, links, Building).edges[p] == g.edges[p]
    decreases |links|
  {
    if links != [] {
      BuildingKeepsEdges(g, links[..|links| - 1], p);
    }
  }

  /**
   * In `build` a new pair takes the edge of the first link that lands on it;
   * later routes between the same endpoints are not drawn.
   */
  lemma {:induction false} BuildingFirstLinkWins(g: Graph, links: seq<Link>, k: nat, p: Pair)
    requires g.edgeMap == g.edges.Keys && k < |links| && Resolve(g, links[k]) == Some(p) && p !in g.edges
    requires forall j :: 0 <= j < k ==> Resolve(g, links[j]) != Some(p)
    ensures LinkAll(g, links, Building).edges[p] == MakeEdge(links[k].route, p.0, p.1, links[k].color)
    decreases |links|
  {
    var n := |links| - 1;
    var prev := LinkAll(g, links[..n], Building);
    assert forall j :: 0 <= j < n ==> links[..n][j] == links[j];
    if k < n {
      BuildingFirstLinkWins(g, links[..n], k, p);
      assert p in prev.edgeMap;
    } else {
      assert p !in Resolved(g, links[..n]);
      assert Resolve(prev, links[n]) == Some(p);
    }
  }

  /** After `build`, the stored edges are exactly the pairs some link lands on. */
  lemma BuildGraphEdges(services: seq<JsService>, p: Pair)
    ensures p in BuildGraph(services).edges <==> p in Resolved(AddEndpoints(Empty, NodeSteps(services)), Links(services))
  {
  }

  /** The statistics of a route, as `isNeedUpdate` compares them. */
  type StatsOf = (Option<int>, string, string)

  /**
   * The links of one snapshot agree with one statistics per pair: any two
   * landing on the same pair carry routes with the same statistics.
   */
  predicate Consistent(g: Graph, links: seq<Link>, stats: map<Pair, StatsOf>) {
    forall k :: 0 <= k < |links| && Resolve(g, links[k]).Some? ==>
      Resolve(g, links[k]).value in stats && Stats(links[k].route) == stats[Resolve(g, links[k]).value]
  }

  /** Every link lands on a stored edge that it would not rewrite. */
  predicate Settled(g: Graph, links: seq<Link>) {
    forall k :: 0 <= k < |links| && Resolve(g, links[k]).Some? ==>
      Resolve(g, links[k]).value in g.edges && !IsNeedUpdate(g.edges[Resolve(g, links[k]).value], links[k].route)
  }

  lemma ConsistentAt(g: Graph, links: seq<Link>, stats: map<Pair, StatsOf>, k: nat)
    requires Consistent(g, links, stats) && k < |links| && Resolve(g, links[k]).Some?
    ensures Resolve(g, links[k]).value in stats && Stats(links[k].route) == stats[Resolve(g, links[k]).value]
  {
  }

  lemma ConsistentPrefix(g: Graph, links: seq<Link>, stats: map<Pair, StatsOf>, n: nat)
    requires Consistent(g, links, stats) && n <= |links|
    ensures Consistent(g, links[..n], stats)
  {
    assert forall j :: 0 <= j < n ==> links[..n][j] == links[j];
  }

  lemma SettledAt(g: Graph, links: seq<Link>, k: nat)
    requires Settled(g, links) && k < |links| && Resolve(g, links[k]).Some?
    ensures Resolve(g, links[k]).value in g.edges && !IsNeedUpdate(g.edges[Resolve(g, links[k]).value], links[k].route)
  {
  }

  /** A pass over consistent links leaves every one of them settled. */
  lemma PatchingSettles(g: Graph, links: seq<Link>, stats: map<Pair, StatsOf>)
    requires g.edgeMap == g.edges.Keys && Consistent(g, links, stats)
    ensures Settled(LinkAll(g, links, Patching), links)
  {
    var r := LinkAll(g, links, Patching);
    forall k | 0 <= k < |links| && Resolve(r, links[k]).Some?
      ensures Resolve(r, links[k]).value in r.edges && !IsNeedUpdate(r.edges[Resolve(r, links[k]).value], links[k].route)
    {
      ResolveSame(r, g, links[k]);
      PatchingSettlesAt(g, links, stats, k);
    }
  }

  /** One consistent link stays settled through the rest of the pass. */
  lemma {:induction false} PatchingSettlesAt(g: Graph, links: seq<Link>, stats: map<Pair, StatsOf>, k: nat)
    requires g.edgeMap == g.edges.Keys && Consistent(g, links, stats)
    requires k < |links| && Resolve(g, links[k]).Some?
    ensures var r := LinkAll(g, links, Patching); var p := Resolve(g, links[k]).value;
      p in r.edges && !IsNeedUpdate(r.edges[p], links[k].route)
    decreases |links|
  {
    var n := |links| - 1;
    var prev := LinkAll(g, links[..n], Patching);
    ResolveSame(prev, g, links[k]);
    ResolveSame(prev, g, links[n]);
    if k == n {
      LinkStepSettles(prev, links[n], links[k]);
    } else if Resolve(g, links[k]) == Resolve(g, links[n]) {
      ConsistentAt(g, links, stats, k);
      ConsistentAt(g, links, stats, n);
      LinkStepSettles(prev, links[n], links[k]);
    } else {
      ConsistentPrefix(g, links, stats, n);
      assert links[..n][k] == links[k];
      PatchingSettlesAt(g, links[..n], stats, k);
      LinkStepSettles(prev, links[n], links[k]);
    }
  }

  lemma ResolveSame(g: Graph, h: Graph, l: Link)
    requires g.endpoints == h.endpoints
    ensures Resolve(g, l) == Resolve(h, l)
  {
  }

  /**
   * One more link keeps a settled link settled when the two land on
   * different pairs or carry the same statistics, and settles itself.
   */
  lemma LinkStepSettles(g: Graph, l: Link, k: Link)
    requires g.edgeMap == g.edges.Keys && Resolve(g, k).Some?
    requires Resolve(g, k) == Resolve(g, l) ==> Stats(l.route) == Stats(k.route)
    requires Resolve(g, k) != Resolve(g, l) ==>
      Resolve(g, k).value in g.edges && !IsNeedUpdate(g.edges[Resolve(g, k).value], k.route)
    ensures var r := LinkStep(g, l, Patching); var p := Resolve(r, k).value;
      Resolve(r, k) == Resolve(g, k) && p in r.edges && !IsNeedUpdate(r.edges[p], k.route)
  {
  }

  /** A pass over settled links changes no edge. */
  lemma {:induction false} SettledKeepsEdges(g: Graph, links: seq<Link>)
    requires g.edgeMap == g.edges.Keys && Settled(g, links)
    ensures LinkAll(g, links, Patching).edges == g.edges
    decreases |links|
  {
    if links != [] {
      var n := |links| - 1;
      assert forall j :: 0 <= j < n ==> links[..n][j] == links[j];
      assert Settled(g, links[..n]);
      SettledKeepsEdges(g, links[..n]);
    }
  }

  /**
   * Running `updateGraph` again on the same consistent snapshot changes no
   * edge (only the `strike` flags of the revisited nodes are reset).
   */
  lemma UpdateGraphTwice(g: Graph, services: seq<JsService>, stats: map<Pair, StatsOf>)
    requires g.edgeMap == g.edges.Keys && Consistent(AddEndpoints(g, NodeSteps(services)), Links(services), stats)
    ensures var once := UpdateGraph(g, services); UpdateGraph(once, services).edges == once.edges
  {
    var withNodes := AddEndpoints(g, NodeSteps(services));
    var once := UpdateGraph(g, services);
    PatchingSettles(withNodes, Links(services), stats);
    AddEndpointsKnown(once, NodeSteps(services));
    SettledKeepsEdges(once, Links(services));
  }

  /**
   * Two routes between the same endpoints whose statistics differ make every
   * pass rewrite the edge and strike its destination, though nothing changed.
   */
  lemma PatchingFlips(g: Graph, a: Link, b: Link, p: Pair)
    requires g.edgeMap == g.edges.Keys && Resolve(g, a) == Some(p) && Resolve(g, b) == Some(p) && p in g.edges
    requires a.route.exchangesTotal.Some? && b.route.exchangesTotal.Some? && g.edges[p].route.exchangesTotal.Some?
    requires Stats(a.route) != Stats(b.route) && p.1 < |g.nodes|
    ensures var r := LinkStep(LinkStep(g, a, Patching), b, Patching);
      r.edges[p] == MakeEdge(b.route, p.0, p.1, b.color) && r.nodes[p.1].strike == Some(true)
  {
    var mid := LinkStep(g, a, Patching);
    LinkStepStored(g, a, p);
    LinkStepRewrites(mid, b, p);
  }

  /** A link landing on a stored edge leaves there a route with its own statistics and a total. */
  lemma LinkStepStored(g: Graph, l: Link, p: Pair)
    requires g.edgeMap == g.edges.Keys && Resolve(g, l) == Some(p) && p in g.edges
    requires l.route.exchangesTotal.Some? && g.edges[p].route.exchangesTotal.Some?
    ensures var r := LinkStep(g, l, Patching);
      && r.edgeMap == r.edges.Keys && p in r.edges && |r.nodes| == |g.nodes| && Resolve(r, l) == Some(p)
      && Stats(r.edges[p].route) == Stats(l.route)
  {
  }

  /** A link whose statistics differ from the stored edge's rewrites it and strikes its destination. */
  lemma LinkStepRewrites(g: Graph, l: Link, p: Pair)
    requires g.edgeMap == g.edges.Keys && Resolve(g, l) == Some(p) && p in g.edges && p.1 < |g.nodes|
    requires IsNeedUpdate(g.edges[p], l.route)
    ensures var r := LinkStep(g, l, Patching);
      r.edges[p] == MakeEdge(l.route, p.0, p.1, l.color) && r.nodes[p.1].strike == Some(true)
  {
  }
}
