/** Routing strategies: shortest path by weight, shortest path by trust-weighted
    cost, and the hop-by-hop path built from the Q-learning agent's choices. */
module Routing {
  import opened Common
  import opened Trust
  import opened Agent

  // ---------------------------------------------------------------------------
  // Library shortest paths (ShortestPathRouting and IntelligentRouting)
  // ---------------------------------------------------------------------------

  /** What a call of networkx's `shortest_path` ends with: the path it
      returns, or the NetworkXNoPath exception. */
  datatype SearchAnswer = Found(path: seq<Node>) | NoPath

  /** The part of networkx's promise the model relies on: a returned path is
      a walk of the graph from `source` to `target`. */
  ghost predicate SoundAnswer(g: Adjacency, source: Node, target: Node, answer: SearchAnswer) {
    answer.Found? ==> IsPathBetween(g, answer.path, source, target)
  }

  /** The try/except shared by both library-based find_path methods: the
      library's path, or None in place of NetworkXNoPath. */
  function CatchNoPath(answer: SearchAnswer): (r: Option<seq<Node>>)
    ensures r.None? <==> answer.NoPath?
    ensures r.Some? ==> r.value == answer.path
  {
    match answer
    case Found(p) => Some(p)
    case NoPath => None
  }

  /** Between two disconnected parts of the graph, both library-based
      strategies answer None rather than raise. */
  lemma NoPathAcrossComponents(g: Adjacency, c: set<Node>, source: Node, target: Node, answer: SearchAnswer)
    requires Closed(g, c) && source in c && target !in c
    requires SoundAnswer(g, source, target, answer)
    ensures CatchNoPath(answer) == None
  {
    if answer.Found? {
      NoPathOutOfClosed(g, c, answer.path, source, target);
    }
  }

  /** The trust-weighted cost of an edge of base weight `baseCost` into a node
      of trust `trust`. */
  function TrustWeightedCost(baseCost: real, trust: real): (c: real)
    ensures trust == 1.0 ==> c == baseCost
    ensures trust == 0.0 ==> c == 11.0 * baseCost
  {
    baseCost * (1.0 + (1.0 - trust) * 10.0)
  }

  /** With trust in [0, 1] and a non-negative base the cost lies between the
      base weight and eleven times it. */
  lemma TrustWeightedCostBounds(baseCost: real, trust: real)
    ensures baseCost >= 0.0 && 0.0 <= trust <= 1.0 ==>
      baseCost <= TrustWeightedCost(baseCost, trust) <= 11.0 * baseCost
  {
    if baseCost >= 0.0 && 0.0 <= trust <= 1.0 {
      FractionWithin(1.0 - trust, baseCost);
      assert TrustWeightedCost(baseCost, trust) == baseCost + 10.0 * ((1.0 - trust) * baseCost);
    }
  }

  /** For a non-negative base, more trust never costs more. */
  lemma TrustWeightedCostAntitone(baseCost: real, t1: real, t2: real)
    requires baseCost >= 0.0 && t1 <= t2
    ensures TrustWeightedCost(baseCost, t2) <= TrustWeightedCost(baseCost, t1)
  {
    MulNonNegative(t2 - t1, baseCost);
    assert TrustWeightedCost(baseCost, t1) - TrustWeightedCost(baseCost, t2) == 10.0 * ((t2 - t1) * baseCost);
  }

  class IntelligentRouting {
    const graph: Adjacency
    const trustModel: TrustModel

    constructor (graph: Adjacency, trustModel: TrustModel)
      ensures this.graph == graph && this.trustModel == trustModel
    {
      this.graph := graph;
      this.trustModel := trustModel;
    }

    /** networkx's weight callback: the edge's `weight` (1 when it carries
        none) scaled by the live distrust of the node entered. `u` is unused. */
    function CalculateCost(u: Node, v: Node, weight: Option<real>): (c: real)
      reads trustModel
      ensures var base := if weight.Some? then weight.value else 1.0;
        && (trustModel.GetTrust(v) == 1.0 ==> c == base)
        && (trustModel.GetTrust(v) == 0.0 ==> c == 11.0 * base)
        && (trustModel.Valid() && base >= 0.0 ==> base <= c <= 11.0 * base)
    {
      var baseCost := if weight.Some? then weight.value else 1.0;
      var trustScore := trustModel.GetTrust(v);
      TrustWeightedCostBounds(baseCost, trustScore);
      TrustWeightedCost(baseCost, trustScore)
    }
  }

  // ---------------------------------------------------------------------------
  // Hop-by-hop routing with the Q-learning agent (RLRouting)
  // ---------------------------------------------------------------------------

  /** The path-length bound: twice the number of nodes. */
  function MaxHops(g: Adjacency): (h: nat)
    ensures h % 2 == 0 && h >= |g|
    ensures h == 0 <==> g == map[]
  {
    |g| * 2
  }

  /** The rest of RLRouting.find_path's loop from the partial path `path`,
      whose last node is the current one. The step that extends a path of n
      nodes uses draws[n - 1] and picks[n - 1]. */
  function RLRoute(agent: QLearningAgent, g: Adjacency, target: Node, path: seq<Node>,
                   draws: seq<real>, picks: seq<nat>): (r: Result<Option<seq<Node>>>)
    reads agent
    requires path != [] && |draws| >= MaxHops(g) && |picks| >= MaxHops(g)
    ensures r.Ok? && r.value.Some? ==> |path| <= |r.value.value| && r.value.value[|r.value.value| - 1] == target
    ensures path[|path| - 1] != target && |path| >= MaxHops(g) ==> r == Ok(None)
    decreases MaxHops(g) - |path|
  {
    var current := path[|path| - 1];
    if current == target then Ok(Some(path))
    else if |path| >= MaxHops(g) then Ok(None)
    else if current !in g then Err(NodeNotInGraph(current))
    else if g[current] == [] then Ok(None)
    else match agent.ChooseAction(current, g[current], draws[|path| - 1], picks[|path| - 1])
      case Err(e) => Err(e)
      case Ok(None) => Ok(None)
      case Ok(Some(h)) => RLRoute(agent, g, target, path + [h], draws, picks)
  }

  /** A route found from a partial walk extends it, ends at the target,
      follows edges, and is one node long or within the hop bound. */
  lemma {:induction false} RLRouteValid(agent: QLearningAgent, g: Adjacency, target: Node, path: seq<Node>,
                                        draws: seq<real>, picks: seq<nat>)
    requires path != [] && |draws| >= MaxHops(g) && |picks| >= MaxHops(g)
    requires IsWalk(g, path) && (|path| == 1 || |path| <= MaxHops(g))
    ensures var r := RLRoute(agent, g, target, path, draws, picks);
      r.Ok? && r.value.Some? ==>
        var p := r.value.value;
        && |path| <= |p| && p[..|path|] == path
        && p[|p| - 1] == target
        && IsWalk(g, p)
        && (|p| == 1 || |p| <= MaxHops(g))
    decreases MaxHops(g) - |path|
  {
    var current := path[|path| - 1];
    if current != target && |path| < MaxHops(g) && current in g && g[current] != [] {
      var choice := agent.ChooseAction(current, g[current], draws[|path| - 1], picks[|path| - 1]);
      if choice.Ok? && choice.value.Some? {
        var h := choice.value.value;
        var next := path + [h];
        assert IsWalk(g, next) by {
          forall i | 0 <= i < |next| - 1 ensures IsEdge(g, next[i], next[i + 1]) {
            if i < |path| - 1 {
              assert next[i] == path[i] && next[i + 1] == path[i + 1];
            }
          }
        }
        RLRouteValid(agent, g, target, next, draws, picks);
        var r := RLRoute(agent, g, target, next, draws, picks);
        if r.Ok? && r.value.Some? {
          var p := r.value.value;
          assert p[..|path|] == p[..|next|][..|path|];
        }
      }
    }
  }

  /** The hop-by-hop router never reaches a target outside the part of the
      graph the source lies in. */
  lemma RLRouteAcrossComponents(agent: QLearningAgent, g: Adjacency, c: set<Node>, source: Node, target: Node,
                                draws: seq<real>, picks: seq<nat>)
    requires Closed(g, c) && source in c && target !in c
    requires |draws| >= MaxHops(g) && |picks| >= MaxHops(g)
    ensures var r := RLRoute(agent, g, target, [source], draws, picks); r.Ok? ==> r.value.None?
  {
    RLRouteValid(agent, g, target, [source], draws, picks);
    var r := RLRoute(agent, g, target, [source], draws, picks);
    if r.Ok? && r.value.Some? {
      NoPathOutOfClosed(g, c, r.value.value, source, target);
    }
  }

  class RLRouting {
    const graph: Adjacency
    const agent: QLearningAgent

    constructor (graph: Adjacency, agent: QLearningAgent)
      ensures this.graph == graph && this.agent == agent
    {
      this.graph := graph;
      this.agent := agent;
    }

    /** Builds the path one agent choice at a time. `visited` is kept as the
        loop keeps it but never consulted, so revisits are allowed. */
    method FindPath(source: Node, target: Node, draws: seq<real>, picks: seq<nat>)
      returns (r: Result<Option<seq<Node>>>)
      requires |draws| >= MaxHops(graph) && |picks| >= MaxHops(graph)
      ensures r == RLRoute(agent, graph, target, [source], draws, picks)
      ensures source == target ==> r == Ok(Some([source]))
      ensures r.Ok? && r.value.Some? ==>
        && IsPathBetween(graph, r.value.value, source, target)
        && (|r.value.value| == 1 || |r.value.value| <= MaxHops(graph))
    {
      var path := [source];
      var current := source;
      var visited := {source};
      var maxHops := |graph| * 2;
      while current != target && |path| < maxHops
        invariant path != [] && current == path[|path| - 1]
        invariant RLRoute(agent, graph, target, path, draws, picks) == RLRoute(agent, graph, target, [source], draws, picks)
        decreases maxHops - |path|
      {
        if current !in graph {
          r := Err(NodeNotInGraph(current));
          RLRouteValid(agent, graph, target, [source], draws, picks);
          return;
        }
        var neighbors := graph[current];
        if neighbors == [] {
          break;
        }
        var nextHop := agent.ChooseAction(current, neighbors, draws[|path| - 1], picks[|path| - 1]);
        if nextHop.Err? {
          r := Err(nextHop.error);
          RLRouteValid(agent, graph, target, [source], draws, picks);
          return;
        }
        if nextHop.value.None? {
          break;
        }
        path := path + [nextHop.value.value];
        visited := visited + {nextHop.value.value};
        current := nextHop.value.value;
      }
      if current == target {
        r := Ok(Some(path));
      } else {
        r := Ok(None);
      }
      RLRouteValid(agent, graph, target, [source], draws, picks);
    }
  }
}
