/** The simulation driver's decision logic: the reliability-based delivery
    oracle, the latency of a path, and the Q-learning feedback after each packet. */
module Simulation {
  import opened Common
  import opened Trust
  import opened Agent
  import opened Delivery

  // ---------------------------------------------------------------------------
  // Delivery oracle based on ground-truth reliability
  // ---------------------------------------------------------------------------

  /** The hop into `v` drops when its draw of `random.random()` exceeds v's
      reliability, which is 1.0 for a node that carries none. */
  function HopDrops(reliability: map<Node, real>, v: Node, draw: real): (drops: bool)
    ensures v !in reliability && draw < 1.0 ==> !drops
    ensures v in reliability ==> (drops <==> draw > reliability[v])
  {
    draw > Lookup(reliability, v, 1.0)
  }

  /** Which hops of the path drop, hop j using draws[j]. */
  function RealisticDrops(path: seq<Node>, reliability: map<Node, real>, draws: seq<real>): (drops: seq<bool>)
    requires path != [] && |draws| >= |path| - 1
    ensures |drops| == |path| - 1
    ensures forall j :: 0 <= j < |drops| ==> drops[j] == HopDrops(reliability, path[j + 1], draws[j])
  {
    seq(|path| - 1, j requires 0 <= j < |path| - 1 => HopDrops(reliability, path[j + 1], draws[j]))
  }

  /** realistic_simulate_packet: walks the path hop by hop, stops at the first
      drop, and reports each hop it reaches to the trust model, if there is one. */
  method RealisticSimulatePacket(path: seq<Node>, reliability: map<Node, real>, draws: seq<real>,
                                 trustModel: TrustModel?)
    returns (success: bool)
    requires |draws| >= |path| - 1
    modifies trustModel
    ensures success <==> path != [] && forall j :: 0 <= j < |path| - 1 ==> !HopDrops(reliability, path[j + 1], draws[j])
    ensures path != [] ==> success == AllForwarded(WalkReports(path, RealisticDrops(path, reliability, draws), 0))
    ensures trustModel != null && path == [] ==> trustModel.nodeTrust == old(trustModel.nodeTrust)
    ensures trustModel != null && path != [] ==>
      trustModel.nodeTrust == Replay(old(trustModel.nodeTrust), trustModel.Params(),
                                     WalkReports(path, RealisticDrops(path, reliability, draws), 0))
  {
    if path == [] {
      return false;
    }
    success := true;
    ghost var drops := RealisticDrops(path, reliability, draws);
    ghost var full := WalkReports(path, drops, 0);
    ghost var done: seq<Report> := [];
    ghost var base := if trustModel != null then trustModel.nodeTrust else map[];
    for i := 0 to |path| - 1
      invariant full == done + WalkReports(path, drops, i)
      invariant success && AllForwarded(done)
      invariant trustModel != null ==> trustModel.nodeTrust == Replay(base, trustModel.Params(), done)
    {
      var v := path[i + 1];
      var nodeReliability := Lookup(reliability, v, 1.0);
      if draws[i] > nodeReliability {
        success := false;
        Observe(trustModel, base, done, Report(v, false));
        done := done + [Report(v, false)];
        assert !done[|done| - 1].success;
        break;
      }
      Observe(trustModel, base, done, Report(v, true));
      done := done + [Report(v, true)];
    }
    assert full == done;
    WalkDeliversIff(path, drops);
  }

  // ---------------------------------------------------------------------------
  // Path latency and the reinforcement-learning feedback
  // ---------------------------------------------------------------------------

  /** Every consecutive pair of the path carries a weight. */
  predicate HasWeights(weights: Weights, path: seq<Node>) {
    forall i :: 0 <= i < |path| - 1 ==> (path[i], path[i + 1]) in weights
  }

  predicate NonNegativeWeights(weights: Weights) {
    forall e :: e in weights ==> weights[e] >= 0.0
  }

  /** path_latency: the sum of the weights along the path. */
  function PathLatency(weights: Weights, path: seq<Node>): (latency: real)
    requires HasWeights(weights, path)
    ensures NonNegativeWeights(weights) ==> latency >= 0.0
    ensures |path| == 2 ==> latency == weights[(path[0], path[1])]
    decreases |path|
  {
    if |path| < 2 then 0.0
    else
      assert HasWeights(weights, path[1..]) by {
        forall i | 0 <= i < |path| - 2 ensures (path[1..][i], path[1..][i + 1]) in weights {
          assert path[1..][i] == path[i + 1] && path[1..][i + 1] == path[i + 2];
        }
      }
      weights[(path[0], path[1])] + PathLatency(weights, path[1..])
  }

  /** Two paths joined where the first ends and the second starts take the
      sum of their latencies: the right fold agrees with summing the edges
      left to right. */
  lemma {:induction false} PathLatencyJoin(weights: Weights, p: seq<Node>, q: seq<Node>)
    requires p != [] && q != [] && p[|p| - 1] == q[0]
    requires HasWeights(weights, p) && HasWeights(weights, q)
    ensures HasWeights(weights, p + q[1..])
    ensures PathLatency(weights, p + q[1..]) == PathLatency(weights, p) + PathLatency(weights, q)
    decreases |p|
  {
    var pq := p + q[1..];
    assert HasWeights(weights, pq) by {
      forall i | 0 <= i < |pq| - 1 ensures (pq[i], pq[i + 1]) in weights {
        if i + 1 < |p| {
          assert pq[i] == p[i] && pq[i + 1] == p[i + 1];
        } else {
          assert pq[i] == q[i - |p| + 1] && pq[i + 1] == q[i - |p| + 2];
        }
      }
    }
    if |p| >= 2 {
      assert HasWeights(weights, p[1..]) by {
        forall i | 0 <= i < |p| - 2 ensures (p[1..][i], p[1..][i + 1]) in weights {
          assert p[1..][i] == p[i + 1] && p[1..][i + 1] == p[i + 2];
        }
      }
      PathLatencyJoin(weights, p[1..], q);
      assert pq[1..] == p[1..] + q[1..];
    } else {
      assert pq == q;
    }
  }

  /** The reward given for every hop of a packet: its negated latency when
      delivered, -100 when dropped. */
  function Reward(success: bool, pathLatency: real): (r: real)
    ensures !success ==> r == -100.0
    ensures success && pathLatency >= 0.0 ==> r <= 0.0
    ensures success ==> r + pathLatency == 0.0
  {
    if success then -pathLatency else -100.0
  }

  /** `list(graph.neighbors(v)) if v in graph else []`. */
  function NextNeighbors(g: Adjacency, v: Node): (ns: seq<Node>)
    ensures forall n :: n in ns <==> IsEdge(g, v, n)
    ensures v !in g ==> ns == []
  {
    if v in g then g[v] else []
  }

  /** The (state, action) pairs the feedback loop updates from hop i on. */
  function HopPairs(path: seq<Node>, i: nat): set<(Node, Node)>
    decreases |path| - i
  {
    if i + 1 >= |path| then {} else {(path[i], path[i + 1])} + HopPairs(path, i + 1)
  }

  /** What the feedback loop leaves behind: the Q-table, with every update made
      before a KeyError kept, and whether it ran to the end or raised. */
  datatype FeedbackRun = FeedbackRun(table: QTable, outcome: Outcome)

  /** The feedback loop from hop i on: learn(path[j], path[j + 1], reward,
      path[j + 1], neighbours of path[j + 1]) for each later hop j, in order,
      stopping at the first KeyError with the earlier updates in place. No
      state gains or loses its row. */
  function Feedback(q: QTable, alpha: real, gamma: real, g: Adjacency, path: seq<Node>, reward: real, i: nat): (f: FeedbackRun)
    ensures f.table.Keys == q.Keys
    decreases |path| - i
  {
    if i + 1 >= |path| then FeedbackRun(q, Pass)
    else match LearnStep(q, alpha, gamma, path[i], path[i + 1], reward, path[i + 1], NextNeighbors(g, path[i + 1]))
      case Err(e) => FeedbackRun(q, Fail(e))
      case Ok(q') => Feedback(q', alpha, gamma, g, path, reward, i + 1)
  }

  /** The feedback changes only the entries of the path's own hops, whether it
      runs to the end or stops at a KeyError: every other (state, action) pair
      reads the same. */
  lemma {:induction false} FeedbackFrame(q: QTable, alpha: real, gamma: real, g: Adjacency, path: seq<Node>, reward: real, i: nat)
    ensures var f := Feedback(q, alpha, gamma, g, path, reward, i);
      forall s, a :: (s, a) !in HopPairs(path, i) ==> QValue(f.table, s, a) == QValue(q, s, a)
    decreases |path| - i
  {
    if i + 1 < |path| {
      var step := LearnStep(q, alpha, gamma, path[i], path[i + 1], reward, path[i + 1], NextNeighbors(g, path[i + 1]));
      if step.Ok? {
        FeedbackFrame(step.value, alpha, gamma, g, path, reward, i + 1);
      }
    }
  }

  /** When every node of the path has a row (the agent was built over the
      graph's nodes), the feedback never raises. */
  lemma {:induction false} FeedbackTotal(q: QTable, alpha: real, gamma: real, g: Adjacency, path: seq<Node>, reward: real, i: nat)
    requires forall j :: i <= j < |path| ==> path[j] in q
    ensures Feedback(q, alpha, gamma, g, path, reward, i).outcome == Pass
    decreases |path| - i
  {
    if i + 1 < |path| {
      var step := LearnStep(q, alpha, gamma, path[i], path[i + 1], reward, path[i + 1], NextNeighbors(g, path[i + 1]));
      FeedbackTotal(step.value, alpha, gamma, g, path, reward, i + 1);
    }
  }

  /** The per-packet Q-update loop of run_simulation. */
  method RLFeedback(agent: QLearningAgent, g: Adjacency, path: seq<Node>, reward: real) returns (r: Outcome)
    modifies agent`qTable
    ensures var f := Feedback(old(agent.qTable), agent.alpha, agent.gamma, g, path, reward, 0);
      r == f.outcome && agent.qTable == f.table
  {
    if |path| < 1 {
      return Pass;
    }
    for i := 0 to |path| - 1
      invariant Feedback(old(agent.qTable), agent.alpha, agent.gamma, g, path, reward, 0)
             == Feedback(agent.qTable, agent.alpha, agent.gamma, g, path, reward, i)
    {
      var u := path[i];
      var v := path[i + 1];
      var nextNeighbors := if v in g then g[v] else [];
      var learned := agent.Learn(u, v, reward, v, nextNeighbors);
      if learned.Fail? {
        return learned;
      }
    }
    r := Pass;
  }

  /** One packet of run_simulation for the reinforcement-learning router, once
      a non-empty path is found: its latency, its delivery, and the feedback
      with the reward that outcome earns. */
  method DeliverAndLearn(agent: QLearningAgent, g: Adjacency, weights: Weights, reliability: map<Node, real>,
                         path: seq<Node>, draws: seq<real>, trustModel: TrustModel?)
    returns (success: bool, learned: Outcome)
    requires path != [] && HasWeights(weights, path) && |draws| >= |path| - 1
    modifies trustModel, agent`qTable
    ensures success == AllForwarded(WalkReports(path, RealisticDrops(path, reliability, draws), 0))
    ensures trustModel != null ==>
      trustModel.nodeTrust == Replay(old(trustModel.nodeTrust), trustModel.Params(),
                                     WalkReports(path, RealisticDrops(path, reliability, draws), 0))
    ensures var f := Feedback(old(agent.qTable), agent.alpha, agent.gamma, g, path, Reward(success, PathLatency(weights, path)), 0);
      learned == f.outcome && agent.qTable == f.table
  {
    var pathLatency := PathLatency(weights, path);
    success := RealisticSimulatePacket(path, reliability, draws, trustModel);
    var reward := if success then -pathLatency else -100.0;
    learned := RLFeedback(agent, g, path, reward);
  }
}
