# Intelligent routing: trust, adversaries, Q-learning and delivery, in Dafny

This project models the decision logic of the Intelligent-routing network
simulator and proves properties of it. Simulated time, the graph library and
the random number generator are abstracted away. The model covers:

- the trust reputation table (`TrustModel`). A delivery raises a node's score
  by a bonus, capped at 1. A drop multiplies it by a decay factor, floored at 0.
  A node seen for the first time starts at the initial trust.
- the adversary (`Adversary`). It gives a forward/drop verdict per packet. An
  on-off adversary cycles between a "good" state and a "bad" state.
- the tabular Q-learning agent (`QLearningAgent`). It makes an epsilon-greedy
  next-hop choice and applies the temporal-difference update.
- the routing strategies. These are the trust-weighted edge cost, the
  `None`-instead-of-exception contract of the two library shortest-path
  strategies, and the hop-by-hop path built from the agent's choices.
- the two delivery oracles of the driver scripts. The reliability-based one is
  in `main.py`; the adversary-based one is in `attack_sim.py`. Each walks the
  path hop by hop, stops at the first drop, and reports every hop it reaches to
  the trust model. The model also covers the Q-learning feedback that follows
  each packet in `main.py`.

Files and modules:

- `common.dfy` (`Common`): the option and result types, and the Python errors
  the model keeps (`KeyError`, and networkx's error for an unknown node). It
  also has the adjacency-map graph and walks over it.
- `trust_model.dfy` (`Trust`): the `TrustModel` class. It also has `Updated`,
  the table after one `update_trust` call, and `Replay`, the table after a
  sequence of them.
- `security.dfy` (`Security`): the `Adversary` class, and the state and sleep
  sequence of its behaviour process.
- `rl_agent.dfy` (`Agent`): the `QLearningAgent` class, and `LearnStep`, the
  update rule on a table value.
- `routing.dfy` (`Routing`): `IntelligentRouting`, `RLRouting`, and the
  library-search contract.
- `delivery.dfy` (`Delivery`): the hop-by-hop walk both oracles share. It is
  given as the list of `update_trust` calls the walk makes.
- `main.dfy` (`Simulation`): `realistic_simulate_packet`, the path latency, the
  reward, and the Q-learning feedback loop.
- `attack_sim.dfy` (`AttackSim`): `secure_simulate_packet`.

Randomness is passed in explicitly:

- a `random.random()` value is a `real` parameter (`draw`, or `draws[j]` for
  hop j);
- `random.choice(xs)` is `xs[pick % |xs|]` for a `nat` parameter `pick`;
- in `RLRouting.find_path`, the step that extends a path of n nodes uses
  `draws[n - 1]` and `picks[n - 1]`.

Trust scores and Q-values are `real`. A graph is an adjacency map from each
node to its list of neighbours. Its key set is the graph's node set, so
`len(graph.nodes)` is the size of the map.

Two facts about the delivery oracles shape the model:

- Both oracles give each hop its positive trust update as soon as the packet
  passes it, not only once the packet has been delivered. The hops before a
  drop are credited even when the packet is lost.
- There are two separate oracles, not one that combines both checks:
  - `realistic_simulate_packet` consults only reliability;
  - `secure_simulate_packet` consults only the adversaries, and has no
    reliability check.

## Model

| member | source | states |
|---|---|---|
| Trust.TrustModel.constructor | trust_model.py:2-6 | the table starts empty; the defaults are 1.0, 0.95 and 0.05 |
| Trust.TrustModel.InitializeNode | trust_model.py:8-10 | an unseen node gets the initial trust; an existing entry is never overwritten; the valid-range invariant is kept |
| Trust.TrustModel.UpdateTrust | trust_model.py:12-26 | the new table is `Updated` of the old one, with the lazy initialisation applied first; scores in [0, 1] stay in [0, 1] |
| Trust.Updated | trust_model.py:12-26 | one call changes only the entry of the named node; every other entry is unchanged; an unseen node starts from the initial trust |
| Trust.Replay | trust_model.py:12-26 | the table after a sequence of `update_trust` calls holds the nodes it held before and every node a call names; a node no call names keeps its entry |
| Trust.ScoreAfter | trust_model.py:21-26 | the new score after one observation: a delivery never takes it above 1, a drop never below 0 |
| Trust.ScoreAfterInUnit | trust_model.py:21-26 | with initial trust in [0, 1], decay in [0, 1] and bonus >= 0, a score in [0, 1] stays in [0, 1] |
| Trust.SuccessRaisesFailureLowers | trust_model.py:21-26 | a delivery never lowers a score; a drop never raises one |
| Trust.FullTrustIsFixpoint | trust_model.py:23 | a delivery leaves a score of 1.0 at 1.0 |
| Trust.ReplayInUnit | trust_model.py:12-26 | any sequence of `update_trust` calls keeps every score in [0, 1] |
| Trust.ReplayLeavesOthers | trust_model.py:12-26 | a node that no call names keeps its entry, or stays absent |
| Trust.TrustModel.GetTrust | trust_model.py:28-29 | the stored score, or the initial trust for an unseen node, without inserting it; within [0, 1] under the invariant |
| Security.Adversary.constructor | security.py:7-11 | a new adversary is active and in the "good" state |
| Security.Adversary.ProcessPacket | security.py:13-35 | inactive: forward; blackhole: drop; grayhole: drop exactly data; on-off: drop exactly when bad; unknown type: forward; no field changes |
| Security.Adversary.UpdateBehavior | security.py:37-51 | after k suspensions an on-off adversary is "good" for odd k and "bad" for even k; its sleeps alternate 20 and 5; other types keep their state and sleep 100 |
| Security.StateAfterYields | security.py:40-51 | the state at the k-th suspension: an on-off adversary is good exactly at odd k; every other type keeps its starting state |
| Security.DwellOfYield | security.py:44-51 | the sleep after the k-th suspension: 100 for a static attack type; for on-off, 20 exactly when the state just set is "good", and 5 otherwise |
| Security.OnOffDutyCycle | security.py:40-49 | over n full on-off cycles 25n time units pass, of which 5n are in the "bad" state |
| Security.StaticNeverBad | security.py:50-51 | a blackhole or grayhole adversary never leaves the "good" state and is never bad for any time |
| Agent.QLearningAgent.constructor | rl_agent.py:5-29 | every node gets an empty row, so every pair over the nodes reads 0.0; any other state is a KeyError |
| Agent.QValue | rl_agent.py:31-33 | the stored value, or 0.0 for an action never updated; a KeyError exactly when the state has no row |
| Agent.RowMax | rl_agent.py:47-48 | the maximum is at least every neighbour's value, and some neighbour attains it |
| Agent.BestActions | rl_agent.py:51 | the tie list holds exactly the neighbours whose value equals the maximum |
| Agent.QLearningAgent.ChooseAction | rl_agent.py:35-52 | no neighbours: None; otherwise a member of the neighbours; exploring never fails; exploiting returns a maximiser and fails with a KeyError exactly when the current node has no row |
| Agent.LearnStep | rl_agent.py:54-68 | a KeyError exactly for a missing state row, or a missing next-state row when there are next neighbours; otherwise only Q[state][action] changes, and no row is added or removed |
| Agent.QLearningAgent.GetQValue | rl_agent.py:31-33 | a KeyError exactly when the state has no row; otherwise the stored value, or 0.0 |
| Agent.MaxNext | rl_agent.py:62-65 | 0.0 for no next neighbours; otherwise the largest value over them, attained by one of them |
| Agent.TdUpdate | rl_agent.py:67 | the value moved a fraction alpha toward the target: unchanged at alpha 0, the target at alpha 1, and a fixpoint when value and target agree |
| Agent.TdTarget | rl_agent.py:67 | the target reward + gamma * max_next_q: the reward itself at gamma 0 or at a dead end, never below it for gamma >= 0 and non-negative next values, never above it for non-positive ones |
| Agent.TdUpdateBetween | rl_agent.py:67 | for 0 <= alpha <= 1 the updated value lies between the old value and the target |
| Agent.LearnMovesTowardTarget | rl_agent.py:59-68 | the new Q[state][action] lies between its old value and reward + gamma * maxNext, with maxNext 0.0 for no next neighbours |
| Agent.QLearningAgent.Learn | rl_agent.py:54-68 | the table becomes `LearnStep` of the old one; on a KeyError nothing changes; alpha, gamma and epsilon are never touched |
| Routing.CatchNoPath | routing.py:11-15 | the library's path is returned as is, and its no-path exception becomes None |
| Routing.IntelligentRouting.constructor | routing.py:18-20 | the router keeps the graph and the trust model it is given; the trust model is shared, not copied |
| Routing.NoPathAcrossComponents | routing.py:39-43 | from a closed part of the graph to a target outside it, the library strategies answer None |
| Routing.IntelligentRouting.CalculateCost | routing.py:22-37 | the base weight (1 when missing) at trust 1, eleven times it at trust 0, and between the two for trust in [0, 1] |
| Routing.TrustWeightedCost | routing.py:35-37 | base * (1 + 10 * (1 - trust)): the base at trust 1, eleven times it at trust 0 |
| Routing.TrustWeightedCostBounds | routing.py:35-37 | with trust in [0, 1] and base >= 0, the cost lies between base and 11 * base |
| Routing.TrustWeightedCostAntitone | routing.py:35-37 | for base >= 0, more trust never costs more |
| Routing.MaxHops | routing.py:61 | the hop budget is even and at least the number of nodes, and zero only for an empty graph |
| Routing.RLRouting.constructor | routing.py:46-48 | the router keeps the graph and the agent it is given; the agent is shared, so learning is seen by later searches |
| Routing.RLRoute | routing.py:56-84 | the rest of the hop-by-hop loop from a partial path: a route found extends it and ends at the target; with the hop budget spent and the target not reached, None |
| Routing.RLRouteValid | routing.py:56-84 | a route found extends the partial path, ends at the target, follows edges, and is one node long or within twice the node count |
| Routing.RLRouteAcrossComponents | routing.py:50-84 | the hop-by-hop router never returns a path to a target outside the source's closed part of the graph |
| Routing.RLRouting.FindPath | routing.py:50-84 | the loop's result is the route `RLRoute` defines; find_path(s, s) is [s]; a returned path runs from source to target along edges and within the hop bound |
| Delivery.WalkReports | main.py:120-131 | the `update_trust` calls of the walk, one per hop reached: at most one per hop, and at least one when the path has a hop |
| Delivery.WalkEntries | main.py:120-131 | report j of the walk names path[j + 1] and is a delivery exactly when that hop forwards; every hop before the last one reported forwards; a walk that stops early ends with a drop |
| Delivery.WalkShape | main.py:119-131 | the walk reports on path[1], path[2], ... in order; every report but the last is a delivery; it delivers throughout exactly when no hop drops, and otherwise ends with a failure at the first dropping hop |
| Delivery.WalkDeliversIff | main.py:119-132 | the oracle's verdict is true exactly when no hop drops |
| Delivery.WalkLeavesOthers | main.py:120-131 | a node absent from path[1..] keeps its trust entry; this includes the source when the path does not return to it |
| Delivery.Observe | main.py:124-131 | one `update_trust` call when a trust model is present, and none when it is None; a table that replays a list of calls then replays that list plus this call |
| Simulation.HopDrops | main.py:122-123 | a hop drops exactly when the draw exceeds the node's reliability; with no reliability recorded, a draw below 1 never drops |
| Simulation.RealisticDrops | main.py:122-123 | hop j drops exactly when its draw exceeds the reliability of path[j + 1] |
| Simulation.RealisticSimulatePacket | main.py:117-132 | empty path: false and no trust update; otherwise true exactly when no hop drops; the trust table is the old one replayed with the walk's reports |
| Simulation.PathLatency | main.py:47 | the sum of the path's edge weights; non-negative for non-negative weights; for one edge it is that edge's weight |
| Simulation.PathLatencyJoin | main.py:47 | two paths joined at a shared node have the sum of their latencies, so the recursive sum agrees with adding the edge weights left to right |
| Simulation.Reward | main.py:64 | -100 on a drop; on delivery the negated latency, never positive for a non-negative latency |
| Simulation.NextNeighbors | main.py:72 | a node is listed exactly when it is a neighbour of v along a graph edge, and none is listed for a node outside the graph |
| Simulation.Feedback | main.py:68-73 | the feedback loop's table and outcome: learn on each hop in order, stopping at the first KeyError with the earlier updates kept; no row is added or removed |
| Simulation.FeedbackFrame | main.py:68-73 | the feedback changes only the entries of the path's own hops, whether it finishes or stops at a KeyError |
| Simulation.FeedbackTotal | main.py:68-73 | when every node of the path has a row, the feedback never raises |
| Simulation.RLFeedback | main.py:68-73 | the loop calls learn(path[i], path[i+1], reward, path[i+1], neighbours of path[i+1]) for each hop in order; it returns the outcome of `Feedback` and leaves its table, including the updates made before a KeyError |
| Simulation.DeliverAndLearn | main.py:47-73 | one packet's delivery, and feedback with reward -latency on success and -100 on failure; the Q-table and outcome are those of `Feedback`, also on a KeyError |
| AttackSim.PacketType | attack_sim.py:37 | priority 0 is presented as "data", every other priority as "voice" |
| AttackSim.GrayholeDropsOnlyData | attack_sim.py:37 | an active grayhole drops exactly the priority-0 packets |
| AttackSim.SecureDrops | attack_sim.py:34-42 | a hop drops exactly when the node entered is an adversary whose verdict is to drop |
| AttackSim.AdversaryDrops | attack_sim.py:35-38 | a hop drops only into an adversary whose verdict is to drop: never into a non-adversary or an inactive one, always into an active blackhole |
| AttackSim.SecureReports | attack_sim.py:31-46 | the `update_trust` calls of the walk through the adversaries, at most one per hop |
| AttackSim.SecureDeliversIff | attack_sim.py:31-48 | the packet is delivered exactly when no adversary among path[1..] drops it; the source is never asked |
| AttackSim.CleanPathDelivers | attack_sim.py:31-48 | a path with no adversary after the source always delivers, and every hop is credited |
| AttackSim.BlackholeOnPathDrops | attack_sim.py:35-42 | an active blackhole after the source makes the packet fail; the failure is charged to a dropping adversary |
| AttackSim.SecureSimulatePacket | attack_sim.py:27-48 | empty path: false; otherwise true exactly when no adversary after the source drops; the trust table is the old one replayed with the walk's reports; the verdicts are read from the adversaries as the call finds them |

## Left out

- Simulated time is not modelled. This covers simpy's `env.timeout`,
  `env.process` and `env.run`, the `traffic()` and packet-generator processes,
  and the timing statistics of `run_simulation`. `UpdateBehavior` keeps only
  the state changes and the requested sleep lengths of the behaviour process.
  It runs that process to a given number of suspensions, because the process
  itself never ends.
- networkx's `shortest_path` is given as a parameter, its answer. The model
  does not implement Dijkstra. It relies only on this: a returned path is a
  walk from the source to the target.
- Routing.CatchNoPath: the answer has no case for networkx's `NodeNotFound`.
  `shortest_path` raises it when the source or the target is not in the graph.
  The `except nx.NetworkXNoPath` clauses (routing.py:14, 42) do not catch it,
  so it escapes both library strategies. The model does not cover that case.
- network_sim.py is not part of this model. This leaves out topology
  generation, congestion, and the default congestion-based `simulate_packet`.
- `RIPRouting` is not part of this model. dashboard.py imports it, but it is
  defined in none of the files the model covers.
- dashboard.py, visualization.py and qos_sim.py are not modelled. They are
  user interface, plotting and reporting code. Logging and printing are
  dropped too.
- Randomness comes in as parameters, so seeds and reproducibility are not
  modelled. `RLRouting.FindPath` requires at least twice the node count of
  draws and picks. `RealisticSimulatePacket` requires one draw per hop.
- Floating point is not modelled. Scores, Q-values, costs and latencies are
  exact reals, so IEEE rounding is outside the model.
- The empty double loop of `QLearningAgent.__init__` (rl_agent.py:23-29) does
  nothing and has no counterpart.
- Simulation.RealisticSimulatePacket: takes a reliability map for the graph's
  node attributes. It does not model the KeyError that `graph.nodes[v]` raises
  for a node outside the graph.
- Simulation.PathLatency: requires every hop of the path to carry a weight.
  The source raises a KeyError otherwise, and that error is not modelled.
- Routing.RLRouting.FindPath: also keeps the `visited` set, as the source
  does. It is never read, so nothing is proved about it.
