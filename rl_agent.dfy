/** The tabular Q-learning agent: a value per (node, next hop), epsilon-greedy
    next-hop choice and the temporal-difference update. */
module Agent {
  import opened Common

  /** Q[current_node][next_hop]; a missing inner key stands for 0.0. */
  type QTable = map<Node, map<Node, real>>

  /** `get_q_value`: the stored value, 0.0 for an action never updated, and a
      KeyError for a state that has no row. */
  function QValue(q: QTable, state: Node, action: Node): (r: Result<real>)
    ensures r.Err? <==> state !in q
    ensures r.Err? ==> r.error == KeyError(state)
    ensures r.Ok? && action in q[state] ==> r.value == q[state][action]
    ensures r.Ok? && action !in q[state] ==> r.value == 0.0
  {
    if state !in q then Err(KeyError(state)) else Ok(Lookup(q[state], action, 0.0))
  }

  /** `max` of a row's values (0.0 when missing) over a non-empty neighbour list. */
  function RowMax(row: map<Node, real>, ns: seq<Node>): (m: real)
    requires ns != []
    ensures forall n :: n in ns ==> Lookup(row, n, 0.0) <= m
    ensures exists n :: n in ns && Lookup(row, n, 0.0) == m
  {
    if |ns| == 1 then Lookup(row, ns[0], 0.0)
    else
      var rest := RowMax(row, ns[1..]);
      assert forall n :: n in ns ==> n == ns[0] || n in ns[1..];
      Max(Lookup(row, ns[0], 0.0), rest)
  }

  /** The neighbours whose value equals `m`, in neighbour order. */
  function BestActions(row: map<Node, real>, ns: seq<Node>, m: real): (best: seq<Node>)
    ensures forall n :: n in best <==> n in ns && Lookup(row, n, 0.0) == m
  {
    if ns == [] then []
    else
      assert forall n :: n in ns ==> n == ns[0] || n in ns[1..];
      (if Lookup(row, ns[0], 0.0) == m then [ns[0]] else []) + BestActions(row, ns[1..], m)
  }

  /** The temporal-difference target reward + gamma * maxNext. */
  function TdTarget(reward: real, gamma: real, maxNext: real): (t: real)
    ensures gamma == 0.0 || maxNext == 0.0 ==> t == reward
    ensures gamma >= 0.0 && maxNext >= 0.0 ==> t >= reward
    ensures gamma >= 0.0 && maxNext <= 0.0 ==> t <= reward
  {
    reward + gamma * maxNext
  }

  /** The value moved a fraction alpha of the way from `current` to `target`. */
  function TdUpdate(current: real, alpha: real, target: real): (r: real)
    ensures alpha == 0.0 ==> r == current
    ensures alpha == 1.0 ==> r == target
    ensures current == target ==> r == current
  {
    current + alpha * (target - current)
  }

  /** With 0 <= alpha <= 1 the new value lies between the old value and the target. */
  lemma TdUpdateBetween(current: real, alpha: real, target: real)
    requires 0.0 <= alpha <= 1.0
    ensures Min(current, target) <= TdUpdate(current, alpha, target) <= Max(current, target)
  {
    var d := target - current;
    assert TdUpdate(current, alpha, target) == current + alpha * d;
    if d >= 0.0 {
      FractionWithin(alpha, d);
    } else {
      FractionWithin(alpha, -d);
      assert alpha * d == -(alpha * (-d));
    }
  }

  lemma FractionWithin(alpha: real, d: real)
    requires 0.0 <= alpha <= 1.0 && d >= 0.0
    ensures 0.0 <= alpha * d <= d
  {
    MulNonNegative(alpha, d);
    MulNonNegative(1.0 - alpha, d);
    assert d - alpha * d == (1.0 - alpha) * d;
  }

  lemma MulNonNegative(x: real, y: real)
    requires x >= 0.0 && y >= 0.0
    ensures x * y >= 0.0
  {
  }

  /** The largest value over the next state's listed actions; 0.0 for a dead end. */
  function MaxNext(q: QTable, nextState: Node, nextNeighbors: seq<Node>): (m: real)
    requires nextNeighbors != [] ==> nextState in q
    ensures nextNeighbors == [] ==> m == 0.0
    ensures forall n :: n in nextNeighbors ==> Lookup(q[nextState], n, 0.0) <= m
    ensures nextNeighbors != [] ==> exists n :: n in nextNeighbors && Lookup(q[nextState], n, 0.0) == m
  {
    if nextNeighbors == [] then 0.0 else RowMax(q[nextState], nextNeighbors)
  }

  /** `learn` on a table: the new table, or the KeyError raised before any change. */
  function LearnStep(q: QTable, alpha: real, gamma: real, state: Node, action: Node, reward: real,
                     nextState: Node, nextNeighbors: seq<Node>): (r: Result<QTable>)
    ensures r.Err? <==> state !in q || (nextNeighbors != [] && nextState !in q)
    ensures r.Ok? ==> r.value.Keys == q.Keys
    ensures r.Ok? ==> r.value[state].Keys == q[state].Keys + {action}
    ensures r.Ok? ==> forall s, a :: (s, a) != (state, action) ==> QValue(r.value, s, a) == QValue(q, s, a)
  {
    if state !in q then Err(KeyError(state))
    else if nextNeighbors != [] && nextState !in q then Err(KeyError(nextState))
    else
      var current := Lookup(q[state], action, 0.0);
      var target := TdTarget(reward, gamma, MaxNext(q, nextState, nextNeighbors));
      Ok(q[state := q[state][action := TdUpdate(current, alpha, target)]])
  }

  /** The updated entry moves toward the target from the old value, never past it. */
  lemma LearnMovesTowardTarget(q: QTable, alpha: real, gamma: real, state: Node, action: Node, reward: real,
                               nextState: Node, nextNeighbors: seq<Node>)
    requires 0.0 <= alpha <= 1.0
    requires state in q && (nextNeighbors != [] ==> nextState in q)
    ensures var r := LearnStep(q, alpha, gamma, state, action, reward, nextState, nextNeighbors);
      var old_ := Lookup(q[state], action, 0.0);
      var target := TdTarget(reward, gamma, MaxNext(q, nextState, nextNeighbors));
      r.Ok? && Min(old_, target) <= r.value[state][action] <= Max(old_, target)
  {
    var old_ := Lookup(q[state], action, 0.0);
    var target := TdTarget(reward, gamma, MaxNext(q, nextState, nextNeighbors));
    TdUpdateBetween(old_, alpha, target);
  }

  class QLearningAgent {
    const alpha: real
    const gamma: real
    /** Reassigned by the driver between the training and the testing phase. */
    var epsilon: real
    const nodes: seq<Node>
    var qTable: QTable

    /** Every node of `nodes` gets an empty row, so every pair over them reads 0.0. */
    constructor (nodes: seq<Node>, alpha: real := 0.1, gamma: real := 0.9, epsilon: real := 0.1)
      ensures this.nodes == nodes && this.alpha == alpha && this.gamma == gamma && this.epsilon == epsilon
      ensures qTable.Keys == set n | n in nodes
      ensures forall n :: n in qTable ==> qTable[n] == map[]
      ensures forall s, a :: s in nodes ==> QValue(qTable, s, a) == Ok(0.0)
      ensures forall s, a :: s !in nodes ==> QValue(qTable, s, a) == Err(KeyError(s))
    {
      this.alpha := alpha;
      this.gamma := gamma;
      this.epsilon := epsilon;
      this.nodes := nodes;
      qTable := map n | n in nodes :: map[];
    }

    function GetQValue(state: Node, action: Node): (r: Result<real>)
      reads this
      ensures r.Err? <==> state !in qTable
      ensures r.Err? ==> r.error == KeyError(state)
      ensures r.Ok? ==> r.value == Lookup(qTable[state], action, 0.0)
    {
      QValue(qTable, state, action)
    }

    /** Epsilon-greedy choice. `draw` is the `random.random()` value; `pick`
        stands for `random.choice`, which takes element `pick % len` of its list. */
    function ChooseAction(current: Node, neighbors: seq<Node>, draw: real, pick: nat): (r: Result<Option<Node>>)
      reads this
      ensures neighbors == [] ==> r == Ok(None)
      ensures neighbors != [] && r.Ok? ==> r.value.Some? && r.value.value in neighbors
      ensures neighbors != [] && draw < epsilon ==> r.Ok?
      ensures neighbors != [] && draw >= epsilon ==> (r.Ok? <==> current in qTable)
      ensures neighbors != [] && draw >= epsilon && r.Ok? ==>
        forall n :: n in neighbors ==> Lookup(qTable[current], n, 0.0) <= Lookup(qTable[current], r.value.value, 0.0)
      ensures r.Err? ==> r.error == KeyError(current)
    {
      if neighbors == [] then Ok(None)
      else if draw < epsilon then
        var chosen := neighbors[pick % |neighbors|];
        assert chosen in neighbors;
        Ok(Some(chosen))
      else if current !in qTable then Err(KeyError(current))
      else
        var row := qTable[current];
        var maxQ := RowMax(row, neighbors);
        var best := BestActions(row, neighbors, maxQ);
        assert best != [] by {
          var w :| w in neighbors && Lookup(row, w, 0.0) == maxQ;
          assert w in best;
        }
        var chosen := best[pick % |best|];
        assert chosen in best;
        assert chosen in neighbors && Lookup(row, chosen, 0.0) == maxQ;
        Ok(Some(chosen))
    }

    /** The update rule; only Q[state][action] changes, and nothing at all on a KeyError. */
    method Learn(state: Node, action: Node, reward: real, nextState: Node, nextNeighbors: seq<Node>)
      returns (r: Outcome)
      modifies this`qTable
      ensures match LearnStep(old(qTable), alpha, gamma, state, action, reward, nextState, nextNeighbors)
        case Ok(t) => r == Pass && qTable == t
        case Err(e) => r == Fail(e) && qTable == old(qTable)
    {
      var currentQ := GetQValue(state, action);
      if currentQ.Err? {
        return Fail(currentQ.error);
      }
      var maxNextQ := 0.0;
      if nextNeighbors != [] {
        if nextState !in qTable {
          return Fail(KeyError(nextState));
        }
        maxNextQ := RowMax(qTable[nextState], nextNeighbors);
      }
      assert maxNextQ == MaxNext(qTable, nextState, nextNeighbors);
      var newQ := currentQ.value + alpha * (reward + gamma * maxNextQ - currentQ.value);
      assert newQ == TdUpdate(Lookup(qTable[state], action, 0.0), alpha, TdTarget(reward, gamma, maxNextQ));
      qTable := qTable[state := qTable[state][action := newQ]];
      r := Pass;
    }
  }
}
