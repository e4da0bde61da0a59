/** Shared vocabulary of the routing simulator: optional values, the errors the
    Python code raises, and the adjacency view of the network graph. */
module Common {

  datatype Option<+T> = None | Some(value: T)

  /** The exceptions the modelled code lets escape. */
  datatype Error =
    | KeyError(key: int)        // a dict subscript of a missing key
    | NodeNotInGraph(node: int) // networkx's error for `neighbors` of an unknown node

  datatype Result<+T> = Ok(value: T) | Err(error: Error)

  datatype Outcome = Pass | Fail(error: Error)

  /** Node identifiers are integers. */
  type Node = int

  /** Adjacency of the networkx graph: each node with its neighbours, in the
      order `graph.neighbors(v)` lists them. */
  type Adjacency = map<Node, seq<Node>>

  /** The `weight` attribute of each edge that carries one. */
  type Weights = map<(Node, Node), real>

  function Min(a: real, b: real): real { if a <= b then a else b }

  function Max(a: real, b: real): real { if a >= b then a else b }

  /** `d.get(k, default)` on a dict of reals. */
  function Lookup(m: map<Node, real>, k: Node, default: real): real {
    if k in m then m[k] else default
  }

  predicate IsEdge(g: Adjacency, u: Node, v: Node) {
    u in g && v in g[u]
  }

  /** Every consecutive pair of `p` is an edge of `g`. */
  predicate IsWalk(g: Adjacency, p: seq<Node>) {
    forall i :: 0 <= i < |p| - 1 ==> IsEdge(g, p[i], p[i + 1])
  }

  /** A walk from `source` to `target`. */
  predicate IsPathBetween(g: Adjacency, p: seq<Node>, source: Node, target: Node) {
    p != [] && p[0] == source && p[|p| - 1] == target && IsWalk(g, p)
  }

  /** No edge leaves the node set `c`: `c` is a union of connected components. */
  ghost predicate Closed(g: Adjacency, c: set<Node>) {
    forall u, v :: u in c && IsEdge(g, u, v) ==> v in c
  }

  /** A walk that starts inside a closed node set never leaves it. */
  lemma {:induction false} WalkStaysInClosed(g: Adjacency, c: set<Node>, p: seq<Node>)
    requires Closed(g, c) && p != [] && p[0] in c && IsWalk(g, p)
    ensures forall i :: 0 <= i < |p| ==> p[i] in c
  {
    if |p| > 1 {
      var q := p[..|p| - 1];
      assert IsWalk(g, q) by {
        forall i | 0 <= i < |q| - 1 ensures IsEdge(g, q[i], q[i + 1]) {
          assert q[i] == p[i] && q[i + 1] == p[i + 1];
        }
      }
      WalkStaysInClosed(g, c, q);
      assert p[|p| - 2] == q[|q| - 1];
      assert IsEdge(g, p[|p| - 2], p[|p| - 1]);
      forall i | 0 <= i < |p| ensures p[i] in c {
        if i < |p| - 1 { assert p[i] == q[i]; }
      }
    }
  }

  /** No walk from inside a closed set reaches a node outside it. */
  lemma NoPathOutOfClosed(g: Adjacency, c: set<Node>, p: seq<Node>, source: Node, target: Node)
    requires Closed(g, c) && source in c && target !in c
    ensures !IsPathBetween(g, p, source, target)
  {
    if IsPathBetween(g, p, source, target) {
      WalkStaysInClosed(g, c, p);
    }
  }
}
