/** The trust reputation table: a score per node, raised additively (capped at 1)
    on a delivery and lowered multiplicatively (floored at 0) on a drop. */
module Trust {
  import opened Common

  /** The three constants a TrustModel is built with. */
  datatype TrustParams = TrustParams(initialTrust: real, decayFactor: real, bonusFactor: real) {
    /** The ranges under which scores stay in [0, 1]. */
    predicate Valid() {
      0.0 <= initialTrust <= 1.0 && 0.0 <= decayFactor <= 1.0 && bonusFactor >= 0.0
    }
  }

  /** One `update_trust(node, success)` call. */
  datatype Report = Report(node: Node, success: bool)

  /** No call in the sequence reports a drop. */
  predicate AllForwarded(reports: seq<Report>) {
    forall j :: 0 <= j < |reports| ==> reports[j].success
  }

  /** Every score of the table lies in [0, 1]. */
  ghost predicate InUnit(table: map<Node, real>) {
    forall n :: n in table ==> 0.0 <= table[n] <= 1.0
  }

  /** The new score of a node whose score was `current`, after one observation. */
  function ScoreAfter(current: real, success: bool, p: TrustParams): (score: real)
    ensures success ==> score <= 1.0
    ensures !success ==> 0.0 <= score
  {
    if success then Min(1.0, current + p.bonusFactor) else Max(0.0, current * p.decayFactor)
  }

  lemma ScoreAfterInUnit(current: real, success: bool, p: TrustParams)
    requires p.Valid() && 0.0 <= current <= 1.0
    ensures 0.0 <= ScoreAfter(current, success, p) <= 1.0
  {
    if !success {
      DecayShrinks(current, p.decayFactor);
      assert ScoreAfter(current, success, p) == Max(0.0, current * p.decayFactor);
    } else {
      assert ScoreAfter(current, success, p) == Min(1.0, current + p.bonusFactor);
    }
  }

  lemma DecayShrinks(current: real, decay: real)
    requires 0.0 <= current && 0.0 <= decay <= 1.0
    ensures 0.0 <= current * decay <= current
  {
    assert current - current * decay == current * (1.0 - decay);
  }

  /** A success never lowers a score, a failure never raises one. */
  lemma SuccessRaisesFailureLowers(current: real, p: TrustParams)
    requires p.Valid() && 0.0 <= current <= 1.0
    ensures current <= ScoreAfter(current, true, p)
    ensures ScoreAfter(current, false, p) <= current
  {
    DecayShrinks(current, p.decayFactor);
    assert ScoreAfter(current, false, p) == Max(0.0, current * p.decayFactor);
  }

  /** Full trust is a fixpoint of a success. */
  lemma FullTrustIsFixpoint(p: TrustParams)
    requires p.bonusFactor >= 0.0
    ensures ScoreAfter(1.0, true, p) == 1.0
  {
  }

  /** The table after one `update_trust` call: an unseen node first gets the
      initial trust, then the rule is applied to its entry alone. */
  function Updated(table: map<Node, real>, p: TrustParams, r: Report): (t: map<Node, real>)
    ensures t.Keys == table.Keys + {r.node}
    ensures forall n :: n in table && n != r.node ==> t[n] == table[n]
    ensures r.node !in table ==> t[r.node] == ScoreAfter(p.initialTrust, r.success, p)
  {
    table[r.node := ScoreAfter(Lookup(table, r.node, p.initialTrust), r.success, p)]
  }

  /** The table after a sequence of `update_trust` calls, in order: it holds
      the nodes it held before and every node a call names, and a node no
      call names keeps its entry. */
  function Replay(table: map<Node, real>, p: TrustParams, reports: seq<Report>): (t: map<Node, real>)
    ensures t.Keys == table.Keys + (set r | r in reports :: r.node)
    ensures forall n :: n in table && (forall r :: r in reports ==> r.node != n) ==> t[n] == table[n]
    decreases |reports|
  {
    if reports == [] then table
    else
      var init := reports[..|reports| - 1];
      var last := reports[|reports| - 1];
      assert reports == init + [last];
      assert (set r | r in reports :: r.node) == (set r | r in init :: r.node) + {last.node};
      Updated(Replay(table, p, init), p, last)
  }

  lemma ReplaySnoc(table: map<Node, real>, p: TrustParams, reports: seq<Report>, r: Report)
    ensures Replay(table, p, reports + [r]) == Updated(Replay(table, p, reports), p, r)
  {
    assert (reports + [r])[..|reports|] == reports;
  }

  /** Trust bounds: any sequence of observations keeps every score in [0, 1]. */
  lemma {:induction false} ReplayInUnit(table: map<Node, real>, p: TrustParams, reports: seq<Report>)
    requires p.Valid() && InUnit(table)
    ensures InUnit(Replay(table, p, reports))
    decreases |reports|
  {
    if reports != [] {
      var prev := Replay(table, p, reports[..|reports| - 1]);
      ReplayInUnit(table, p, reports[..|reports| - 1]);
      var r := reports[|reports| - 1];
      ScoreAfterInUnit(Lookup(prev, r.node, p.initialTrust), r.success, p);
    }
  }

  /** A node that no observation names keeps its entry, or its absence. */
  lemma {:induction false} ReplayLeavesOthers(table: map<Node, real>, p: TrustParams, reports: seq<Report>, n: Node)
    requires forall j :: 0 <= j < |reports| ==> reports[j].node != n
    ensures var t := Replay(table, p, reports);
      (n in t <==> n in table) && (n in table ==> t[n] == table[n])
    decreases |reports|
  {
    if reports != [] {
      ReplayLeavesOthers(table, p, reports[..|reports| - 1], n);
    }
  }

  class TrustModel {
    var nodeTrust: map<Node, real>
    const initialTrust: real
    const decayFactor: real
    const bonusFactor: real

    constructor (initialTrust: real := 1.0, decayFactor: real := 0.95, bonusFactor: real := 0.05)
      ensures nodeTrust == map[]
      ensures this.initialTrust == initialTrust && this.decayFactor == decayFactor
      ensures this.bonusFactor == bonusFactor
    {
      nodeTrust := map[];
      this.initialTrust := initialTrust;
      this.decayFactor := decayFactor;
      this.bonusFactor := bonusFactor;
    }

    function Params(): TrustParams {
      TrustParams(initialTrust, decayFactor, bonusFactor)
    }

    /** Constants in range and every stored score in [0, 1]. */
    ghost predicate Valid()
      reads this
    {
      Params().Valid() && InUnit(nodeTrust)
    }

    method InitializeNode(node: Node)
      modifies this
      ensures node in old(nodeTrust) ==> nodeTrust == old(nodeTrust)
      ensures node !in old(nodeTrust) ==> nodeTrust == old(nodeTrust)[node := initialTrust]
      ensures old(Valid()) ==> Valid()
    {
      if node !in nodeTrust {
        nodeTrust := nodeTrust[node := initialTrust];
      }
    }

    method UpdateTrust(node: Node, success: bool)
      modifies this
      ensures nodeTrust == Updated(old(nodeTrust), Params(), Report(node, success))
      ensures old(Valid()) ==> Valid()
    {
      if node !in nodeTrust {
        InitializeNode(node);
      }
      var current := nodeTrust[node];
      assert current == Lookup(old(nodeTrust), node, initialTrust);
      if success {
        nodeTrust := nodeTrust[node := Min(1.0, current + bonusFactor)];
      } else {
        nodeTrust := nodeTrust[node := Max(0.0, current * decayFactor)];
      }
      assert nodeTrust[node] == ScoreAfter(current, success, Params());
      if old(Valid()) {
        ScoreAfterInUnit(current, success, Params());
      }
    }

    /** The current score, or the initial trust for a node never observed; reading never inserts. */
    function GetTrust(node: Node): (t: real)
      reads this
      ensures node !in nodeTrust ==> t == initialTrust
      ensures node in nodeTrust ==> t == nodeTrust[node]
      ensures Valid() ==> 0.0 <= t <= 1.0
    {
      Lookup(nodeTrust, node, initialTrust)
    }
  }
}
