/** The hop-by-hop delivery walk both delivery oracles share: the packet goes
    from path[0] along the path, each hop into path[j + 1] either forwards it
    or drops it, the walk stops at the first drop, and every hop it reaches is
    reported to the trust model. */
module Delivery {
  import opened Common
  import opened Trust

  /** The `update_trust` calls of the walk from hop k on. Hop k goes from
      path[k] to path[k + 1]; drops[k] says whether it drops the packet. */
  function WalkReports(path: seq<Node>, drops: seq<bool>, k: nat): (rs: seq<Report>)
    requires k < |path| && |drops| == |path| - 1
    ensures |rs| <= |path| - 1 - k
    ensures k < |path| - 1 ==> rs != []
    decreases |path| - k
  {
    if k == |path| - 1 then []
    else if drops[k] then [Report(path[k + 1], false)]
    else [Report(path[k + 1], true)] + WalkReports(path, drops, k + 1)
  }

  /** Entry j of the walk from hop k reports on path[k + j + 1], as a delivery
      exactly when that hop forwards; all hops but the last one reported
      forward; and a walk that stops short stops at a drop. */
  lemma {:induction false} WalkEntries(path: seq<Node>, drops: seq<bool>, k: nat)
    requires k < |path| && |drops| == |path| - 1
    ensures var rs := WalkReports(path, drops, k);
      && |rs| <= |path| - 1 - k
      && (forall j :: 0 <= j < |rs| ==> rs[j] == Report(path[k + j + 1], !drops[k + j]))
      && (forall j :: 0 <= j < |rs| - 1 ==> rs[j].success)
      && (|rs| < |path| - 1 - k ==> rs != [] && !rs[|rs| - 1].success)
    decreases |path| - k
  {
    if k < |path| - 1 && !drops[k] {
      WalkEntries(path, drops, k + 1);
      var rs := WalkReports(path, drops, k);
      var rest := WalkReports(path, drops, k + 1);
      assert rs == [Report(path[k + 1], true)] + rest;
      forall j | 1 <= j < |rs| ensures rs[j] == Report(path[k + j + 1], !drops[k + j]) {
        assert rs[j] == rest[j - 1];
        assert (k + 1) + (j - 1) == k + j;
      }
      forall j | 1 <= j < |rs| - 1 ensures rs[j].success {
        assert rs[j] == rest[j - 1];
      }
      if |rs| < |path| - 1 - k {
        assert rs[|rs| - 1] == rest[|rest| - 1];
      }
    }
  }

  /** The walk from hop k reports on path[k + 1], path[k + 2], ... in order;
      every report but the last is a delivery through a hop that forwards; it
      delivers throughout exactly when no hop from k on drops, and otherwise
      ends with a failure at the first hop that drops. */
  lemma WalkShape(path: seq<Node>, drops: seq<bool>, k: nat)
    requires k < |path| && |drops| == |path| - 1
    ensures var rs := WalkReports(path, drops, k);
      && |rs| <= |path| - 1 - k
      && (forall j :: 0 <= j < |rs| ==> rs[j].node == path[k + j + 1])
      && (forall j :: 0 <= j < |rs| - 1 ==> rs[j].success && !drops[k + j])
      && (AllForwarded(rs) <==> forall j :: k <= j < |drops| ==> !drops[j])
      && (AllForwarded(rs) ==> |rs| == |path| - 1 - k)
      && (!AllForwarded(rs) ==> rs != [] && !rs[|rs| - 1].success && drops[k + |rs| - 1])
  {
    var rs := WalkReports(path, drops, k);
    WalkEntries(path, drops, k);
    if AllForwarded(rs) {
      forall j | k <= j < |drops| ensures !drops[j] {
        assert rs[j - k].success;
      }
    } else {
      var j :| 0 <= j < |rs| && !rs[j].success;
      assert j == |rs| - 1;
    }
    if forall j :: k <= j < |drops| ==> !drops[j] {
      forall j | 0 <= j < |rs| ensures rs[j].success {
        assert !drops[k + j];
      }
    }
  }

  /** The walk delivers throughout exactly when no hop drops. */
  lemma WalkDeliversIff(path: seq<Node>, drops: seq<bool>)
    requires path != [] && |drops| == |path| - 1
    ensures AllForwarded(WalkReports(path, drops, 0)) <==> forall j :: 0 <= j < |drops| ==> !drops[j]
  {
    WalkShape(path, drops, 0);
  }

  /** A node that does not appear among path[1..] keeps its trust entry, or
      its absence: in particular the source, unless the path comes back to it. */
  lemma WalkLeavesOthers(table: map<Node, real>, p: TrustParams, path: seq<Node>, drops: seq<bool>, n: Node)
    requires path != [] && |drops| == |path| - 1
    requires forall j :: 1 <= j < |path| ==> path[j] != n
    ensures var t := Replay(table, p, WalkReports(path, drops, 0));
      (n in t <==> n in table) && (n in table ==> t[n] == table[n])
  {
    var rs := WalkReports(path, drops, 0);
    WalkShape(path, drops, 0);
    forall j | 0 <= j < |rs| ensures rs[j].node != n {
      assert rs[j].node == path[j + 1];
    }
    ReplayLeavesOthers(table, p, rs, n);
  }

  /** One `update_trust` call when a trust model is present, none otherwise:
      a table that is `base` replayed with `done` becomes `base` replayed with
      `done + [r]`. */
  method Observe(trustModel: TrustModel?, ghost base: map<Node, real>, ghost done: seq<Report>, r: Report)
    requires trustModel != null ==> trustModel.nodeTrust == Replay(base, trustModel.Params(), done)
    modifies trustModel
    ensures trustModel != null ==> trustModel.nodeTrust == Replay(base, trustModel.Params(), done + [r])
  {
    if trustModel != null {
      ReplaySnoc(base, trustModel.Params(), done, r);
      trustModel.UpdateTrust(r.node, r.success);
    }
  }
}
