/** The attack scenario's delivery oracle: a packet walks its path and every
    adversary it enters after the source decides whether to forward it. */
module AttackSim {
  import opened Common
  import opened Trust
  import opened Security
  import opened Delivery

  /** How a packet's priority is presented to an adversary: priority 0 is
      data, every other priority is voice. */
  function PacketType(priority: int): (t: string)
    ensures t == "data" || t == "voice"
    ensures t == "data" <==> priority == 0
  {
    if priority == 0 then "data" else "voice"
  }

  /** An active grayhole drops exactly the priority-0 packets. */
  lemma GrayholeDropsOnlyData(a: Adversary, priority: int)
    requires a.active && a.attackType == "grayhole"
    ensures !a.ProcessPacket(PacketType(priority)) <==> priority == 0
  {
  }

  /** The hop into `v` drops the packet exactly when `v` is an adversary
      whose verdict on it is to drop; every other node forwards. */
  function AdversaryDrops(adversaries: map<Node, Adversary>, v: Node, packetType: string): (d: bool)
    reads adversaries.Values
    ensures v !in adversaries ==> !d
    ensures v in adversaries && !adversaries[v].active ==> !d
    ensures v in adversaries && adversaries[v].active && adversaries[v].attackType == "blackhole" ==> d
  {
    v in adversaries && !adversaries[v].ProcessPacket(packetType)
  }

  /** Which hops of the path from hop k on drop, in hop order. */
  function SecureDrops(path: seq<Node>, adversaries: map<Node, Adversary>, packetType: string, k: nat): (drops: seq<bool>)
    reads adversaries.Values
    requires k < |path|
    ensures |drops| == |path| - 1 - k
    ensures forall j :: 0 <= j < |drops| ==> drops[j] == AdversaryDrops(adversaries, path[k + j + 1], packetType)
    decreases |path| - k
  {
    if k == |path| - 1 then []
    else [AdversaryDrops(adversaries, path[k + 1], packetType)] + SecureDrops(path, adversaries, packetType, k + 1)
  }

  /** The walk of a packet of the given priority through the adversaries. */
  function SecureReports(path: seq<Node>, adversaries: map<Node, Adversary>, priority: int): (rs: seq<Report>)
    reads adversaries.Values
    requires path != []
    ensures |rs| <= |path| - 1
  {
    WalkReports(path, SecureDrops(path, adversaries, PacketType(priority), 0), 0)
  }

  /** The packet is delivered exactly when no adversary among path[1..]
      drops it; the source is never asked. */
  lemma SecureDeliversIff(path: seq<Node>, adversaries: map<Node, Adversary>, priority: int)
    requires path != []
    ensures AllForwarded(SecureReports(path, adversaries, priority)) <==>
      forall j :: 1 <= j < |path| ==> !AdversaryDrops(adversaries, path[j], PacketType(priority))
  {
    var drops := SecureDrops(path, adversaries, PacketType(priority), 0);
    WalkDeliversIff(path, drops);
    if forall j :: 0 <= j < |drops| ==> !drops[j] {
      forall j | 1 <= j < |path| ensures !AdversaryDrops(adversaries, path[j], PacketType(priority)) {
        assert drops[j - 1] == AdversaryDrops(adversaries, path[j], PacketType(priority));
      }
    }
  }

  /** A path none of whose nodes after the source is an adversary always
      delivers, and every hop of it is reported as a delivery. */
  lemma CleanPathDelivers(path: seq<Node>, adversaries: map<Node, Adversary>, priority: int)
    requires path != [] && forall j :: 1 <= j < |path| ==> path[j] !in adversaries
    ensures AllForwarded(SecureReports(path, adversaries, priority))
    ensures |SecureReports(path, adversaries, priority)| == |path| - 1
  {
    SecureDeliversIff(path, adversaries, priority);
    WalkShape(path, SecureDrops(path, adversaries, PacketType(priority), 0), 0);
  }

  /** An active blackhole anywhere after the source makes the packet fail,
      and the failure is reported against a dropping adversary. */
  lemma BlackholeOnPathDrops(path: seq<Node>, adversaries: map<Node, Adversary>, priority: int, j: nat)
    requires 1 <= j < |path| && path[j] in adversaries
    requires adversaries[path[j]].active && adversaries[path[j]].attackType == "blackhole"
    ensures var rs := SecureReports(path, adversaries, priority);
      && !AllForwarded(rs)
      && rs != [] && !rs[|rs| - 1].success
      && AdversaryDrops(adversaries, rs[|rs| - 1].node, PacketType(priority))
  {
    var drops := SecureDrops(path, adversaries, PacketType(priority), 0);
    SecureDeliversIff(path, adversaries, priority);
    WalkShape(path, drops, 0);
    var rs := SecureReports(path, adversaries, priority);
    assert !AllForwarded(rs) by {
      assert AdversaryDrops(adversaries, path[j], PacketType(priority));
    }
    assert rs[|rs| - 1].node == path[|rs|];
    assert drops[|rs| - 1] == AdversaryDrops(adversaries, path[|rs|], PacketType(priority));
  }

  /** secure_simulate_packet: walks the path hop by hop, asks each adversary
      entered after the source for its verdict, stops at the first drop, and
      reports each hop it reaches to the trust model, if there is one. The
      verdicts are those of the adversaries as the call finds them; only the
      trust model changes. */
  method SecureSimulatePacket(path: seq<Node>, adversaries: map<Node, Adversary>, trustModel: TrustModel?,
                              priority: int := 0)
    returns (success: bool)
    modifies trustModel
    ensures success <==>
      (path != [] && forall j :: 1 <= j < |path| ==> !old(AdversaryDrops(adversaries, path[j], PacketType(priority))))
    ensures path != [] ==> success == AllForwarded(old(SecureReports(path, adversaries, priority)))
    ensures trustModel != null && path == [] ==> trustModel.nodeTrust == old(trustModel.nodeTrust)
    ensures trustModel != null && path != [] ==>
      trustModel.nodeTrust == Replay(old(trustModel.nodeTrust), trustModel.Params(),
                                     old(SecureReports(path, adversaries, priority)))
  {
    if path == [] {
      return false;
    }
    success := true;
    ghost var drops := SecureDrops(path, adversaries, PacketType(priority), 0);
    ghost var full := WalkReports(path, drops, 0);
    ghost var done: seq<Report> := [];
    ghost var base := if trustModel != null then trustModel.nodeTrust else map[];
    for i := 0 to |path| - 1
      invariant full == done + WalkReports(path, drops, i)
      invariant success && AllForwarded(done)
      invariant trustModel != null ==> trustModel.nodeTrust == Replay(base, trustModel.Params(), done)
    {
      var v := path[i + 1];
      assert drops[i] == AdversaryDrops(adversaries, v, PacketType(priority));
      if v in adversaries {
        var verdict := adversaries[v].ProcessPacket(if priority == 0 then "data" else "voice");
        if !verdict {
          success := false;
          Observe(trustModel, base, done, Report(v, false));
          done := done + [Report(v, false)];
          assert !done[|done| - 1].success;
          break;
        }
      }
      Observe(trustModel, base, done, Report(v, true));
      done := done + [Report(v, true)];
    }
    assert full == done;
    assert old(SecureReports(path, adversaries, priority)) == full;
    assert old(AllForwarded(SecureReports(path, adversaries, priority))) <==>
      forall j :: 1 <= j < |path| ==> !old(AdversaryDrops(adversaries, path[j], PacketType(priority))) by {
      SecureDeliversIff(path, adversaries, priority);
    }
  }
}
