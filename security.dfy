/** The adversary model: a malicious node's forward/drop verdict, and the
    good/bad cycle an on-off adversary runs through. */
module Security {
  import opened Common

  /** The on-off adversary's mode; "good" forwards, "bad" drops. */
  datatype Behaviour = Good | Bad

  /** How long update_behavior sleeps after each state change. */
  const GoodDwell: nat := 20
  const BadDwell: nat := 5
  /** The sleep of the loop for attack types whose state never changes. */
  const StaticDwell: nat := 100

  /** The state an adversary holds once its behaviour process has reached its
      k-th suspension, having started in `start`: an on-off adversary sets
      "good" before every odd suspension and "bad" before every even one;
      every other attack type leaves the state alone. */
  function StateAfterYields(attackType: string, start: Behaviour, k: nat): (s: Behaviour)
    ensures attackType != "on-off" ==> s == start
    ensures attackType == "on-off" && k >= 1 ==> (s.Good? <==> k % 2 == 1)
  {
    if attackType != "on-off" || k == 0 then start
    else if k % 2 == 1 then Good
    else Bad
  }

  /** The sleep that follows the k-th suspension (k >= 1). */
  function DwellOfYield(attackType: string, k: nat): (d: nat)
    requires k >= 1
    ensures attackType != "on-off" ==> d == StaticDwell
    ensures attackType == "on-off" ==> d == GoodDwell || d == BadDwell
    ensures attackType == "on-off" ==> forall start :: (d == GoodDwell <==> StateAfterYields(attackType, start, k).Good?)
  {
    if attackType == "on-off" then (if k % 2 == 1 then GoodDwell else BadDwell) else StaticDwell
  }

  /** Simulated time spent during the first k sleeps. */
  function TotalTime(attackType: string, k: nat): nat {
    if k == 0 then 0 else TotalTime(attackType, k - 1) + DwellOfYield(attackType, k)
  }

  /** Simulated time spent during the first k sleeps in the "bad" state. */
  function BadTime(attackType: string, start: Behaviour, k: nat): nat {
    if k == 0 then 0
    else BadTime(attackType, start, k - 1)
         + (if StateAfterYields(attackType, start, k).Bad? then DwellOfYield(attackType, k) else 0)
  }

  /** Over n full cycles an on-off adversary is bad for 5 of every 25 time units,
      so its long-run drop share is one fifth. */
  lemma {:induction false} OnOffDutyCycle(start: Behaviour, n: nat)
    ensures TotalTime("on-off", 2 * n) == (GoodDwell + BadDwell) * n
    ensures BadTime("on-off", start, 2 * n) == BadDwell * n
  {
    if n > 0 {
      OnOffDutyCycle(start, n - 1);
      assert (2 * n - 1) % 2 == 1 && (2 * n) % 2 == 0;
      assert 2 * n - 2 == 2 * (n - 1);
    }
  }

  /** A blackhole or grayhole adversary is never bad for any time at all, and
      keeps the state it started with. */
  lemma {:induction false} StaticNeverBad(attackType: string, k: nat)
    requires attackType != "on-off"
    ensures BadTime(attackType, Good, k) == 0
    ensures StateAfterYields(attackType, Good, k) == Good
  {
    if k > 0 {
      StaticNeverBad(attackType, k - 1);
    }
  }

  class Adversary {
    const nodeId: Node
    const attackType: string
    var active: bool
    var state: Behaviour

    /** A new adversary is active and starts "good". */
    constructor (nodeId: Node, attackType: string := "blackhole")
      ensures this.nodeId == nodeId && this.attackType == attackType
      ensures active && state == Good
    {
      this.nodeId := nodeId;
      this.attackType := attackType;
      active := true;
      state := Good;
    }

    /** True forwards the packet, false drops it; reading changes nothing. */
    function ProcessPacket(packetType: string := "data"): (forward: bool)
      reads this
      ensures !active ==> forward
      ensures active && attackType == "blackhole" ==> !forward
      ensures active && attackType == "grayhole" ==> (forward <==> packetType != "data")
      ensures active && attackType == "on-off" ==> (forward <==> state.Good?)
      ensures attackType != "blackhole" && attackType != "grayhole" && attackType != "on-off" ==> forward
    {
      if !active then true
      else if attackType == "blackhole" then false
      else if attackType == "grayhole" then (if packetType == "data" then false else true)
      else if attackType == "on-off" then (if state.Bad? then false else true)
      else true
    }

    /** Runs the behaviour process up to its `steps`-th suspension; `dwells`
        are the sleeps it requested, in order. */
    method UpdateBehavior(steps: nat) returns (dwells: seq<nat>)
      modifies this`state
      ensures state == StateAfterYields(attackType, old(state), steps)
      ensures |dwells| == steps
      ensures forall i :: 0 <= i < steps ==> dwells[i] == DwellOfYield(attackType, i + 1)
    {
      dwells := [];
      while |dwells| < steps
        invariant |dwells| <= steps
        invariant state == StateAfterYields(attackType, old(state), |dwells|)
        invariant forall i :: 0 <= i < |dwells| ==> dwells[i] == DwellOfYield(attackType, i + 1)
        invariant attackType == "on-off" ==> |dwells| % 2 == 0 || |dwells| == steps
      {
        if attackType == "on-off" {
          state := Good;
          dwells := dwells + [GoodDwell];
          if |dwells| == steps {
            break;
          }
          state := Bad;
          dwells := dwells + [BadDwell];
        } else {
          dwells := dwells + [StaticDwell];
        }
      }
    }
  }
}
