/**
  The pod waits: the termination-pod loop of pkg/infra/spot.go and the workload wait of
  pkg/autoscaler/autoscaler.go.
 */
module PodWaits {
  import opened ClusterReads

  // ---------- the termination-pod loop ----------

  function OnNode(pods: seq<Pod>, node: string): seq<Pod> {
    if pods == [] then []
    else OnNode(pods[..|pods| - 1], node) + if pods[|pods| - 1].nodeName == node then [pods[|pods| - 1]] else []
  }

  /** The variable pods and the closure that appends to it; a listing that fails is None. */
  class Collector {
    const node: string
    var pods: seq<Pod>

    constructor (node: string)
      ensures this.node == node && pods == []
    {
      this.node, this.pods := node, [];
    }

    /** One call of the closure: it reports the accumulated pods, or an error. */
    method Attempt(listing: Option<seq<Pod>>) returns (err: bool)
      modifies this
      ensures err <==> listing.None?
      ensures pods == if listing.None? then old(pods) else old(pods) + OnNode(listing.value, node)
    {
      if listing.None? {
        return true;
      }
      for i := 0 to |listing.value|
        invariant pods == old(pods) + OnNode(listing.value[..i], node)
      {
        assert listing.value[..i + 1][..i] == listing.value[..i];
        if listing.value[i].nodeName == node {
          pods := pods + [listing.value[i]];
        }
      }
      assert listing.value[..|listing.value|] == listing.value;
      return false;
    }
  }

  /**
    Eventually(...).ShouldNot(BeEmpty()) over the listings the timeout leaves room for. The closure appends to one
    variable across attempts, yet what it holds at the end is the filter of the last listing alone, as every earlier
    attempt left it empty.
   */
  method CollectTerminationPods(listings: seq<Option<seq<Pod>>>, node: string)
    returns (ok: bool, pods: seq<Pod>, used: nat)
    requires listings != []
    ensures 1 <= used <= |listings|
    ensures forall i :: 0 <= i < used - 1 ==> listings[i].None? || OnNode(listings[i].value, node) == []
    ensures ok <==> listings[used - 1].Some? && OnNode(listings[used - 1].value, node) != []
    ensures ok ==> pods == OnNode(listings[used - 1].value, node)
    ensures !ok ==> used == |listings| && pods == []
  {
    var c := new Collector(node);
    used, ok := 0, false;
    while !ok && used < |listings|
      invariant 0 <= used <= |listings| && c.node == node
      invariant ok ==> used > 0
      invariant forall i :: 0 <= i < used - 1 ==> listings[i].None? || OnNode(listings[i].value, node) == []
      invariant used > 0 ==> (ok <==> listings[used - 1].Some? && OnNode(listings[used - 1].value, node) != [])
      invariant c.pods == if ok then OnNode(listings[used - 1].value, node) else []
      decreases |listings| - used
    {
      var err := c.Attempt(listings[used]);
      ok := !err && c.pods != [];
      used := used + 1;
    }
    pods := c.pods;
  }

  /** The filter keeps each pod on the node as often as it was listed and nothing else, so it duplicates none. */
  lemma {:induction false} OnNodeKeepsMultiplicity(pods: seq<Pod>, node: string, p: Pod)
    ensures multiset(OnNode(pods, node))[p] == if p.nodeName == node then multiset(pods)[p] else 0
  {
    if pods != [] {
      var init, last := pods[..|pods| - 1], pods[|pods| - 1];
      assert pods == init + [last];
      OnNodeKeepsMultiplicity(init, node, p);
    }
  }

  // ---------- the wait after deleting the workload ----------

  const WORKLOAD := "e2e-autoscaler-workload"

  /** strings.Contains. */
  predicate Contains(s: string, sub: string) {
    exists i | 0 <= i <= |s| :: sub <= s[i..]
  }

  lemma ContainsSplits(s: string, sub: string)
    ensures Contains(s, sub) <==> exists a, b :: s == a + sub + b
  {
    if Contains(s, sub) {
      var i :| 0 <= i <= |s| && sub <= s[i..];
      assert s == s[..i] + sub + s[i + |sub|..];
    }
    if a, b :| s == a + sub + b {
      assert s[|a|..] == sub + b;
    }
  }

  /** A pod belongs to the workload exactly when its name has the workload's name somewhere inside. */
  lemma ContainsMeans(name: string)
    ensures Contains(name, WORKLOAD) <==> exists a, b :: name == a + "e2e-autoscaler-workload" + b
  {
    hide Contains;
    ContainsSplits(name, WORKLOAD);
  }

  predicate ShowsWorkload(names: seq<string>) {
    exists i | 0 <= i < |names| :: Contains(names[i], WORKLOAD)
  }

  datatype WaitResult = Passed | TestFailed | TimedOut

  /** The closure: false when some listed pod belongs to the workload, true otherwise. */
  method WorkloadGone(names: seq<string>) returns (gone: bool)
    ensures gone <==> !ShowsWorkload(names)
  {
    for i := 0 to |names|
      invariant forall j :: 0 <= j < i ==> !Contains(names[j], WORKLOAD)
    {
      if Contains(names[i], WORKLOAD) {
        return false;
      }
    }
    return true;
  }

  /**
    Eventually(...).Should(BeZero()) over a sequence of pod listings, None where the list request fails. BeZero accepts
    false, so the wait passes on the first listing that still shows a workload pod.
   */
  method WaitForWorkload(listings: seq<Option<seq<string>>>) returns (result: WaitResult, used: nat)
    requires listings != []
    ensures 1 <= used <= |listings|
    ensures forall i :: 0 <= i < used - 1 ==> listings[i].Some? && !ShowsWorkload(listings[i].value)
    ensures result == Passed <==> listings[used - 1].Some? && ShowsWorkload(listings[used - 1].value)
    ensures result == TestFailed <==> listings[used - 1].None?
    ensures result == TimedOut ==> used == |listings|
  {
    used, result := 0, TimedOut;
    while result == TimedOut && used < |listings|
      invariant 0 <= used <= |listings|
      invariant result != TimedOut ==> used > 0
      invariant forall i :: 0 <= i < used - 1 ==> listings[i].Some? && !ShowsWorkload(listings[i].value)
      invariant used > 0 ==> (result == Passed <==> listings[used - 1].Some? && ShowsWorkload(listings[used - 1].value))
      invariant used > 0 ==> (result == TestFailed <==> listings[used - 1].None?)
      decreases |listings| - used
    {
      if listings[used].None? {
        result := TestFailed;
      } else {
        var gone := WorkloadGone(listings[used].value);
        if gone == false {
          result := Passed;
        }
      }
      used := used + 1;
    }
  }
}
