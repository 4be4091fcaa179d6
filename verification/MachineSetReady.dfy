/** WaitForMachineSet and the node readiness checks: what a passing attempt saw, and of which instant. */
module MachineSetReady {
  import opened ClusterReads

  const RUNNING := "Running"
  const NODE_READY := "Ready"
  const CONDITION_TRUE := "True"

  predicate IsRunning(m: Machine) {
    m.phase == Some(RUNNING)
  }

  function Running(ms: seq<Machine>): seq<Machine> {
    if ms == [] then []
    else Running(ms[..|ms| - 1]) + if IsRunning(ms[|ms| - 1]) then [ms[|ms| - 1]] else []
  }

  method FilterRunningMachines(machines: seq<Machine>) returns (result: seq<Machine>)
    ensures result == Running(machines)
  {
    result := [];
    for i := 0 to |machines|
      invariant result == Running(machines[..i])
    {
      assert machines[..i + 1][..i] == machines[..i];
      if IsRunning(machines[i]) {
        result := result + [machines[i]];
      }
    }
    assert machines[..|machines|] == machines;
  }

  predicate AllRunning(ms: seq<Machine>) {
    forall i :: 0 <= i < |ms| ==> IsRunning(ms[i])
  }

  lemma AllRunningStep(ms: seq<Machine>)
    requires ms != []
    ensures AllRunning(ms) <==> AllRunning(ms[..|ms| - 1]) && IsRunning(ms[|ms| - 1])
  {
    var init := ms[..|ms| - 1];
    if AllRunning(init) && IsRunning(ms[|ms| - 1]) {
      forall i | 0 <= i < |ms|
        ensures IsRunning(ms[i])
      {
        assert i < |init| ==> init[i] == ms[i];
      }
    }
  }

  /** A filter that keeps the length keeps everything: the two lengths agree exactly when every machine is running. */
  lemma {:induction false} SameLengthMeansAllRunning(ms: seq<Machine>)
    ensures |Running(ms)| <= |ms|
    ensures |Running(ms)| == |ms| <==> AllRunning(ms)
    ensures |Running(ms)| == |ms| ==> Running(ms) == ms
  {
    if ms != [] {
      AllRunningStep(ms);
      hide AllRunning, IsRunning;
      SameLengthMeansAllRunning(ms[..|ms| - 1]);
      assert ms == ms[..|ms| - 1] + [ms[|ms| - 1]];
    }
  }

  /** The first Ready condition of the node, if it has one, is true. */
  predicate NodeReady(conditions: seq<Condition>) {
    exists i :: 0 <= i < |conditions| && FirstReady(conditions, i) && conditions[i].status == CONDITION_TRUE
  }

  predicate FirstReady(conditions: seq<Condition>, i: nat)
    requires i < |conditions|
  {
    conditions[i].kind == NODE_READY && forall j :: 0 <= j < i ==> conditions[j].kind != NODE_READY
  }

  method IsNodeReady(node: Node) returns (ready: bool)
    ensures ready <==> NodeReady(node.conditions)
  {
    for i := 0 to |node.conditions|
      invariant forall j :: 0 <= j < i ==> node.conditions[j].kind != NODE_READY
    {
      if node.conditions[i].kind == NODE_READY {
        ready := node.conditions[i].status == CONDITION_TRUE;
        assert FirstReady(node.conditions, i);
        return;
      }
    }
    return false;
  }

  // ---------- WaitForMachineSet ----------

  datatype Outcome = Pass | ListFailed | WrongCount | NotAllRunning | NoNodeRef | NodeUnread | NodeNotReady

  function Machines(items: seq<Item<Machine>>): seq<Machine> {
    seq(|items|, i requires 0 <= i < |items| => items[i].value)
  }

  /** pointer.Int32PtrDerefOr(machineSet.Spec.Replicas, 0). */
  function Deref(replicas: Option<int>): int {
    if replicas.None? then 0 else replicas.value
  }

  /** The node of machine m was read at t and was there and ready. */
  predicate NodeSeenReady(w: World, down: Outages, m: Machine, t: nat) {
    m.nodeRef.Some? &&
    var r := ReadNode(w, down, m.nodeRef.value.name, t);
    r.Found? && NodeReady(r.value.conditions)
  }

  predicate NodesSeenReady(w: World, down: Outages, ms: seq<Machine>, times: seq<nat>) {
    |times| == |ms| && forall i :: 0 <= i < |ms| ==> NodeSeenReady(w, down, ms[i], times[i])
  }

  /** What an attempt that listed items at the outset, and then read the nodes at times, had to see to pass. */
  predicate SawReady(w: World, down: Outages, replicas: Option<int>, items: seq<Item<Machine>>, times: seq<nat>) {
    |items| == Deref(replicas) && AllRunning(Machines(items)) && NodesSeenReady(w, down, Machines(items), times)
  }

  /** The attempt stopped at the first machine without a ready node, with the error that fits what was read at t. */
  predicate Stopped(outcome: Outcome, w: World, down: Outages, ms: seq<Machine>, times: seq<nat>, t: nat) {
    && |times| < |ms|
    && NodesSeenReady(w, down, ms[..|times|], times)
    && var m := ms[|times|];
       match outcome
       case NoNodeRef => m.nodeRef.None?
       case NodeUnread => m.nodeRef.Some? && !ReadNode(w, down, m.nodeRef.value.name, t).Found?
       case NodeNotReady =>
         m.nodeRef.Some? && ReadNode(w, down, m.nodeRef.value.name, t).Found? &&
         !NodeReady(ReadNode(w, down, m.nodeRef.value.name, t).value.conditions)
       case _ => false
  }

  /** The attempt found a wrong count, a machine not running, or, at t, a machine without a ready node. */
  ghost predicate SawFault(w: World, down: Outages, replicas: Option<int>, items: seq<Item<Machine>>, times: seq<nat>,
                           t: nat) {
    || |items| != Deref(replicas)
    || !AllRunning(Machines(items))
    || exists outcome :: Stopped(outcome, w, down, Machines(items), times, t)
  }

  /** The loop over the running machines: it passes exactly when each one's node is read ready, in turn. */
  method NodesOfMachinesReady(c: Client, running: seq<Machine>) returns (outcome: Outcome, ghost times: seq<nat>)
    modifies c
    ensures c.now >= old(c.now) && |times| <= |running|
    ensures forall i :: 0 <= i < |times| ==> old(c.now) <= times[i] <= c.now
    ensures outcome == Pass || Stopped(outcome, c.world, c.down, running, times, c.now)
    ensures outcome == Pass <==> NodesSeenReady(c.world, c.down, running, times)
  {
    times := [];
    for i := 0 to |running|
      invariant |times| == i && c.now >= old(c.now)
      invariant forall j :: 0 <= j < i ==> old(c.now) <= times[j] <= c.now
      invariant forall j :: 0 <= j < i ==> NodeSeenReady(c.world, c.down, running[j], times[j])
    {
      var m := running[i];
      if m.nodeRef.None? {
        return NoNodeRef, times;
      }
      var node := c.GetNode(m.nodeRef.value.name);
      if !node.Found? {
        return NodeUnread, times;
      }
      ghost var at := c.now;
      var ready := IsNodeReady(node.value);
      if !ready {
        return NodeNotReady, times;
      }
      times := times + [at];
    }
    outcome := Pass;
  }

  /**
    One attempt. replicas is the count read from the MachineSet once, before the first attempt. An attempt passes
    exactly when the count is right, every listed machine runs and each one's node is read ready.
   */
  method MachinesReady(c: Client, selector: Labels, replicas: Option<int>)
    returns (outcome: Outcome, ghost t: nat, ghost items: seq<Item<Machine>>, ghost times: seq<nat>)
    modifies c
    ensures old(c.now) <= t <= c.now
    ensures forall i :: 0 <= i < |times| ==> t <= times[i] <= c.now
    ensures outcome == ListFailed <==> c.down(t)
    ensures outcome != ListFailed ==> IsListing(c.world(t), selector, items)
    ensures outcome == Pass <==> !c.down(t) && SawReady(c.world, c.down, replicas, items, times)
    ensures outcome == WrongCount <==> !c.down(t) && |items| != Deref(replicas)
    ensures outcome == NotAllRunning <==>
            !c.down(t) && |items| == Deref(replicas) && !AllRunning(Machines(items))
    ensures outcome in {NoNodeRef, NodeUnread, NodeNotReady} ==>
            |items| == Deref(replicas) && Stopped(outcome, c.world, c.down, Machines(items), times, c.now)
  {
    times, items := [], [];
    var r := c.ListMachines([selector]);
    t := c.now;
    if r.Failed? {
      return ListFailed, t, items, times;
    }
    items := r.value;
    var machines := Machines(r.value);
    SameLengthMeansAllRunning(machines);
    if |machines| != Deref(replicas) {
      return WrongCount, t, items, times;
    }
    var running := FilterRunningMachines(machines);
    if |running| != |machines| {
      return NotAllRunning, t, items, times;
    }
    outcome, times := NodesOfMachinesReady(c, running);
  }

  /** The named MachineSet as it stood at t. */
  function SetAt(w: World, down: Outages, name: string, t: nat): Reply<SetSpec> {
    ReadMachineSet(w, down, Key(MACHINE_API_NAMESPACE, name), t)
  }

  /** An attempt: its listing at t, the node reads at times, and when it ended. */
  datatype Attempt = Attempt(t: nat, items: seq<Item<Machine>>, times: seq<nat>, end: nat)

  /** What attempt a of a wait for the set with that spec saw. */
  ghost predicate Listed(w: World, down: Outages, spec: SetSpec, a: Attempt) {
    && (forall i :: 0 <= i < |a.times| ==> a.t <= a.times[i] <= a.end)
    && (!down(a.t) ==> IsListing(w(a.t), spec.selector, a.items))
  }

  ghost predicate Passed(w: World, down: Outages, spec: SetSpec, a: Attempt) {
    !down(a.t) && SawReady(w, down, spec.replicas, a.items, a.times)
  }

  ghost predicate Faulted(w: World, down: Outages, spec: SetSpec, a: Attempt) {
    down(a.t) || SawFault(w, down, spec.replicas, a.items, a.times, a.end)
  }

  /** The attempts were made one after another. */
  predicate InTurn(attempts: seq<Attempt>, from: nat, to: nat) {
    && (forall i :: 0 <= i < |attempts| ==> from <= attempts[i].t <= attempts[i].end <= to)
    && (forall i, j :: 0 <= i < j < |attempts| ==> attempts[i].end <= attempts[j].t)
  }

  /** The i-th condition of a node is its first Ready condition, and it is true. */
  predicate ShowsReady(conditions: seq<Condition>, i: nat) {
    && i < |conditions| && conditions[i] == Condition("Ready", "True")
    && forall j :: 0 <= j < i ==> conditions[j].kind != "Ready"
  }

  /** On cluster c the set has its machines, all running, each on a node that on cluster d is ready. */
  ghost predicate ReadySet(c: Cluster, d: Cluster, spec: SetSpec) {
    && |Matching(c, spec.selector)| == (match spec.replicas case None => 0 case Some(n) => n)
    && forall k :: k in Matching(c, spec.selector) ==>
         && c.machines[k].phase == Some("Running")
         && c.machines[k].nodeRef.Some? && c.machines[k].nodeRef.value.name in d.nodes
         && exists i :: ShowsReady(d.nodes[c.machines[k].nodeRef.value.name].conditions, i)
  }

  /** From t on no request fails and the set is and stays ready. */
  ghost predicate ReadyForGood(w: World, down: Outages, spec: SetSpec, t: nat) {
    forall u: nat, v: nat :: t <= u <= v ==> !down(v) && ReadySet(w(u), w(v), spec)
  }

  /** An attempt that lists on such a cluster finds no fault. */
  lemma ReadyHasNoFault(w: World, down: Outages, spec: SetSpec, a: Attempt)
    requires a.t <= a.end && Listed(w, down, spec, a) && ReadyForGood(w, down, spec, a.t)
    ensures !Faulted(w, down, spec, a)
  {
    assert ReadySet(w(a.t), w(a.t), spec) && ReadySet(w(a.t), w(a.end), spec);
    ListingCardinality(Matching(w(a.t), spec.selector), a.items);
    forall i | 0 <= i < |a.items|
      ensures IsRunning(Machines(a.items)[i]) && NodeSeenReady(w, down, Machines(a.items)[i], a.end)
    {
      var m := Machines(a.items)[i];
      assert a.items[i].key in Matching(w(a.t), spec.selector);
      var conditions := w(a.end).nodes[m.nodeRef.value.name].conditions;
      var j :| ShowsReady(conditions, j);
      assert FirstReady(conditions, j);
    }
  }

  /**
    The wait reads the set once, at t0, and fails at once if it cannot; every attempt then goes by the selector and the
    replica count read there, and the last one decides. A timeout means that one attempt and then retries more were
    made, that each listing failed or the attempt found a fault, and so that none listed on a cluster that was ready
    for good.
   */
  method WaitForMachineSet(c: Client, name: string, retries: nat)
    returns (ok: bool, ghost t0: nat, ghost attempts: seq<Attempt>)
    modifies c
    ensures old(c.now) <= t0 <= c.now && InTurn(attempts, t0, c.now)
    ensures !SetAt(c.world, c.down, name, t0).Found? ==> !ok && attempts == []
    ensures SetAt(c.world, c.down, name, t0).Found? ==>
              var spec := SetAt(c.world, c.down, name, t0).value;
              && 1 <= |attempts| <= 1 + retries
              && (forall i :: 0 <= i < |attempts| ==> Listed(c.world, c.down, spec, attempts[i]))
              && (forall i :: 0 <= i < |attempts| - 1 ==> Faulted(c.world, c.down, spec, attempts[i]))
              && (ok <==> Passed(c.world, c.down, spec, attempts[|attempts| - 1]))
              && (!ok ==> |attempts| == 1 + retries && Faulted(c.world, c.down, spec, attempts[|attempts| - 1]))
              && (!ok ==> forall i :: 0 <= i < |attempts| ==>
                            !ReadyForGood(c.world, c.down, spec, attempts[i].t))
  {
    hide Listed, Passed, Faulted, ReadyForGood;
    var r := c.GetMachineSet(Key(MACHINE_API_NAMESPACE, name));
    t0, attempts := c.now, [];
    if !r.Found? {
      return false, t0, attempts;
    }
    ghost var a;
    ok, a := Try(c, r.value);
    attempts := [a];
    var left := retries;
    while !ok && left > 0
      invariant t0 <= c.now && |attempts| == 1 + retries - left && InTurn(attempts, t0, c.now)
      invariant forall i :: 0 <= i < |attempts| ==> Listed(c.world, c.down, r.value, attempts[i])
      invariant forall i :: 0 <= i < |attempts| - 1 ==> Faulted(c.world, c.down, r.value, attempts[i])
      invariant ok <==> Passed(c.world, c.down, r.value, attempts[|attempts| - 1])
      invariant ok || Faulted(c.world, c.down, r.value, attempts[|attempts| - 1])
      decreases left
    {
      c.Pause();
      ok, a := Try(c, r.value);
      attempts := attempts + [a];
      left := left - 1;
    }
    if !ok {
      forall i | 0 <= i < |attempts|
        ensures !ReadyForGood(c.world, c.down, r.value, attempts[i].t)
      {
        if ReadyForGood(c.world, c.down, r.value, attempts[i].t) {
          ReadyHasNoFault(c.world, c.down, r.value, attempts[i]);
        }
      }
    }
  }

  method Try(c: Client, spec: SetSpec) returns (ok: bool, ghost a: Attempt)
    modifies c
    ensures old(c.now) <= a.t <= a.end == c.now
    ensures Listed(c.world, c.down, spec, a)
    ensures ok <==> Passed(c.world, c.down, spec, a)
    ensures ok || Faulted(c.world, c.down, spec, a)
  {
    var outcome;
    ghost var t, items, times;
    outcome, t, items, times := MachinesReady(c, spec.selector, spec.replicas);
    a := Attempt(t, items, times, c.now);
    ok := outcome == Pass;
  }

  /**
    A pass speaks of the instant of its listing: then exactly the set's replica count of machines matched, all
    running.
   */
  lemma PassCountsTheCluster(w: World, down: Outages, selector: Labels, replicas: Option<int>,
                           t: nat, items: seq<Item<Machine>>, times: seq<nat>)
    requires IsListing(w(t), selector, items)
    requires SawReady(w, down, replicas, items, times)
    ensures |Matching(w(t), selector)| == match replicas case None => 0 case Some(n) => n
    ensures forall k :: k in Matching(w(t), selector) ==> w(t).machines[k].phase == Some("Running")
  {
    ListingCardinality(Matching(w(t), selector), items);
    forall k | k in Matching(w(t), selector)
      ensures IsRunning(w(t).machines[k])
    {
      assert Lists(items, k);
      var i :| 0 <= i < |items| && items[i].key == k;
      assert IsRunning(Machines(items)[i]);
    }
  }

  predicate NodeReadyAt(c: Cluster, name: string) {
    name in c.nodes && NodeReady(c.nodes[name].conditions)
  }

  ghost predicate MachinesKept(c: Cluster, d: Cluster, selector: Labels) {
    && Matching(d, selector) == Matching(c, selector)
    && forall k :: k in Matching(c, selector) && IsRunning(c.machines[k]) ==>
         && IsRunning(d.machines[k])
         && (c.machines[k].nodeRef.Some? ==> d.machines[k].nodeRef == c.machines[k].nodeRef)
  }

  /** From t to now the same machines match, and one that runs with a node keeps running with that node. */
  ghost predicate MachinesKeep(w: World, selector: Labels, t: nat, now: nat) {
    forall u: nat :: t <= u < now ==> MachinesKept(w(u), w(u + 1), selector)
  }

  /** From t to now a node that is ready stays so. */
  ghost predicate NodesKeepReady(w: World, t: nat, now: nat) {
    forall u: nat, v: nat, name :: t <= u < now && v == u + 1 && NodeReadyAt(w(u), name) ==> NodeReadyAt(w(v), name)
  }

  lemma {:induction false} MachineKeeps(w: World, selector: Labels, k: Key, t: nat, now: nat)
    requires t <= now && MachinesKeep(w, selector, t, now)
    requires k in Matching(w(t), selector) && IsRunning(w(t).machines[k]) && w(t).machines[k].nodeRef.Some?
    ensures k in Matching(w(now), selector) && IsRunning(w(now).machines[k])
    ensures w(now).machines[k].nodeRef == w(t).machines[k].nodeRef
    decreases now - t
  {
    if t < now {
      assert k in Matching(w(t + 1), selector);
      MachineKeeps(w, selector, k, t + 1, now);
    }
  }

  lemma {:induction false} SameMatching(w: World, selector: Labels, t: nat, now: nat)
    requires t <= now && MachinesKeep(w, selector, t, now)
    ensures Matching(w(now), selector) == Matching(w(t), selector)
    decreases now - t
  {
    if t < now {
      SameMatching(w, selector, t + 1, now);
    }
  }

  lemma {:induction false} NodeKeepsReady(w: World, name: string, t: nat, now: nat)
    requires t <= now && NodesKeepReady(w, t, now)
    requires NodeReadyAt(w(t), name)
    ensures NodeReadyAt(w(now), name)
    decreases now - t
  {
    hide NodeReadyAt;
    if t < now {
      NodeKeepsReady(w, name, t + 1, now);
    }
  }

  /**
    An attempt lists once and then reads the nodes one by one, yet if neither machines nor nodes fall back meanwhile,
    at its return the set has its replica count of machines, all running, each on a ready node, at that one instant.
   */
  lemma ReadyTogether(w: World, down: Outages, selector: Labels, replicas: Option<int>,
                      t: nat, items: seq<Item<Machine>>, times: seq<nat>, now: nat)
    requires t <= now && IsListing(w(t), selector, items) && SawReady(w, down, replicas, items, times)
    requires forall i :: 0 <= i < |times| ==> t <= times[i] <= now
    requires MachinesKeep(w, selector, t, now) && NodesKeepReady(w, t, now)
    ensures ReadySet(w(now), w(now), SetSpec(selector, replicas))
  {
    PassCountsTheCluster(w, down, selector, replicas, t, items, times);
    SameMatching(w, selector, t, now);
    forall k | k in Matching(w(t), selector)
      ensures var m := w(now).machines[k];
              IsRunning(m) && m.nodeRef.Some? && NodeReadyAt(w(now), m.nodeRef.value.name)
    {
      assert Lists(items, k);
      var i :| 0 <= i < |items| && items[i].key == k;
      assert NodeSeenReady(w, down, Machines(items)[i], times[i]);
      MachineKeeps(w, selector, k, t, now);
      NodeKeepsReady(w, w(t).machines[k].nodeRef.value.name, times[i], now);
    }
    forall k | k in Matching(w(now), selector)
      ensures exists i :: ShowsReady(w(now).nodes[w(now).machines[k].nodeRef.value.name].conditions, i)
    {
      var conditions := w(now).nodes[w(now).machines[k].nodeRef.value.name].conditions;
      var i :| 0 <= i < |conditions| && FirstReady(conditions, i) && conditions[i].status == CONDITION_TRUE;
      assert ShowsReady(conditions, i);
    }
  }

  // ---------- the nodes of the transient MachineSets ----------

  function Total(nodes: seq<seq<Node>>): nat {
    if nodes == [] then 0 else Total(nodes[..|nodes| - 1]) + |nodes[|nodes| - 1]|
  }

  method NodesAreReady(nodes: seq<Node>) returns (ready: bool)
    ensures ready <==> AllReady(nodes)
  {
    for i := 0 to |nodes|
      invariant forall j :: 0 <= j < i ==> NodeReady(nodes[j].conditions)
    {
      var r := IsNodeReady(nodes[i]);
      if !r {
        return false;
      }
    }
    return true;
  }

  function Flatten(nodes: seq<seq<Node>>): (all: seq<Node>)
    ensures |all| == Total(nodes)
  {
    if nodes == [] then [] else Flatten(nodes[..|nodes| - 1]) + nodes[|nodes| - 1]
  }

  predicate AllReady(nodes: seq<Node>) {
    forall i :: 0 <= i < |nodes| ==> NodeReady(nodes[i].conditions)
  }

  predicate AllListed(listed: seq<Option<seq<Node>>>) {
    forall i :: 0 <= i < |listed| ==> listed[i].Some?
  }

  function Values(listed: seq<Option<seq<Node>>>): seq<seq<Node>>
    requires AllListed(listed)
  {
    seq(|listed|, i requires 0 <= i < |listed| => listed[i].value)
  }

  /** One attempt of the wait of the scale run, given what was listed for each MachineSet (None is an error). */
  method TransientNodesReady(listed: seq<Option<seq<Node>>>) returns (ok: bool)
    ensures ok <==> AllListed(listed) && Total(Values(listed)) == |listed| && AllReady(Flatten(Values(listed)))
  {
    var all: seq<Node> := [];
    for i := 0 to |listed|
      invariant AllListed(listed[..i]) && all == Flatten(Values(listed[..i]))
    {
      if listed[i].None? {
        return false;
      }
      all := all + listed[i].value;
      assert AllListed(listed[..i + 1]);
      assert Values(listed[..i + 1])[..i] == Values(listed[..i]);
    }
    assert listed[..|listed|] == listed;
    if |all| != |listed| {
      return false;
    }
    ok := NodesAreReady(all);
  }

  /** Two ready nodes of one set and none of the next pass for one node each. */
  lemma TotalsHideAnEmptySet(a: Node, b: Node)
    requires NodeReady(a.conditions) && NodeReady(b.conditions)
    ensures var listed := [Some([a, b]), Some([])];
            && AllListed(listed) && Total(Values(listed)) == |listed| && AllReady(Flatten(Values(listed)))
            && Values(listed)[1] == []
  {
    var nodes := Values([Some([a, b]), Some([])]);
    assert nodes[..1] == [[a, b]] && nodes[..1][..0] == [];
    assert Flatten([[a, b]]) == [a, b] && Flatten(nodes) == [a, b];
  }

  /** The wait compares totals: it means one node for each set exactly when no set shows more than one. */
  lemma {:induction false} OneNodeEach(nodes: seq<seq<Node>>)
    requires Total(nodes) == |nodes|
    ensures (forall i :: 0 <= i < |nodes| ==> |nodes[i]| == 1) <==> (forall i :: 0 <= i < |nodes| ==> |nodes[i]| <= 1)
  {
    if forall i :: 0 <= i < |nodes| ==> |nodes[i]| <= 1 {
      forall i | 0 <= i < |nodes|
        ensures |nodes[i]| == 1
      {
        AtMostOneEach(nodes, i);
      }
    }
  }

  lemma {:induction false} AtMostOneEach(nodes: seq<seq<Node>>, k: nat)
    requires k < |nodes|
    requires forall i :: 0 <= i < |nodes| ==> |nodes[i]| <= 1
    ensures Total(nodes) <= |nodes| - 1 + |nodes[k]|
  {
    var init := nodes[..|nodes| - 1];
    assert forall i :: 0 <= i < |init| ==> init[i] == nodes[i];
    if k < |init| {
      AtMostOneEach(init, k);
    } else if init != [] {
      AtMostOneEach(init, 0);
    }
  }
}
