/**
  VerifyNodeDraining: a retry closure that keeps the node's name in a captured variable across attempts, and whose
  requests each look at the cluster at an instant of their own.
 */
module NodeDraining {
  import opened ClusterReads

  /** The machine whose node is drained, and the replication controller with the selector of its pods. */
  datatype Target = Target(machine: Key, controller: Key, selector: Labels)

  /** When an attempt made its requests. */
  datatype Instants = Instants(machine: nat, node: nat, pods: nat, status: nat)

  datatype Verdict = Retry | Done | BudgetBroken

  datatype Error = NoError | TimedOut | BudgetNotRespected

  /** int32 subtraction. */
  function Minus(a: Int32, b: Int32): Int32 {
    (a - b + 0x8000_0000) % 0x1_0000_0000 - 0x8000_0000
  }

  // ---------- what an attempt sees ----------

  predicate RefersToNode(m: Machine) {
    m.nodeRef.Some? && m.nodeRef.value.kind == "Node"
  }

  predicate Linked(w: World, down: Outages, q: Target, t: Instants) {
    var r := ReadMachine(w, down, q.machine, t.machine);
    r.Found? && RefersToNode(r.value)
  }

  function NodeName(w: World, down: Outages, q: Target, t: Instants): string
    requires Linked(w, down, q, t)
  {
    ReadMachine(w, down, q.machine, t.machine).value.nodeRef.value.name
  }

  predicate Unschedulable(c: Cluster, node: string) {
    node in c.nodes && c.nodes[node].unschedulable
  }

  /** The selected pods on the node that are not being deleted. */
  function Live(c: Cluster, selector: Labels, node: string): set<Key> {
    set k | k in Selected(c, selector) && c.pods[k].nodeName == node && !c.pods[k].deleting
  }

  /** The attempt got as far as comparing the controller's replica counts. */
  predicate ReachesBudgetCheck(w: World, down: Outages, q: Target, t: Instants) {
    && Linked(w, down, q, t)
    && !down(t.node) && Unschedulable(w(t.node), NodeName(w, down, q, t))
    && !down(t.pods)
    && ReadController(w, down, q.controller, t.status).Found?
  }

  predicate BreaksBudget(w: World, down: Outages, q: Target, t: Instants) {
    ReachesBudgetCheck(w, down, q, t) &&
    var status := ReadController(w, down, q.controller, t.status).value;
    Minus(status.replicas, status.readyReplicas) > 1
  }

  predicate Drained(w: World, down: Outages, q: Target, t: Instants) {
    && ReachesBudgetCheck(w, down, q, t) && !BreaksBudget(w, down, q, t)
    && |Live(w(t.pods), q.selector, NodeName(w, down, q, t))| <= 2
  }

  predicate Between(t: Instants, from: nat, to: nat) {
    from <= t.machine <= t.node <= t.pods <= t.status <= to
  }

  // ---------- a drained node ----------

  /**
    The node is drained as far as the cluster c goes: the machine's node is unschedulable, no selected pod but a and b
    is left on it unless it is being deleted, and the controller misses at most one ready replica.
   */
  predicate Settled(c: Cluster, q: Target, node: string, a: Key, b: Key) {
    && q.machine in c.machines && c.machines[q.machine].nodeRef == Some(NodeRef("Node", node))
    && node in c.nodes && c.nodes[node].unschedulable
    && (forall k :: (k in c.pods && Selects(q.selector, c.pods[k].labels) && c.pods[k].nodeName == node) ==>
          c.pods[k].deleting || k == a || k == b)
    && q.controller in c.controllers
    && c.controllers[q.controller].replicas >= 0 && c.controllers[q.controller].readyReplicas >= 0
    && c.controllers[q.controller].replicas - c.controllers[q.controller].readyReplicas <= 1
  }

  /** From t on it stays so, and no request fails. */
  ghost predicate SettledFrom(w: World, down: Outages, q: Target, node: string, a: Key, b: Key, t: nat) {
    forall u: nat :: t <= u ==> !down(u) && Settled(w(u), q, node, a, b)
  }

  lemma TwoAtMost(s: set<Key>, a: Key, b: Key)
    requires s <= {a, b}
    ensures |s| <= 2
  {
    SubsetCardinality(s, {a, b});
  }

  /** An attempt that begins on such a cluster finds the node drained. */
  lemma SettledIsDrained(w: World, down: Outages, q: Target, node: string, a: Key, b: Key, t: Instants, to: nat)
    requires Between(t, t.machine, to) && SettledFrom(w, down, q, node, a, b, t.machine)
    ensures Drained(w, down, q, t)
  {
    assert Settled(w(t.machine), q, node, a, b) && Settled(w(t.node), q, node, a, b);
    assert Settled(w(t.pods), q, node, a, b) && Settled(w(t.status), q, node, a, b);
    TwoAtMost(Live(w(t.pods), q.selector, node), a, b);
  }

  // ---------- the operations ----------

  ghost function LiveAmong(items: seq<Item<Pod>>, node: string): set<Key> {
    set i | 0 <= i < |items| && items[i].value.nodeName == node && !items[i].value.deleting :: items[i].key
  }

  /** The loop over the listed pods, which the server lists once each. */
  method CountPods(items: seq<Item<Pod>>, node: string) returns (count: nat)
    requires forall i, j :: 0 <= i < j < |items| ==> items[i].key != items[j].key
    ensures count == |LiveAmong(items, node)|
  {
    count := 0;
    assert LiveAmong(items[..0], node) == {};
    for i := 0 to |items|
      invariant count == |LiveAmong(items[..i], node)|
    {
      LiveAmongStep(items, i, node);
      if items[i].value.nodeName != node {
        continue;
      }
      if items[i].value.deleting {
        continue;
      }
      count := count + 1;
    }
    assert items[..|items|] == items;
  }

  lemma LiveAmongStep(items: seq<Item<Pod>>, i: nat, node: string)
    requires i < |items|
    requires forall i, j :: 0 <= i < j < |items| ==> items[i].key != items[j].key
    ensures LiveAmong(items[..i + 1], node) == LiveAmong(items[..i], node) +
              if items[i].value.nodeName == node && !items[i].value.deleting then {items[i].key} else {}
    ensures items[i].key !in LiveAmong(items[..i], node)
  {
    var more, less := items[..i + 1], items[..i];
    assert forall j :: 0 <= j < i ==> more[j] == less[j];
    assert more[i] == items[i];
  }

  lemma ListedLive(c: Cluster, selector: Labels, items: seq<Item<Pod>>, node: string)
    requires IsPodListing(c, selector, items)
    ensures LiveAmong(items, node) == Live(c, selector, node)
  {
    forall k | k in Live(c, selector, node)
      ensures k in LiveAmong(items, node)
    {
      assert Lists(items, k);
    }
  }

  /** drainedNodeName and the retry closure around it. */
  class Drain {
    var drainedNodeName: string

    constructor ()
      ensures drainedNodeName == ""
    {
      drainedNodeName := "";
    }

    method Attempt(c: Client, q: Target) returns (v: Verdict, ghost t: Instants)
      modifies this, c
      ensures c.now >= old(c.now) && Between(t, old(c.now), c.now)
      ensures drainedNodeName ==
              if Linked(c.world, c.down, q, t) then NodeName(c.world, c.down, q, t) else old(drainedNodeName)
      ensures v == BudgetBroken <==> BreaksBudget(c.world, c.down, q, t)
      ensures v == Done <==> Drained(c.world, c.down, q, t)
      ensures v == Done ==> Linked(c.world, c.down, q, t)
    {
      var machine := c.GetMachine(q.machine);
      t := Instants(c.now, c.now, c.now, c.now);
      if !machine.Found? {
        return Retry, t;
      }
      if machine.value.nodeRef.None? || machine.value.nodeRef.value.kind != "Node" {
        return Retry, t;
      }
      drainedNodeName := machine.value.nodeRef.value.name;
      var node := c.GetNode(drainedNodeName);
      t := t.(node := c.now, pods := c.now, status := c.now);
      if !node.Found? {
        return Retry, t;
      }
      if !node.value.unschedulable {
        return Retry, t;
      }
      var pods := c.ListPods(q.selector);
      t := t.(pods := c.now, status := c.now);
      if pods.Failed? {
        return Retry, t;
      }
      var podCounter := CountPods(pods.value, machine.value.nodeRef.value.name);
      ListedLive(c.world(t.pods), q.selector, pods.value, drainedNodeName);
      var controller := c.GetController(q.controller);
      t := t.(status := c.now);
      if !controller.Found? {
        return Retry, t;
      }
      if Minus(controller.value.replicas, controller.value.readyReplicas) > 1 {
        return BudgetBroken, t;
      }
      if podCounter > 2 {
        return Retry, t;
      }
      return Done, t;
    }
  }

  /** The name the closure holds after these attempts: that of the last one that found the machine linked to a node. */
  function NameAfter(w: World, down: Outages, q: Target, attempts: seq<Instants>): string {
    if attempts == [] then ""
    else
      var init, last := attempts[..|attempts| - 1], attempts[|attempts| - 1];
      if Linked(w, down, q, last) then NodeName(w, down, q, last) else NameAfter(w, down, q, init)
  }

  /** The attempts were made one after another. */
  predicate InTurn(attempts: seq<Instants>, from: nat, to: nat) {
    && from <= to
    && (forall i :: 0 <= i < |attempts| ==> Between(attempts[i], from, to))
    && (forall i, j :: 0 <= i < j < |attempts| ==> attempts[i].status <= attempts[j].machine)
  }

  /**
    PollImmediate: one attempt, then up to retries more. All attempts but the last were retried, so in the whole run
    none but the last can have seen the budget broken, and the last decides the error.
   */
  method VerifyNodeDraining(c: Client, q: Target, retries: nat)
    returns (name: string, error: Error, ghost attempts: seq<Instants>)
    modifies c
    ensures 1 <= |attempts| <= 1 + retries && InTurn(attempts, old(c.now), c.now)
    ensures name == NameAfter(c.world, c.down, q, attempts)
    ensures forall i :: 0 <= i < |attempts| - 1 ==>
              !BreaksBudget(c.world, c.down, q, attempts[i]) && !Drained(c.world, c.down, q, attempts[i])
    ensures error == NoError <==> Drained(c.world, c.down, q, attempts[|attempts| - 1])
    ensures error == BudgetNotRespected <==> BreaksBudget(c.world, c.down, q, attempts[|attempts| - 1])
    ensures error == TimedOut ==> |attempts| == 1 + retries
    ensures error != NoError ==> forall i, node, a, b :: 0 <= i < |attempts| ==>
              !SettledFrom(c.world, c.down, q, node, a, b, attempts[i].machine)
    ensures error == NoError ==>
              && Linked(c.world, c.down, q, attempts[|attempts| - 1])
              && name == NodeName(c.world, c.down, q, attempts[|attempts| - 1])
  {
    hide Linked, BreaksBudget, Drained, NodeName;
    var drain := new Drain();
    ghost var t;
    var v;
    v, t := drain.Attempt(c, q);
    attempts := [t];
    var left := retries;
    while v == Retry && left > 0
      invariant |attempts| == 1 + retries - left && InTurn(attempts, old(c.now), c.now)
      invariant drain.drainedNodeName == NameAfter(c.world, c.down, q, attempts)
      invariant forall i :: 0 <= i < |attempts| - 1 ==>
                  !BreaksBudget(c.world, c.down, q, attempts[i]) && !Drained(c.world, c.down, q, attempts[i])
      invariant v == Done <==> Drained(c.world, c.down, q, attempts[|attempts| - 1])
      invariant v == Done ==> Linked(c.world, c.down, q, attempts[|attempts| - 1])
      invariant v == BudgetBroken <==> BreaksBudget(c.world, c.down, q, attempts[|attempts| - 1])
      decreases left
    {
      c.Pause();
      v, t := drain.Attempt(c, q);
      ghost var before := attempts;
      attempts := attempts + [t];
      assert attempts[..|attempts| - 1] == before;
      left := left - 1;
    }
    name := drain.drainedNodeName;
    forall i, node, a, b | 0 <= i < |attempts| && SettledFrom(c.world, c.down, q, node, a, b, attempts[i].machine)
      ensures v == Done
    {
      SettledIsDrained(c.world, c.down, q, node, a, b, attempts[i], c.now);
    }
    error := match v case Done => NoError case BudgetBroken => BudgetNotRespected case Retry => TimedOut;
  }

  // ---------- what a success means ----------

  /** From t to now the node stays unschedulable. */
  ghost predicate StaysUnschedulable(w: World, node: string, t: nat, now: nat) {
    forall u: nat :: t <= u < now && Unschedulable(w(u), node) ==> Unschedulable(w(u + 1), node)
  }

  /** No selected pod comes to be live on the node while the node is unschedulable. */
  ghost predicate BindsOnlyToSchedulable(w: World, selector: Labels, node: string) {
    forall u: nat :: Unschedulable(w(u), node) ==> Live(w(u + 1), selector, node) <= Live(w(u), selector, node)
  }

  lemma {:induction false} KeptUnschedulable(w: World, node: string, t: nat, now: nat)
    requires t <= now && Unschedulable(w(t), node) && StaysUnschedulable(w, node, t, now)
    ensures Unschedulable(w(now), node)
    decreases now - t
  {
    if t < now {
      KeptUnschedulable(w, node, t + 1, now);
    }
  }

  lemma {:induction false} OnlyFewerLive(w: World, selector: Labels, node: string, t: nat, now: nat)
    requires t <= now && Unschedulable(w(t), node) && StaysUnschedulable(w, node, t, now)
    requires BindsOnlyToSchedulable(w, selector, node)
    ensures Live(w(now), selector, node) <= Live(w(t), selector, node)
    decreases now - t
  {
    if t < now {
      OnlyFewerLive(w, selector, node, t + 1, now);
    }
  }

  lemma SubsetCardinality<T>(a: set<T>, b: set<T>)
    requires a <= b
    ensures |a| <= |b|
  {
    assert b == a + (b - a);
  }

  /**
    An attempt reads the node, then the pods, then the controller. If the node stays unschedulable from its read on, and
    pods are bound to schedulable nodes alone, then at return the node is unschedulable with at most two live pods, at
    that one instant.
   */
  lemma DrainedAtReturn(w: World, down: Outages, q: Target, t: Instants, from: nat, now: nat)
    requires Drained(w, down, q, t) && Between(t, from, now)
    requires StaysUnschedulable(w, NodeName(w, down, q, t), t.node, now)
    requires BindsOnlyToSchedulable(w, q.selector, NodeName(w, down, q, t))
    ensures var node := NodeName(w, down, q, t);
            && !down(t.machine) && !down(t.node) && !down(t.pods) && !down(t.status)
            && q.machine in w(t.machine).machines
            && w(t.machine).machines[q.machine].nodeRef == Some(NodeRef("Node", node))
            && node in w(now).nodes && w(now).nodes[node].unschedulable
            && |set k | k in w(now).pods && Selects(q.selector, w(now).pods[k].labels)
                        && w(now).pods[k].nodeName == node && !w(now).pods[k].deleting| <= 2
  {
    var node := NodeName(w, down, q, t);
    KeptUnschedulable(w, node, t.node, now);
    KeptUnschedulable(w, node, t.node, t.pods);
    OnlyFewerLive(w, q.selector, node, t.pods, now);
    SubsetCardinality(Live(w(now), q.selector, node), Live(w(t.pods), q.selector, node));
    assert Live(w(now), q.selector, node) ==
           set k | k in w(now).pods && Selects(q.selector, w(now).pods[k].labels)
                   && w(now).pods[k].nodeName == node && !w(now).pods[k].deleting;
  }

  /**
    The budget check trusts the difference: a wrapped one hides any shortfall that a negative ready count could
    report.
   */
  lemma BudgetCheckMeaning(w: World, down: Outages, q: Target, t: Instants)
    requires ReachesBudgetCheck(w, down, q, t)
    requires ReadController(w, down, q.controller, t.status).value.replicas >= 0
    ensures var status := ReadController(w, down, q.controller, t.status).value;
            BreaksBudget(w, down, q, t) <==> 1 < status.replicas - status.readyReplicas < 0x8000_0000
  {
    var status := ReadController(w, down, q.controller, t.status).value;
    var d: int := (status.replicas as int) - (status.readyReplicas as int);
    assert -0x8000_0000 <= d < 0x1_0000_0000;
    assert d >= 0x8000_0000 ==> (d + 0x8000_0000) % 0x1_0000_0000 == d - 0x8000_0000;
  }
}
