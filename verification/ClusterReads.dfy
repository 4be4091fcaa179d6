/**
  A cluster that changes while it is read: an arbitrary trace of states, an arbitrary set of instants at which requests
  fail, and a client each of whose requests looks at one instant, no earlier than the one before.
 */
module ClusterReads {

  datatype Option<T> = None | Some(value: T)

  type Labels = map<string, string>

  datatype Key = Key(namespace: string, name: string)

  datatype Condition = Condition(kind: string, status: string)

  datatype Node = Node(name: string, conditions: seq<Condition>, unschedulable: bool)

  datatype Pod = Pod(name: string, labels: Labels, nodeName: string, deleting: bool)

  /** The reference in a machine's status: its kind and name. */
  datatype NodeRef = NodeRef(kind: string, name: string)

  datatype Machine = Machine(labels: Labels, phase: Option<string>, nodeRef: Option<NodeRef>)

  type Int32 = n: int | -0x8000_0000 <= n < 0x8000_0000

  /** A replication controller's status. */
  datatype Status = Status(replicas: Int32, readyReplicas: Int32)

  /** What a MachineSet asks for; replicas is a pointer in the source. */
  datatype SetSpec = SetSpec(selector: Labels, replicas: Option<int>)

  datatype Cluster = Cluster(machines: map<Key, Machine>, machineSets: map<Key, SetSpec>, nodes: map<string, Node>,
                             pods: map<Key, Pod>, controllers: map<Key, Status>)

  const NoObjects := Cluster(map[], map[], map[], map[], map[])

  type World = nat -> Cluster

  /** The instants at which a request is answered with an error other than not-found. */
  type Outages = nat -> bool

  const NoOutages: Outages := _ => false

  datatype Reply<T> = Found(value: T) | NotFound | Failed

  const MACHINE_API_NAMESPACE := "openshift-machine-api"

  /** A label selector made of matchLabels. */
  predicate Selects(selector: Labels, labels: Labels) {
    forall k | k in selector :: k in labels && labels[k] == selector[k]
  }

  /** The machines of the machine API namespace that a selector picks. */
  function Matching(c: Cluster, selector: Labels): set<Key> {
    set k | k in c.machines && k.namespace == MACHINE_API_NAMESPACE && Selects(selector, c.machines[k].labels)
  }

  /** Every option sets the one selector of the request, so the last selector given is the one in force. */
  function InForce(selectors: seq<Labels>): Labels {
    if selectors == [] then map[] else selectors[|selectors| - 1]
  }

  /** The machines that all the selectors pick. */
  function MatchingAll(c: Cluster, selectors: seq<Labels>): set<Key> {
    set k | k in Matching(c, map[]) && forall i :: 0 <= i < |selectors| ==> Selects(selectors[i], c.machines[k].labels)
  }

  /**
    Several selectors constrain the listing together, in every cluster, exactly when the last implies each of the
    others.
   */
  lemma LastSelectorDecides(selectors: seq<Labels>)
    ensures (forall c :: Matching(c, InForce(selectors)) == MatchingAll(c, selectors))
       <==> (forall i :: 0 <= i < |selectors| ==> Selects(selectors[i], selectors[|selectors| - 1]))
  {
    var last := InForce(selectors);
    if forall i :: 0 <= i < |selectors| ==> Selects(selectors[i], last) {
      forall c
        ensures Matching(c, last) == MatchingAll(c, selectors)
      {
        assert forall k :: k in MatchingAll(c, selectors) ==> Selects(last, c.machines[k].labels);
      }
    }
    if forall c :: Matching(c, last) == MatchingAll(c, selectors) {
      var k := Key(MACHINE_API_NAMESPACE, "");
      var c := NoObjects.(machines := map[k := Machine(last, None, None)]);
      assert k in Matching(c, last);
      assert k in MatchingAll(c, selectors);
    }
  }

  /** The pods that a selector picks, in any namespace. */
  function Selected(c: Cluster, selector: Labels): set<Key> {
    set k | k in c.pods && Selects(selector, c.pods[k].labels)
  }

  datatype Item<T> = Item(key: Key, value: T)

  ghost predicate Lists<T>(items: seq<Item<T>>, k: Key) {
    exists i :: 0 <= i < |items| && items[i].key == k
  }

  /** items lists the objects with the given keys, each once, in any order. */
  ghost predicate ListsExactly<T>(objects: map<Key, T>, keys: set<Key>, items: seq<Item<T>>) {
    && (forall i :: 0 <= i < |items| ==>
          items[i].key in keys && items[i].key in objects && items[i].value == objects[items[i].key])
    && (forall i, j :: 0 <= i < j < |items| ==> items[i].key != items[j].key)
    && (forall k :: k in keys ==> Lists(items, k))
  }

  /** items lists the machines a selector picks. */
  ghost predicate IsListing(c: Cluster, selector: Labels, items: seq<Item<Machine>>) {
    ListsExactly(c.machines, Matching(c, selector), items)
  }

  /** A listing shows exactly the machines of the machine API namespace that carry every label of the last selector. */
  lemma ListingShows(c: Cluster, selectors: seq<Labels>, items: seq<Item<Machine>>, k: Key)
    requires IsListing(c, InForce(selectors), items)
    ensures Lists(items, k) <==>
            && k in c.machines && k.namespace == "openshift-machine-api"
            && (selectors != [] ==>
                  forall l :: l in selectors[|selectors| - 1] ==>
                    && l in c.machines[k].labels
                    && c.machines[k].labels[l] == selectors[|selectors| - 1][l])
  {
    assert k in Matching(c, InForce(selectors)) ==> Lists(items, k);
  }

  /** items lists the pods a selector picks. */
  ghost predicate IsPodListing(c: Cluster, selector: Labels, items: seq<Item<Pod>>) {
    ListsExactly(c.pods, Selected(c, selector), items)
  }

  lemma {:induction false} ListingCardinality<T>(keys: set<Key>, items: seq<Item<T>>)
    requires forall i :: 0 <= i < |items| ==> items[i].key in keys
    requires forall i, j :: 0 <= i < j < |items| ==> items[i].key != items[j].key
    requires forall k :: k in keys ==> Lists(items, k)
    ensures |keys| == |items|
  {
    if items == [] {
      assert keys == {};
    } else {
      var last := items[|items| - 1].key;
      var fewer := items[..|items| - 1];
      forall k | k in keys - {last}
        ensures Lists(fewer, k)
      {
        var i :| 0 <= i < |items| && items[i].key == k;
        assert fewer[i] == items[i];
      }
      ListingCardinality(keys - {last}, fewer);
    }
  }

  function ReadMachine(w: World, down: Outages, k: Key, t: nat): Reply<Machine> {
    if down(t) then Failed else if k in w(t).machines then Found(w(t).machines[k]) else NotFound
  }

  function ReadMachineSet(w: World, down: Outages, k: Key, t: nat): Reply<SetSpec> {
    if down(t) then Failed else if k in w(t).machineSets then Found(w(t).machineSets[k]) else NotFound
  }

  function ReadNode(w: World, down: Outages, name: string, t: nat): Reply<Node> {
    if down(t) then Failed else if name in w(t).nodes then Found(w(t).nodes[name]) else NotFound
  }

  function ReadController(w: World, down: Outages, k: Key, t: nat): Reply<Status> {
    if down(t) then Failed else if k in w(t).controllers then Found(w(t).controllers[k]) else NotFound
  }

  /** The server's answer to a list request, in any order. */
  method Enumerate<T>(objects: map<Key, T>, keys: set<Key>) returns (items: seq<Item<T>>)
    requires keys <= objects.Keys
    ensures ListsExactly(objects, keys, items)
  {
    var left := keys;
    items := [];
    while left != {}
      invariant left <= keys && ListsExactly(objects, keys - left, items)
      decreases left
    {
      var k :| k in left;
      ghost var before := items;
      items := items + [Item(k, objects[k])];
      left := left - {k};
      forall j | j in keys - left
        ensures Lists(items, j)
      {
        if j == k {
          assert items[|items| - 1].key == k;
        } else {
          assert Lists(before, j);
          var i :| 0 <= i < |before| && before[i].key == j;
          assert items[i] == before[i];
        }
      }
    }
    assert keys - left == keys;
  }

  class Client {
    const world: World
    const down: Outages
    var now: nat

    constructor (world: World, down: Outages, now: nat)
      ensures this.world == world && this.down == down && this.now == now
    {
      this.world, this.down, this.now := world, down, now;
    }

    /** Time passes; the cluster may have changed. */
    method Pause()
      modifies this
      ensures now >= old(now)
    {
      var d: int := *;
      now := now + if d > 0 then d else 0;
    }

    method GetMachine(k: Key) returns (r: Reply<Machine>)
      modifies this
      ensures now >= old(now)
      ensures r == ReadMachine(world, down, k, now)
    {
      Pause();
      r := ReadMachine(world, down, k, now);
    }

    method GetMachineSet(k: Key) returns (r: Reply<SetSpec>)
      modifies this
      ensures now >= old(now)
      ensures r == ReadMachineSet(world, down, k, now)
    {
      Pause();
      r := ReadMachineSet(world, down, k, now);
    }

    method GetNode(name: string) returns (r: Reply<Node>)
      modifies this
      ensures now >= old(now)
      ensures r == ReadNode(world, down, name, now)
    {
      Pause();
      r := ReadNode(world, down, name, now);
    }

    method GetController(k: Key) returns (r: Reply<Status>)
      modifies this
      ensures now >= old(now)
      ensures r == ReadController(world, down, k, now)
    {
      Pause();
      r := ReadController(world, down, k, now);
    }

    /** GetMachines, with any number of selectors. */
    method ListMachines(selectors: seq<Labels>) returns (r: Reply<seq<Item<Machine>>>)
      modifies this
      ensures now >= old(now)
      ensures r.Failed? <==> down(now)
      ensures !r.NotFound?
      ensures r.Found? ==> IsListing(world(now), InForce(selectors), r.value)
    {
      var selector := map[];
      for i := 0 to |selectors|
        invariant selector == InForce(selectors[..i])
      {
        selector := selectors[i];
      }
      assert selectors[..|selectors|] == selectors;
      Pause();
      if down(now) {
        return Failed;
      }
      var items := Enumerate(world(now).machines, Matching(world(now), selector));
      r := Found(items);
    }

    /** The pods a selector picks. */
    method ListPods(selector: Labels) returns (r: Reply<seq<Item<Pod>>>)
      modifies this
      ensures now >= old(now)
      ensures r.Failed? <==> down(now)
      ensures !r.NotFound?
      ensures r.Found? ==> IsPodListing(world(now), selector, r.value)
    {
      Pause();
      if down(now) {
        return Failed;
      }
      var items := Enumerate(world(now).pods, Selected(world(now), selector));
      r := Found(items);
    }
  }
}
