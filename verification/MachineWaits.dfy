/** WaitForMachineDelete and WaitForMachineSetDelete on a cluster that changes between their reads. */
module MachineWaits {
  import opened ClusterReads

  // ---------- WaitForMachineDelete ----------

  /** A pass that read every machine, the i-th at times[i], and found each missing. */
  predicate SawAllMissing(w: World, down: Outages, machines: seq<Key>, times: seq<nat>) {
    |times| == |machines| && forall i :: 0 <= i < |times| ==> ReadMachine(w, down, machines[i], times[i]) == NotFound
  }

  /** A pass that stopped at the first machine not reported missing. */
  predicate SawOneLeft(w: World, down: Outages, machines: seq<Key>, times: seq<nat>) {
    && 0 < |times| <= |machines|
    && (forall i :: 0 <= i < |times| - 1 ==> ReadMachine(w, down, machines[i], times[i]) == NotFound)
    && ReadMachine(w, down, machines[|times| - 1], times[|times| - 1]) != NotFound
  }

  predicate Within(times: seq<nat>, from: nat, to: nat) {
    && (forall i :: 0 <= i < |times| ==> from <= times[i] <= to)
    && (forall i, j :: 0 <= i < j < |times| ==> times[i] <= times[j])
  }

  /** From t on, no listed machine exists and no request fails. */
  ghost predicate GoneForGood(w: World, down: Outages, machines: seq<Key>, t: nat) {
    forall u: nat, i :: t <= u && 0 <= i < |machines| ==> !down(u) && machines[i] !in w(u).machines
  }

  method MachinesMissing(c: Client, machines: seq<Key>) returns (ok: bool, ghost times: seq<nat>)
    modifies c
    ensures c.now >= old(c.now) && Within(times, old(c.now), c.now)
    ensures if ok then SawAllMissing(c.world, c.down, machines, times) else SawOneLeft(c.world, c.down, machines, times)
    ensures GoneForGood(c.world, c.down, machines, old(c.now)) ==> ok
  {
    times := [];
    for i := 0 to |machines|
      invariant c.now >= old(c.now) && Within(times, old(c.now), c.now)
      invariant |times| == i
      invariant forall j :: 0 <= j < i ==> ReadMachine(c.world, c.down, machines[j], times[j]) == NotFound
    {
      var r := c.GetMachine(machines[i]);
      times := times + [c.now];
      if r != NotFound {
        return false, times;
      }
    }
    return true, times;
  }

  /** A pass: when it began, when it made its reads, and when it ended. */
  datatype Pass = Pass(start: nat, times: seq<nat>, end: nat)

  /** The passes were made one after another. */
  predicate InTurn(passes: seq<Pass>, from: nat, to: nat) {
    && (forall i :: 0 <= i < |passes| ==> from <= passes[i].start <= passes[i].end <= to)
    && (forall i :: 0 <= i < |passes| ==> Within(passes[i].times, passes[i].start, passes[i].end))
    && (forall i, j :: 0 <= i < j < |passes| ==> passes[i].end <= passes[j].start)
  }

  lemma NotSettled(w: World, down: Outages, machines: seq<Key>, pass: Pass)
    requires SawOneLeft(w, down, machines, pass.times) && Within(pass.times, pass.start, pass.end)
    ensures !GoneForGood(w, down, machines, pass.start)
  {
    var n := |pass.times| - 1;
    assert pass.times[n] >= pass.start && ReadMachine(w, down, machines[n], pass.times[n]) != NotFound;
  }

  /**
    The Eventually loop: one pass, then up to retries more, and the last decides. A timeout means that all of them were
    made, that each found some machine not reported missing, and so that none began in a settled cluster. The call
    returns some time after its last read.
   */
  method WaitForMachineDelete(c: Client, machines: seq<Key>, retries: nat) returns (ok: bool, ghost passes: seq<Pass>)
    modifies c
    ensures 1 <= |passes| <= 1 + retries && InTurn(passes, old(c.now), c.now)
    ensures forall i :: 0 <= i < |passes| - 1 ==> SawOneLeft(c.world, c.down, machines, passes[i].times)
    ensures if ok then SawAllMissing(c.world, c.down, machines, passes[|passes| - 1].times)
            else SawOneLeft(c.world, c.down, machines, passes[|passes| - 1].times)
    ensures !ok ==> |passes| == 1 + retries
    ensures !ok ==> forall i :: 0 <= i < |passes| ==> !GoneForGood(c.world, c.down, machines, passes[i].start)
  {
    hide SawAllMissing, SawOneLeft, GoneForGood, Within;
    ghost var times;
    ghost var start := c.now;
    ok, times := MachinesMissing(c, machines);
    passes := [Pass(start, times, c.now)];
    var left := retries;
    while !ok && left > 0
      invariant |passes| == 1 + retries - left && InTurn(passes, old(c.now), c.now)
      invariant forall i :: 0 <= i < |passes| - 1 ==> SawOneLeft(c.world, c.down, machines, passes[i].times)
      invariant if ok then SawAllMissing(c.world, c.down, machines, passes[|passes| - 1].times)
                else SawOneLeft(c.world, c.down, machines, passes[|passes| - 1].times)
      decreases left
    {
      c.Pause();
      start := c.now;
      ok, times := MachinesMissing(c, machines);
      passes := passes + [Pass(start, times, c.now)];
      left := left - 1;
    }
    c.Pause();
    if !ok {
      forall i | 0 <= i < |passes|
        ensures !GoneForGood(c.world, c.down, machines, passes[i].start)
      {
        NotSettled(c.world, c.down, machines, passes[i]);
      }
    }
  }

  /** At no instant from t up to now does k come into being. */
  ghost predicate NotCreated(w: World, k: Key, t: nat, now: nat) {
    forall u: nat :: t <= u < now && k !in w(u).machines ==> k !in w(u + 1).machines
  }

  lemma {:induction false} StaysMissing(w: World, k: Key, t: nat, now: nat)
    requires t <= now
    requires k !in w(t).machines
    requires NotCreated(w, k, t, now)
    ensures k !in w(now).machines
    decreases now - t
  {
    if t < now {
      StaysMissing(w, k, t + 1, now);
    }
  }

  /**
    A successful pass read one machine at a time, yet with no name reused all machines are missing together at its
    return.
   */
  lemma MissingTogether(w: World, down: Outages, machines: seq<Key>, times: seq<nat>, from: nat, now: nat)
    requires SawAllMissing(w, down, machines, times) && Within(times, from, now)
    requires forall i :: 0 <= i < |machines| ==> NotCreated(w, machines[i], times[i], now)
    ensures forall i :: 0 <= i < |machines| ==> machines[i] !in w(now).machines
  {
    forall i | 0 <= i < |machines|
      ensures machines[i] !in w(now).machines
    {
      StaysMissing(w, machines[i], times[i], now);
    }
  }

  /** A machine that takes turns with another: at even instants the first exists, at odd ones the second. */
  function Alternating(a: Key, b: Key, m: Machine): World {
    (t: nat) => NoObjects.(machines := if t % 2 == 0 then map[a := m] else map[b := m])
  }

  /** Without that assumption a pass can succeed although at every instant one of the machines exists. */
  lemma ReusedNamesDefeatThePass(a: Key, b: Key, m: Machine)
    requires a != b
    ensures SawAllMissing(Alternating(a, b, m), NoOutages, [a, b], [1, 2])
    ensures forall t: nat :: a in Alternating(a, b, m)(t).machines || b in Alternating(a, b, m)(t).machines
  {
  }

  predicate AllMissing(w: World, machines: seq<Key>, t: nat) {
    forall i :: 0 <= i < |machines| ==> machines[i] !in w(t).machines
  }

  /** In every trace, whatever names are reused, after a successful pass all machines were missing at one instant. */
  ghost predicate PassFindsAnInstant(machines: seq<Key>) {
    forall w: World, down: Outages, times: seq<nat>, from: nat, now: nat ::
      from <= now && Within(times, from, now) && SawAllMissing(w, down, machines, times) ==>
        exists t :: from <= t <= now && AllMissing(w, machines, t)
  }

  /** At instant t every listed machine exists but the t-th. */
  function AllButOne(machines: seq<Key>): World {
    (t: nat) => NoObjects.(machines :=
      map k | k in machines && (t < |machines| ==> k != machines[t]) :: Machine(map[], None, None))
  }

  /** That holds exactly when the pass is about one machine, as it is at every call in the repository. */
  lemma InstantExactlyForOneMachine(machines: seq<Key>)
    ensures PassFindsAnInstant(machines) <==>
            forall i, j :: 0 <= i < |machines| && 0 <= j < |machines| ==> machines[i] == machines[j]
  {
    if forall i, j :: 0 <= i < |machines| && 0 <= j < |machines| ==> machines[i] == machines[j] {
      forall w: World, down: Outages, times: seq<nat>, from: nat, now: nat
        | from <= now && Within(times, from, now) && SawAllMissing(w, down, machines, times)
        ensures exists t :: from <= t <= now && AllMissing(w, machines, t)
      {
        var t := if machines == [] then from else times[0];
        assert machines != [] ==> ReadMachine(w, down, machines[0], t) == NotFound;
        assert AllMissing(w, machines, t);
      }
    } else {
      var i, j :| 0 <= i < |machines| && 0 <= j < |machines| && machines[i] != machines[j];
      DistinctMachinesTakeTurns(machines, i, j);
    }
  }

  lemma AllButOneAt(machines: seq<Key>, t: nat, k: nat)
    requires t < |machines| && k < |machines|
    ensures machines[k] in AllButOne(machines)(t).machines <==> machines[k] != machines[t]
  {
  }

  lemma TurnsPass(machines: seq<Key>)
    requires machines != []
    ensures Within(seq(|machines|, i => i), 0, |machines| - 1)
    ensures SawAllMissing(AllButOne(machines), NoOutages, machines, seq(|machines|, i => i))
  {
    hide AllButOne;
    forall t: nat | t < |machines|
      ensures ReadMachine(AllButOne(machines), NoOutages, machines[t], t) == NotFound
    {
      AllButOneAt(machines, t, t);
    }
  }

  lemma DistinctMachinesTakeTurns(machines: seq<Key>, i: nat, j: nat)
    requires i < |machines| && j < |machines| && machines[i] != machines[j]
    ensures !PassFindsAnInstant(machines)
  {
    hide AllButOne, Within, SawAllMissing;
    var w, times := AllButOne(machines), seq(|machines|, i => i);
    TurnsPass(machines);
    forall t: nat | t < |machines|
      ensures !AllMissing(w, machines, t)
    {
      AllButOneAt(machines, t, if machines[i] != machines[t] then i else j);
    }
    assert Within(times, 0, |machines| - 1) && SawAllMissing(w, NoOutages, machines, times);
  }

  // ---------- WaitForMachineSetDelete ----------

  /** The list at t saw no matching machine. */
  ghost predicate SawNoMachines(w: World, down: Outages, selector: Labels, t: nat) {
    !down(t) && Matching(w(t), selector) == {}
  }

  /** One pass: list the machines, then get the MachineSet. */
  method MachineSetMissing(c: Client, key: Key, selector: Labels) returns (ok: bool, ghost t1: nat, ghost t2: nat)
    modifies c
    ensures old(c.now) <= t1 <= t2 <= c.now
    ensures ok <==>
            SawNoMachines(c.world, c.down, selector, t1) && ReadMachineSet(c.world, c.down, key, t2) == NotFound
  {
    var machines := c.ListMachines([selector]);
    t1, t2 := c.now, c.now;
    if machines.Failed? || machines.value != [] {
      assert !machines.Failed? ==> machines.value[0].key in Matching(c.world(t1), selector);
      return false, t1, t2;
    }
    var r := c.GetMachineSet(key);
    t2 := c.now;
    return r == NotFound, t1, t2;
  }

  /** When a pass listed the machines and when it got the set. */
  datatype Reads = Reads(list: nat, get: nat)

  ghost predicate SawBothGone(w: World, down: Outages, key: Key, selector: Labels, r: Reads) {
    SawNoMachines(w, down, selector, r.list) && ReadMachineSet(w, down, key, r.get) == NotFound
  }

  /** From t on no request fails, the set is missing and no machine of the machine API namespace matches. */
  ghost predicate BothGoneForGood(w: World, down: Outages, key: Key, selector: Labels, t: nat) {
    forall u: nat :: t <= u ==>
      && !down(u) && key !in w(u).machineSets
      && forall k :: k in w(u).machines && k.namespace == "openshift-machine-api" ==>
           !Selects(selector, w(u).machines[k].labels)
  }

  lemma SettledIsSeen(w: World, down: Outages, key: Key, selector: Labels, r: Reads)
    requires r.list <= r.get && BothGoneForGood(w, down, key, selector, r.list)
    ensures SawBothGone(w, down, key, selector, r)
  {
  }

  /** One pass after another, each listing before it gets. */
  predicate ReadInTurn(passes: seq<Reads>, from: nat, to: nat) {
    && (forall i :: 0 <= i < |passes| ==> from <= passes[i].list <= passes[i].get <= to)
    && (forall i, j :: 0 <= i < j < |passes| ==> passes[i].get <= passes[j].list)
  }

  /**
    The wait: one pass, then up to retries more, and the last decides. A timeout means that all of them were made, that
    none saw both gone, and so that none listed in a settled cluster.
   */
  method WaitForMachineSetDelete(c: Client, key: Key, selector: Labels, retries: nat)
    returns (ok: bool, ghost passes: seq<Reads>)
    modifies c
    ensures 1 <= |passes| <= 1 + retries && ReadInTurn(passes, old(c.now), c.now)
    ensures forall i :: 0 <= i < |passes| - 1 ==> !SawBothGone(c.world, c.down, key, selector, passes[i])
    ensures ok <==> SawBothGone(c.world, c.down, key, selector, passes[|passes| - 1])
    ensures !ok ==> |passes| == 1 + retries
    ensures !ok ==> forall i :: 0 <= i < |passes| ==>
                      !BothGoneForGood(c.world, c.down, key, selector, passes[i].list)
  {
    hide SawNoMachines, BothGoneForGood;
    ghost var t1, t2;
    ok, t1, t2 := MachineSetMissing(c, key, selector);
    passes := [Reads(t1, t2)];
    var left := retries;
    while !ok && left > 0
      invariant |passes| == 1 + retries - left && ReadInTurn(passes, old(c.now), c.now)
      invariant forall i :: 0 <= i < |passes| - 1 ==> !SawBothGone(c.world, c.down, key, selector, passes[i])
      invariant ok <==> SawBothGone(c.world, c.down, key, selector, passes[|passes| - 1])
      decreases left
    {
      c.Pause();
      ok, t1, t2 := MachineSetMissing(c, key, selector);
      passes := passes + [Reads(t1, t2)];
      left := left - 1;
    }
    c.Pause();
    forall i | 0 <= i < |passes| && BothGoneForGood(c.world, c.down, key, selector, passes[i].list)
      ensures ok
    {
      SettledIsSeen(c.world, c.down, key, selector, passes[i]);
    }
  }

  /** No machine starts to match the selector at any instant from t up to now. */
  ghost predicate NoneAppears(w: World, selector: Labels, t: nat, now: nat) {
    forall u: nat :: t <= u < now ==> Matching(w(u + 1), selector) <= Matching(w(u), selector)
  }

  /** The set does not come into being at any instant from t up to now. */
  ghost predicate SetNotCreated(w: World, key: Key, t: nat, now: nat) {
    forall u: nat :: t <= u < now && key !in w(u).machineSets ==> key !in w(u + 1).machineSets
  }

  lemma {:induction false} StaysEmpty(w: World, selector: Labels, t: nat, now: nat)
    requires t <= now
    requires Matching(w(t), selector) == {}
    requires NoneAppears(w, selector, t, now)
    ensures Matching(w(now), selector) == {}
    decreases now - t
  {
    if t < now {
      StaysEmpty(w, selector, t + 1, now);
    }
  }

  lemma {:induction false} SetStaysMissing(w: World, key: Key, t: nat, now: nat)
    requires t <= now
    requires key !in w(t).machineSets
    requires SetNotCreated(w, key, t, now)
    ensures key !in w(now).machineSets
    decreases now - t
  {
    if t < now {
      SetStaysMissing(w, key, t + 1, now);
    }
  }

  /** A success means set and machines are gone together at return, if no matching machine appears after the list. */
  lemma SetAndMachinesMissing(w: World, down: Outages, key: Key, selector: Labels, t1: nat, t2: nat, now: nat)
    requires t1 <= t2 <= now
    requires SawNoMachines(w, down, selector, t1) && ReadMachineSet(w, down, key, t2) == NotFound
    requires NoneAppears(w, selector, t1, now)
    requires SetNotCreated(w, key, t2, now)
    ensures key !in w(now).machineSets && Matching(w(now), selector) == {}
  {
    StaysEmpty(w, selector, t1, now);
    SetStaysMissing(w, key, t2, now);
  }

  /** A matching machine appears only while the set exists, as when its controller alone makes them. */
  ghost predicate OnlyTheSetCreates(w: World, key: Key, selector: Labels) {
    forall u: nat :: key !in w(u).machineSets ==> Matching(w(u + 1), selector) <= Matching(w(u), selector)
  }

  /** From c on, all machines go, the set makes one more, and the set is deleted, leaving that machine behind. */
  function Orphaned(c: Cluster, key: Key, name: string, selector: Labels): World {
    var left := c.(machines := map[Key(MACHINE_API_NAMESPACE, name) := Machine(selector, None, None)]);
    (t: nat) =>
      if t == 0 then c
      else if t == 1 then c.(machines := map[])
      else if t == 2 then left
      else left.(machineSets := c.machineSets - {key})
  }

  lemma OrphanedKeepsTheRules(c: Cluster, key: Key, name: string, selector: Labels)
    requires key in c.machineSets
    ensures OnlyTheSetCreates(Orphaned(c, key, name, selector), key, selector)
    ensures SetNotCreated(Orphaned(c, key, name, selector), key, 0, 3)
  {
    var w := Orphaned(c, key, name, selector);
    forall u: nat | key !in w(u).machineSets
      ensures Matching(w(u + 1), selector) <= Matching(w(u), selector)
    {
      assert u >= 3;
      assert w(u + 1) == w(u);
    }
  }

  /**
    The code lists before it gets the set, so even when only the set creates machines and it is never recreated, a
    pass that lists while the set is still there can succeed with a matching machine left over for good.
   */
  lemma ListFirstCanLeaveAMachine(c: Cluster, key: Key, name: string, selector: Labels, t1: nat)
    requires key in c.machineSets
    requires t1 == 1 || (t1 == 0 && Matching(c, selector) == {})
    ensures var w := Orphaned(c, key, name, selector);
            && w(0) == c && OnlyTheSetCreates(w, key, selector) && SetNotCreated(w, key, 0, 3)
            && SawNoMachines(w, NoOutages, selector, t1) && ReadMachineSet(w, NoOutages, key, 3) == NotFound
            && Matching(w(3), selector) != {}
  {
    OrphanedKeepsTheRules(c, key, name, selector);
    assert Key(MACHINE_API_NAMESPACE, name) in Matching(Orphaned(c, key, name, selector)(3), selector);
  }

  /** A wait begun at t0 succeeds by now, where only the set creates machines and it is not recreated. */
  ghost predicate Succeeds(w: World, down: Outages, key: Key, selector: Labels, t0: nat, t1: nat, t2: nat, now: nat) {
    && t0 <= t1 <= t2 <= now
    && SawNoMachines(w, down, selector, t1) && ReadMachineSet(w, down, key, t2) == NotFound
    && OnlyTheSetCreates(w, key, selector) && SetNotCreated(w, key, t0, now)
  }

  ghost predicate AllGone(c: Cluster, key: Key, selector: Labels) {
    key !in c.machineSets && Matching(c, selector) == {}
  }

  /** Success proves set and machines gone, whenever the last pass listed on the cluster c. */
  ghost predicate ConclusiveFromList(c: Cluster, key: Key, selector: Labels) {
    forall w: World, down: Outages, t1: nat, t2: nat, now: nat ::
      w(t1) == c && Succeeds(w, down, key, selector, t1, t1, t2, now) ==> AllGone(w(now), key, selector)
  }

  /** Success proves set and machines gone, whenever the wait was called on the cluster c. */
  ghost predicate ConclusiveFromCall(c: Cluster, key: Key, selector: Labels) {
    forall w: World, down: Outages, t0: nat, t1: nat, t2: nat, now: nat ::
      w(t0) == c && Succeeds(w, down, key, selector, t0, t1, t2, now) ==> AllGone(w(now), key, selector)
  }

  lemma GoneSetIsConclusive(w: World, down: Outages, key: Key, selector: Labels, t0: nat, t1: nat, t2: nat, now: nat)
    requires Succeeds(w, down, key, selector, t0, t1, t2, now) && key !in w(t0).machineSets
    ensures AllGone(w(now), key, selector)
  {
    SetStaysMissing(w, key, t0, t1);
    SetStaysMissing(w, key, t0, now);
    OnlyFewerLeft(w, key, selector, t1, now);
  }

  /**
    Exactly when a success is conclusive: the set was gone already at the list that saw no machine, and, for what the
    caller can tell before the call, the set was gone already when the wait was called.
   */
  lemma ConclusiveExactlyWhenSetGone(c: Cluster, key: Key, selector: Labels)
    ensures Matching(c, selector) == {} ==> (ConclusiveFromList(c, key, selector) <==> key !in c.machineSets)
    ensures ConclusiveFromCall(c, key, selector) <==> key !in c.machineSets
  {
    if key in c.machineSets {
      var w := Orphaned(c, key, "", selector);
      if Matching(c, selector) == {} {
        ListFirstCanLeaveAMachine(c, key, "", selector, 0);
        assert Succeeds(w, NoOutages, key, selector, 0, 0, 3, 3) && !AllGone(w(3), key, selector);
      }
      ListFirstCanLeaveAMachine(c, key, "", selector, 1);
      assert Succeeds(w, NoOutages, key, selector, 0, 1, 3, 3) && !AllGone(w(3), key, selector);
    } else {
      forall w: World, down: Outages, t0: nat, t1: nat, t2: nat, now: nat
        | w(t0) == c && Succeeds(w, down, key, selector, t0, t1, t2, now)
        ensures AllGone(w(now), key, selector)
      {
        GoneSetIsConclusive(w, down, key, selector, t0, t1, t2, now);
      }
    }
  }

  /**
    How it comes about: under those cluster assumptions, once the set has been found missing at t2 the matching
    machines only become fewer, so a machine left at return appeared in the window between the two reads.
   */
  lemma LeftoversAppearedBetweenTheReads(w: World, down: Outages, key: Key, selector: Labels,
                                         t1: nat, t2: nat, now: nat)
    requires t1 <= t2 <= now
    requires SawNoMachines(w, down, selector, t1) && ReadMachineSet(w, down, key, t2) == NotFound
    requires OnlyTheSetCreates(w, key, selector) && SetNotCreated(w, key, t2, now)
    ensures Matching(w(now), selector) <= Matching(w(t2), selector)
    ensures Matching(w(now), selector) != {} ==> !NoneAppears(w, selector, t1, t2)
  {
    OnlyFewerLeft(w, key, selector, t2, now);
    if NoneAppears(w, selector, t1, t2) {
      StaysEmpty(w, selector, t1, t2);
    }
  }

  lemma {:induction false} OnlyFewerLeft(w: World, key: Key, selector: Labels, t: nat, now: nat)
    requires t <= now
    requires key !in w(t).machineSets
    requires OnlyTheSetCreates(w, key, selector) && SetNotCreated(w, key, t, now)
    ensures Matching(w(now), selector) <= Matching(w(t), selector)
    decreases now - t
  {
    if t < now {
      assert key !in w(t + 1).machineSets;
      OnlyFewerLeft(w, key, selector, t + 1, now);
    }
  }

  /** Read in the other order, set first and machines second, the same cluster assumptions make a success conclusive. */
  lemma SetFirstIsConclusive(w: World, down: Outages, key: Key, selector: Labels, t1: nat, t2: nat, now: nat)
    requires t1 <= t2 <= now
    requires ReadMachineSet(w, down, key, t1) == NotFound && SawNoMachines(w, down, selector, t2)
    requires OnlyTheSetCreates(w, key, selector)
    requires SetNotCreated(w, key, t1, now)
    ensures key !in w(now).machineSets && Matching(w(now), selector) == {}
  {
    SetStaysMissing(w, key, t1, now);
    SetStaysMissing(w, key, t1, t2);
    OnlyFewerLeft(w, key, selector, t2, now);
  }
}
