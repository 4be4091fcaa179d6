/** The event matchers of pkg/autoscaler/autoscaler.go. */
module ScaleEvents {
  import opened Counters
  import opened WatcherSpec
  import P = WatcherProtocol
  import opened WatcherRuns
  import opened CounterPolls

  const COMPONENT := "cluster-autoscaler"
  const OBJECT_KIND := "ConfigMap"
  const SCALED_UP_GROUP := "ScaledUpGroup"
  const SCALE_DOWN_EMPTY := "ScaleDownEmpty"
  const MAX_NODES_TOTAL_REACHED := "MaxNodesTotalReached"

  /** strings.HasPrefix. */
  predicate HasPrefix(s: string, prefix: string) {
    prefix <= s
  }

  predicate IsScaleUp(e: Event) {
    e.component == COMPONENT && e.reason == SCALED_UP_GROUP && e.kind == OBJECT_KIND
    && HasPrefix(e.message, "Scale-up: setting group")
  }

  predicate IsScaleDown(e: Event) {
    e.component == COMPONENT && e.reason == SCALE_DOWN_EMPTY && e.kind == OBJECT_KIND
    && HasPrefix(e.message, "Scale-down: empty node")
  }

  predicate IsMaxNodesTotal(e: Event) {
    e.component == COMPONENT && e.reason == MAX_NODES_TOTAL_REACHED && e.kind == OBJECT_KIND
    && HasPrefix(e.message, "Max total nodes in cluster reached")
  }

  /** The message announces the size of group k. */
  predicate SizeSet(e: Event, k: string) {
    HasPrefix(e.message, "Scale-up: group " + k + " size set to")
  }

  /** What matchGroup returns and leaves in scaledGroups, whatever the order its range loop takes. */
  function MatchGroup(groups: Groups, e: Event): (Groups, bool) {
    if !IsScaleUp(e) then (groups, false)
    else (map k | k in groups :: groups[k] || SizeSet(e, k), true)
  }

  /** The closure made by newScaleUpCounter around the caller's scaledGroups. */
  class ScaleUpMatcher {
    var scaledGroups: Groups

    constructor (groups: Groups)
      ensures scaledGroups == groups
    {
      scaledGroups := groups;
    }

    method Match(e: Event) returns (ok: bool)
      modifies this
      ensures (scaledGroups, ok) == MatchGroup(old(scaledGroups), e)
    {
      if !IsScaleUp(e) {
        return false;
      }
      var keys := scaledGroups.Keys;
      while keys != {}
        invariant keys <= scaledGroups.Keys == old(scaledGroups).Keys
        invariant forall k :: k in scaledGroups ==>
                    scaledGroups[k] == (old(scaledGroups)[k] || (k !in keys && SizeSet(e, k)))
        decreases keys
      {
        var k :| k in keys;
        if !scaledGroups[k] && SizeSet(e, k) {
          scaledGroups := scaledGroups[k := true];
        }
        keys := keys - {k};
      }
      assert scaledGroups == MatchGroup(old(scaledGroups), e).0;
      return true;
    }
  }

  /** No message both sets a group and reports a group's size: the two prefixes part at their eleventh character. */
  lemma PrefixesExclusive(e: Event, k: string)
    requires IsScaleUp(e)
    ensures !SizeSet(e, k)
  {
    var setting, sizeSet := "Scale-up: setting group", "Scale-up: group " + k + " size set to";
    assert setting[10] == 's' && sizeSet[10] == 'g';
  }

  /** matchGroup says yes to exactly the autoscaler's scale-up events, and it never marks a group. */
  lemma MatchGroupIsStateless(groups: Groups, e: Event)
    ensures MatchGroup(groups, e).0 == groups
    ensures MatchGroup(groups, e).1 <==>
            && e.component == "cluster-autoscaler" && e.reason == "ScaledUpGroup" && e.kind == "ConfigMap"
            && "Scale-up: setting group" <= e.message
  {
    if IsScaleUp(e) {
      forall k | k in groups
        ensures (groups[k] || SizeSet(e, k)) == groups[k]
      {
        PrefixesExclusive(e, k);
      }
      assert MatchGroup(groups, e).0 == groups;
    }
  }

  /** The very events that announce a group's size are refused before the loop that would mark the group. */
  lemma SizeAnnouncement(e: Event, group: string, size: string, groups: Groups)
    requires e.message == "Scale-up: group " + group + " size set to" + size
    ensures SizeSet(e, group) && MatchGroup(groups, e) == (groups, false)
  {
    assert "Scale-up: group " + group + " size set to" <= e.message;
    assert e.message[10] == 'g' && "Scale-up: setting group"[10] == 's';
  }

  function ScaleUpCounter(v: U32, groups: Groups): Definition {
    Definition((g: Groups, e: Event) => MatchGroup(g, e), Increment, v, groups)
  }

  function ScaleDownCounter(v: U32): Definition {
    Definition((g: Groups, e: Event) => (g, IsScaleDown(e)), Increment, v, map[])
  }

  function MaxNodesTotalCounter(v: U32): Definition {
    Definition((g: Groups, e: Event) => (g, IsMaxNodesTotal(e)), Increment, v, map[])
  }

  // ---------- what the counters accept ----------

  /** The counter starts at v, counts up, and its matcher says yes to the events accepts picks, changing nothing. */
  ghost predicate CountsUp(def: Definition, v: U32, groups: Groups, accepts: Event -> bool) {
    && def.callback == Increment && def.initial == v && def.groups == groups
    && forall g, e :: def.matcher(g, e) == (g, accepts(e))
  }

  lemma ScaleUpCounts(v: U32, groups: Groups)
    ensures CountsUp(ScaleUpCounter(v, groups), v, groups, IsScaleUp)
  {
    forall g, e
      ensures ScaleUpCounter(v, groups).matcher(g, e) == (g, IsScaleUp(e))
    {
      MatchGroupIsStateless(g, e);
    }
  }

  /** A scale-up announcement, for any group and size, is accepted by the scale-up counter alone. */
  lemma ScaleUpAnnouncement(created: int, group: string, size: string, v: U32, groups: Groups, g: Groups)
    ensures var message := "Scale-up: setting group " + group + " size to " + size;
            var e := Event(created, "cluster-autoscaler", "ScaledUpGroup", "ConfigMap", message);
            && ScaleUpCounter(v, groups).matcher(g, e) == (g, true)
            && ScaleDownCounter(v).matcher(g, e) == (g, false)
            && MaxNodesTotalCounter(v).matcher(g, e) == (g, false)
  {
    var message := "Scale-up: setting group " + group + " size to " + size;
    var e := Event(created, "cluster-autoscaler", "ScaledUpGroup", "ConfigMap", message);
    assert "Scale-up: setting group" <= message;
    MatchGroupIsStateless(g, e);
    assert e.reason[5] != SCALE_DOWN_EMPTY[5] && e.reason[0] != MAX_NODES_TOTAL_REACHED[0];
  }

  /** A scale-down announcement, whatever the node, is accepted by the scale-down counter alone. */
  lemma ScaleDownAnnouncement(created: int, rest: string, v: U32, groups: Groups, g: Groups)
    ensures var e := Event(created, "cluster-autoscaler", "ScaleDownEmpty", "ConfigMap",
                           "Scale-down: empty node" + rest);
            && ScaleUpCounter(v, groups).matcher(g, e) == (g, false)
            && ScaleDownCounter(v).matcher(g, e) == (g, true)
            && MaxNodesTotalCounter(v).matcher(g, e) == (g, false)
  {
    var e := Event(created, "cluster-autoscaler", "ScaleDownEmpty", "ConfigMap", "Scale-down: empty node" + rest);
    MatchGroupIsStateless(g, e);
    assert e.reason[5] != SCALED_UP_GROUP[5] && e.reason[0] != MAX_NODES_TOTAL_REACHED[0];
  }

  /** An announcement that the cap is reached is accepted by the max-nodes counter alone. */
  lemma MaxNodesAnnouncement(created: int, rest: string, v: U32, groups: Groups, g: Groups)
    ensures var e := Event(created, "cluster-autoscaler", "MaxNodesTotalReached", "ConfigMap",
                           "Max total nodes in cluster reached" + rest);
            && ScaleUpCounter(v, groups).matcher(g, e) == (g, false)
            && ScaleDownCounter(v).matcher(g, e) == (g, false)
            && MaxNodesTotalCounter(v).matcher(g, e) == (g, true)
  {
    var e := Event(created, "cluster-autoscaler", "MaxNodesTotalReached", "ConfigMap",
                   "Max total nodes in cluster reached" + rest);
    MatchGroupIsStateless(g, e);
    assert e.reason[0] != SCALED_UP_GROUP[0] && e.reason[0] != SCALE_DOWN_EMPTY[0];
  }

  /** An event with another component or kind, or with none of the three reasons, is refused by all three counters. */
  lemma OthersRefused(e: Event, v: U32, groups: Groups, g: Groups)
    requires
      || e.component != "cluster-autoscaler" || e.kind != "ConfigMap"
      || e.reason !in {"ScaledUpGroup", "ScaleDownEmpty", "MaxNodesTotalReached"}
    ensures ScaleUpCounter(v, groups).matcher(g, e) == (g, false)
    ensures ScaleDownCounter(v).matcher(g, e) == (g, false)
    ensures MaxNodesTotalCounter(v).matcher(g, e) == (g, false)
  {
    MatchGroupIsStateless(g, e);
  }

  /** Under each reason, an event that does not begin with that reason's text is refused by all three counters. */
  lemma OtherMessagesRefused(e: Event, v: U32, groups: Groups, g: Groups)
    requires e.reason == "ScaledUpGroup" ==> !("Scale-up: setting group" <= e.message)
    requires e.reason == "ScaleDownEmpty" ==> !("Scale-down: empty node" <= e.message)
    requires e.reason == "MaxNodesTotalReached" ==> !("Max total nodes in cluster reached" <= e.message)
    ensures ScaleUpCounter(v, groups).matcher(g, e) == (g, false)
    ensures ScaleDownCounter(v).matcher(g, e) == (g, false)
    ensures MaxNodesTotalCounter(v).matcher(g, e) == (g, false)
  {
    MatchGroupIsStateless(g, e);
  }

  // ---------- what the counters read ----------

  /** The positions of the events accepted. */
  function Picked(accepts: Event -> bool, es: seq<Event>): set<nat> {
    set i | 0 <= i < |es| && accepts(es[i])
  }

  lemma {:induction false} PickedAreAccepted(def: Definition, v: U32, groups: Groups, accepts: Event -> bool,
                                             es: seq<Event>)
    requires CountsUp(def, v, groups, accepts)
    ensures GroupsAfter(def, es) == groups
    ensures Accepted(def, es) == |Picked(accepts, es)|
  {
    if es == [] {
      assert Picked(accepts, es) == {};
    } else {
      var init, n := Front(es), |es| - 1;
      PickedAreAccepted(def, v, groups, accepts, init);
      assert forall i :: 0 <= i < n ==> init[i] == es[i];
      assert Picked(accepts, es) == Picked(accepts, init) + if accepts(Last(es)) then {n} else {};
    }
  }

  lemma UpMoves(v: U32, k: nat)
    ensures Moved(Increment, v, k) == (v + k) % 0x1_0000_0000
  {
  }

  /**
    In every interleaving such a counter reads its initial value plus the number of events it accepts among its armed
    visits, modulo 2^32, and outside a dispatch its captured state is what it was made with.
   */
  lemma ReadsInEveryInterleaving(startTime: int, threads: nat, steps: seq<P.Step>, h: nat,
                                 v: U32, groups: Groups, accepts: Event -> bool)
    requires Possible(P.Start(startTime, threads), steps)
    requires h < |RunFrom(P.Start(startTime, threads), steps).cells|
    requires CountsUp(RunFrom(P.Start(startTime, threads), steps).cells[h].view.def, v, groups, accepts)
    ensures var c := RunFrom(P.Start(startTime, threads), steps);
            var armed := Armed(Effects(P.Start(startTime, threads), steps), h);
            && c.cells[h].view.counter == (v + |Picked(accepts, armed)|) % 0x1_0000_0000
            && (!P.InDispatch(P.HolderPc(c)) ==> c.cells[h].view.groups == groups)
  {
    hide Possible, RunFrom, Effects, Armed, Accepted, GroupsAfter, Moved, Picked, P.InDispatch, P.HolderPc;
    var armed := Armed(Effects(P.Start(startTime, threads), steps), h);
    var def := RunFrom(P.Start(startTime, threads), steps).cells[h].view.def;
    HandlerOf(startTime, threads, steps, h, def);
    PickedAreAccepted(def, v, groups, accepts, armed);
    UpMoves(v, |Picked(accepts, armed)|);
  }

  /** What the scale-up counter reads at any point of any run. */
  lemma ScaleUpCounterInEveryInterleaving(startTime: int, threads: nat, steps: seq<P.Step>, h: nat,
                                          v: U32, groups: Groups)
    requires Possible(P.Start(startTime, threads), steps)
    requires h < |RunFrom(P.Start(startTime, threads), steps).cells|
    requires RunFrom(P.Start(startTime, threads), steps).cells[h].view.def == ScaleUpCounter(v, groups)
    ensures var c := RunFrom(P.Start(startTime, threads), steps);
            var armed := Armed(Effects(P.Start(startTime, threads), steps), h);
            var announced := set i | 0 <= i < |armed| && armed[i].component == "cluster-autoscaler"
                                     && armed[i].reason == "ScaledUpGroup" && armed[i].kind == "ConfigMap"
                                     && "Scale-up: setting group" <= armed[i].message;
            && c.cells[h].view.counter == (v + |announced|) % 0x1_0000_0000
            && (!P.InDispatch(P.HolderPc(c)) ==> c.cells[h].view.groups == groups)
  {
    hide Possible, RunFrom, Effects, Armed, P.InDispatch, P.HolderPc, ScaleUpCounter;
    var armed := Armed(Effects(P.Start(startTime, threads), steps), h);
    ScaleUpCounts(v, groups);
    ReadsInEveryInterleaving(startTime, threads, steps, h, v, groups, IsScaleUp);
    assert Picked(IsScaleUp, armed) ==
           set i | 0 <= i < |armed| && armed[i].component == "cluster-autoscaler"
                   && armed[i].reason == "ScaledUpGroup" && armed[i].kind == "ConfigMap"
                   && "Scale-up: setting group" <= armed[i].message;
  }

  /** What the scale-down counter reads at any point of any run. */
  lemma ScaleDownCounterInEveryInterleaving(startTime: int, threads: nat, steps: seq<P.Step>, h: nat, v: U32)
    requires Possible(P.Start(startTime, threads), steps)
    requires h < |RunFrom(P.Start(startTime, threads), steps).cells|
    requires RunFrom(P.Start(startTime, threads), steps).cells[h].view.def == ScaleDownCounter(v)
    ensures var armed := Armed(Effects(P.Start(startTime, threads), steps), h);
            var announced := set i | 0 <= i < |armed| && armed[i].component == "cluster-autoscaler"
                                     && armed[i].reason == "ScaleDownEmpty" && armed[i].kind == "ConfigMap"
                                     && "Scale-down: empty node" <= armed[i].message;
            RunFrom(P.Start(startTime, threads), steps).cells[h].view.counter == (v + |announced|) % 0x1_0000_0000
  {
    hide Possible, RunFrom, Effects, Armed;
    var armed := Armed(Effects(P.Start(startTime, threads), steps), h);
    ReadsInEveryInterleaving(startTime, threads, steps, h, v, map[], IsScaleDown);
    assert Picked(IsScaleDown, armed) ==
           set i | 0 <= i < |armed| && armed[i].component == "cluster-autoscaler"
                   && armed[i].reason == "ScaleDownEmpty" && armed[i].kind == "ConfigMap"
                   && "Scale-down: empty node" <= armed[i].message;
  }

  /** What the max-nodes counter reads at any point of any run. */
  lemma MaxNodesCounterInEveryInterleaving(startTime: int, threads: nat, steps: seq<P.Step>, h: nat, v: U32)
    requires Possible(P.Start(startTime, threads), steps)
    requires h < |RunFrom(P.Start(startTime, threads), steps).cells|
    requires RunFrom(P.Start(startTime, threads), steps).cells[h].view.def == MaxNodesTotalCounter(v)
    ensures var armed := Armed(Effects(P.Start(startTime, threads), steps), h);
            var announced := set i | 0 <= i < |armed| && armed[i].component == "cluster-autoscaler"
                                     && armed[i].reason == "MaxNodesTotalReached" && armed[i].kind == "ConfigMap"
                                     && "Max total nodes in cluster reached" <= armed[i].message;
            RunFrom(P.Start(startTime, threads), steps).cells[h].view.counter == (v + |announced|) % 0x1_0000_0000
  {
    hide Possible, RunFrom, Effects, Armed;
    var armed := Armed(Effects(P.Start(startTime, threads), steps), h);
    ReadsInEveryInterleaving(startTime, threads, steps, h, v, map[], IsMaxNodesTotal);
    assert Picked(IsMaxNodesTotal, armed) ==
           set i | 0 <= i < |armed| && armed[i].component == "cluster-autoscaler"
                   && armed[i].reason == "MaxNodesTotalReached" && armed[i].kind == "ConfigMap"
                   && "Max total nodes in cluster reached" <= armed[i].message;
  }

  // ---------- what a passing Consistently check of the scale-up counter shows ----------

  /** Once a handler is registered and enabled, where its armed visits start among the dispatched events is settled. */
  lemma {:induction false} StartIsSettled(a: seq<Op>, b: seq<Op>, h: nat)
    requires h < |Registered(a)| && EnabledIn(a, h)
    ensures h < |Registered(a + b)| && EnabledIn(a + b, h)
    ensures Since(a + b, h) == Since(a, h) && Missed(a + b, h) == Missed(a, h)
    ensures Dispatched(a) <= Dispatched(a + b)
  {
    if b == [] {
      assert a + b == a;
    } else {
      assert Front(a + b) == a + Front(b) && Last(a + b) == Last(b);
      StartIsSettled(a, Front(b), h);
    }
  }

  /** The events dispatched between the first p and the first q steps of a run. */
  function DispatchedBetween(c: P.Config, steps: seq<P.Step>, p: nat, q: nat): seq<Event>
    requires p <= q <= |steps|
  {
    Dispatched(Effects(RunFrom(c, steps[..p]), steps[p..q]))
  }

  lemma {:induction false} DispatchedConcat(a: seq<Op>, b: seq<Op>)
    ensures Dispatched(a + b) == Dispatched(a) + Dispatched(b)
  {
    if b == [] {
      assert a + b == a;
    } else {
      assert Front(a + b) == a + Front(b) && Last(a + b) == Last(b);
      DispatchedConcat(a, Front(b));
    }
  }

  /** All the events dispatched since it was registered, less those missed, are what handler h was armed for. */
  predicate CaughtUp(ops: seq<Op>, h: nat) {
    && h < |Registered(ops)| && EnabledIn(ops, h)
    && Since(ops, h) + Missed(ops, h) <= |Dispatched(ops)|
    && Armed(ops, h) == Dispatched(ops)[Since(ops, h) + Missed(ops, h)..]
  }

  lemma CaughtUpTwice(a: seq<Op>, b: seq<Op>, h: nat)
    requires CaughtUp(a, h) && CaughtUp(a + b, h)
    ensures Armed(a + b, h) == Armed(a, h) + Dispatched(b)
  {
    hide Armed, Since, Missed, Dispatched, Registered, EnabledIn;
    StartIsSettled(a, b, h);
    DispatchedConcat(a, b);
    var start := Since(a, h) + Missed(a, h);
    assert (Dispatched(a) + Dispatched(b))[start..] == Dispatched(a)[start..] + Dispatched(b);
  }

  lemma OutsideCaughtUp(startTime: int, threads: nat, steps: seq<P.Step>, h: nat)
    requires Possible(P.Start(startTime, threads), steps)
    requires h < |RunFrom(P.Start(startTime, threads), steps).cells|
    requires RunFrom(P.Start(startTime, threads), steps).cells[h].view.enabled
    requires !P.InDispatch(P.HolderPc(RunFrom(P.Start(startTime, threads), steps)))
    ensures CaughtUp(Effects(P.Start(startTime, threads), steps), h)
  {
    hide RunFrom, Possible, Effects, Dispatched, Armed, Since, Missed, EnabledIn, Registered, P.HolderPc;
    CounterInEveryInterleaving(startTime, threads, steps, h);
  }

  /** Handler h is enabled after the first p steps, and no dispatch is in progress then. */
  predicate EnabledOutside(c: P.Config, steps: seq<P.Step>, p: nat, h: nat)
    requires p <= |steps|
  {
    var d := RunFrom(c, steps[..p]);
    h < |d.cells| && d.cells[h].view.enabled && !P.InDispatch(P.HolderPc(d))
  }

  lemma StaysEnabled(startTime: int, threads: nat, steps: seq<P.Step>, p: nat, q: nat, h: nat)
    requires Possible(P.Start(startTime, threads), steps) && p <= q <= |steps|
    requires EnabledOutside(P.Start(startTime, threads), steps, p, h)
    ensures h < |RunFrom(P.Start(startTime, threads), steps[..q]).cells|
    ensures RunFrom(P.Start(startTime, threads), steps[..q]).cells[h].view.enabled
    ensures Effects(P.Start(startTime, threads), steps[..q])
         == Effects(P.Start(startTime, threads), steps[..p])
            + Effects(RunFrom(P.Start(startTime, threads), steps[..p]), steps[p..q])
  {
    hide RunFrom, Possible, Effects, Registered, EnabledIn, Armed, P.InDispatch, P.HolderPc;
    var c := P.Start(startTime, threads);
    PrefixPossible(c, steps, p);
    PrefixPossible(c, steps, q);
    assert steps[..q] == steps[..p] + steps[p..q];
    RunConcat(c, steps[..p], steps[p..q]);
    CountedGrows(startTime, threads, steps, p, q, h);
    CounterInEveryInterleaving(startTime, threads, steps[..p], h);
    CounterInEveryInterleaving(startTime, threads, steps[..q], h);
    StartIsSettled(Effects(c, steps[..p]), Effects(RunFrom(c, steps[..p]), steps[p..q]), h);
  }

  /** Between two moments outside a dispatch, an enabled handler is visited with just the events dispatched between. */
  lemma ArmedBetween(startTime: int, threads: nat, steps: seq<P.Step>, p: nat, q: nat, h: nat)
    requires Possible(P.Start(startTime, threads), steps) && p <= q <= |steps|
    requires EnabledOutside(P.Start(startTime, threads), steps, p, h)
    requires !P.InDispatch(P.HolderPc(RunFrom(P.Start(startTime, threads), steps[..q])))
    ensures Armed(Effects(P.Start(startTime, threads), steps[..q]), h)
         == Armed(Effects(P.Start(startTime, threads), steps[..p]), h)
            + DispatchedBetween(P.Start(startTime, threads), steps, p, q)
  {
    hide RunFrom, Possible, Effects, Dispatched, Armed, P.InDispatch, P.HolderPc, CaughtUp;
    var c := P.Start(startTime, threads);
    PrefixPossible(c, steps, p);
    PrefixPossible(c, steps, q);
    StaysEnabled(startTime, threads, steps, p, q, h);
    OutsideCaughtUp(startTime, threads, steps[..p], h);
    OutsideCaughtUp(startTime, threads, steps[..q], h);
    CaughtUpTwice(Effects(c, steps[..p]), Effects(RunFrom(c, steps[..p]), steps[p..q]), h);
  }

  /**
    What the run relies on: when the Consistently check of the scale-up counter passes, with the counter enabled and no
    dispatch in progress at the first poll and none at the last, then no scale-up event was dispatched in between,
    provided fewer than 2^32 are counted between consecutive polls.
   */
  lemma ConsistentMeansNoScaleUp(startTime: int, threads: nat, steps: seq<P.Step>, polls: seq<nat>, h: nat,
                                 v: U32, initial: U32, groups: Groups)
    requires Possible(P.Start(startTime, threads), steps) && PollsAt(steps, polls)
    requires AllRead(P.Start(startTime, threads), steps, polls, h, v)
    requires NoWrapBetween(P.Start(startTime, threads), steps, polls, h)
    requires EnabledOutside(P.Start(startTime, threads), steps, polls[0], h)
    requires RunFrom(P.Start(startTime, threads), steps[..polls[0]]).cells[h].view.def
          == ScaleUpCounter(initial, groups)
    requires !P.InDispatch(P.HolderPc(RunFrom(P.Start(startTime, threads), steps[..Last(polls)])))
    ensures forall e :: e in DispatchedBetween(P.Start(startTime, threads), steps, polls[0], Last(polls)) ==>
              !(&& e.component == "cluster-autoscaler" && e.reason == "ScaledUpGroup" && e.kind == "ConfigMap"
                && "Scale-up: setting group" <= e.message)
  {
    hide RunFrom, Possible, Effects, Armed, P.InDispatch, P.HolderPc, AllRead, NoWrapBetween;
    hide DispatchedBetween, Read, Picked, Accepted, Registered;
    var c, p, q := P.Start(startTime, threads), polls[0], polls[|polls| - 1];
    ConsistentReadsCountNothing(startTime, threads, steps, polls, h, v);
    ArmedBetween(startTime, threads, steps, p, q, h);
    CountedIsPicked(startTime, threads, steps, p, h, initial, groups);
    CountedGrows(startTime, threads, steps, p, q, h);
    CountedIsPicked(startTime, threads, steps, q, h, initial, groups);
    NothingMorePicked(IsScaleUp, Armed(Effects(c, steps[..p]), h), DispatchedBetween(c, steps, p, q));
  }

  lemma NothingMorePicked(accepts: Event -> bool, a: seq<Event>, b: seq<Event>)
    requires |Picked(accepts, a + b)| == |Picked(accepts, a)|
    ensures forall e :: e in b ==> !accepts(e)
  {
    var more := Picked(accepts, a + b) - Picked(accepts, a);
    assert Picked(accepts, a) <= Picked(accepts, a + b);
    assert |more| == 0;
    forall e | e in b
      ensures !accepts(e)
    {
      var i :| 0 <= i < |b| && b[i] == e;
      assert (a + b)[|a| + i] == e && |a| + i !in more;
    }
  }

  lemma CountedIsPicked(startTime: int, threads: nat, steps: seq<P.Step>, p: nat, h: nat,
                        initial: U32, groups: Groups)
    requires Possible(P.Start(startTime, threads), steps) && p <= |steps|
    requires h < |RunFrom(P.Start(startTime, threads), steps[..p]).cells|
    requires RunFrom(P.Start(startTime, threads), steps[..p]).cells[h].view.def == ScaleUpCounter(initial, groups)
    ensures Counted(P.Start(startTime, threads), steps, p, h)
         == |Picked(IsScaleUp, Armed(Effects(P.Start(startTime, threads), steps[..p]), h))|
  {
    hide RunFrom, Possible, Effects, Armed, Picked, Accepted, Registered, ScaleUpCounter;
    ReadIs(startTime, threads, steps, p, h);
    ScaleUpCounts(initial, groups);
    PickedAreAccepted(ScaleUpCounter(initial, groups), initial, groups, IsScaleUp,
                      Armed(Effects(P.Start(startTime, threads), steps[..p]), h));
  }

  /** No event is counted by two of the three counters, so over any run they count at most one per event in all. */
  lemma {:induction false} CountersShareNoEvent(v: U32, groups: Groups, w: U32, x: U32, es: seq<Event>)
    ensures Accepted(ScaleUpCounter(v, groups), es) + Accepted(ScaleDownCounter(w), es)
            + Accepted(MaxNodesTotalCounter(x), es) <= |es|
  {
    if es != [] {
      CountersShareNoEvent(v, groups, w, x, Front(es));
      var e := Last(es);
      MatchGroupIsStateless(GroupsAfter(ScaleUpCounter(v, groups), Front(es)), e);
      assert SCALED_UP_GROUP[5] != SCALE_DOWN_EMPTY[5] && SCALED_UP_GROUP[0] != MAX_NODES_TOTAL_REACHED[0]
             && SCALE_DOWN_EMPTY[0] != MAX_NODES_TOTAL_REACHED[0];
    }
  }
}
