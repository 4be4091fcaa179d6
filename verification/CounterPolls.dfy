/** What the Eventually and Consistently polls of event counters in pkg/autoscaler/autoscaler.go establish. */
module CounterPolls {
  import opened Counters
  import opened WatcherSpec
  import P = WatcherProtocol
  import opened WatcherRuns

  /** How many events handler h has counted after the first p steps of a run. */
  function Counted(c: P.Config, steps: seq<P.Step>, p: nat, h: nat): nat
    requires p <= |steps|
  {
    var ops := Effects(c, steps[..p]);
    if h < |Registered(ops)| then Accepted(Registered(ops)[h], Armed(ops, h)) else 0
  }

  /** The lock-free atomic load of counter h after the first p steps. */
  function Read(c: P.Config, steps: seq<P.Step>, p: nat, h: nat): U32
    requires p <= |steps|
    requires h < |RunFrom(c, steps[..p]).cells|
  {
    RunFrom(c, steps[..p]).cells[h].view.counter
  }

  lemma {:induction false} HistoryGrows(a: seq<Op>, b: seq<Op>, h: nat)
    ensures Registered(a) <= Registered(a + b)
    ensures Armed(a, h) <= Armed(a + b, h)
  {
    if b == [] {
      assert a + b == a;
    } else {
      assert Front(a + b) == a + Front(b) && Last(a + b) == Last(b);
      HistoryGrows(a, Front(b), h);
    }
  }

  lemma {:induction false} AcceptedGrows(def: Definition, a: seq<Event>, b: seq<Event>)
    requires a <= b
    ensures Accepted(def, a) <= Accepted(def, b)
  {
    if |a| < |b| {
      assert a <= Front(b);
      AcceptedGrows(def, a, Front(b));
    } else {
      assert a == b;
    }
  }

  lemma PrefixPossible(c: P.Config, steps: seq<P.Step>, p: nat)
    requires Possible(c, steps) && p <= |steps|
    ensures Possible(c, steps[..p])
  {
    assert steps == steps[..p] + steps[p..];
    RunConcat(c, steps[..p], steps[p..]);
  }

  /** A load returns the handler's initial value moved once per event counted so far. */
  lemma ReadIs(startTime: int, threads: nat, steps: seq<P.Step>, p: nat, h: nat)
    requires Possible(P.Start(startTime, threads), steps) && p <= |steps|
    requires h < |RunFrom(P.Start(startTime, threads), steps[..p]).cells|
    ensures var c := P.Start(startTime, threads);
            var def := RunFrom(c, steps[..p]).cells[h].view.def;
            && h < |Registered(Effects(c, steps[..p]))|
            && def == Registered(Effects(c, steps[..p]))[h]
            && Read(c, steps, p, h) == Moved(def.callback, def.initial, Counted(c, steps, p, h))
  {
    PrefixPossible(P.Start(startTime, threads), steps, p);
    CounterInEveryInterleaving(startTime, threads, steps[..p], h);
  }

  /** Later loads see the same handler with at least as many events counted. */
  lemma CountedGrows(startTime: int, threads: nat, steps: seq<P.Step>, p: nat, q: nat, h: nat)
    requires Possible(P.Start(startTime, threads), steps) && p <= q <= |steps|
    requires h < |RunFrom(P.Start(startTime, threads), steps[..p]).cells|
    ensures var c := P.Start(startTime, threads);
            && h < |RunFrom(c, steps[..q]).cells|
            && RunFrom(c, steps[..q]).cells[h].view.def == RunFrom(c, steps[..p]).cells[h].view.def
            && Counted(c, steps, p, h) <= Counted(c, steps, q, h)
  {
    hide RunFrom, Possible, Accepted, Registered, Armed;
    var c := P.Start(startTime, threads);
    assert steps[..q] == steps[..p] + steps[p..q];
    RunConcat(c, steps[..p], steps[p..q]);
    var a, b := Effects(c, steps[..p]), Effects(RunFrom(c, steps[..p]), steps[p..q]);
    HistoryGrows(a, b, h);
    ReadIs(startTime, threads, steps, p, h);
    PrefixPossible(c, steps, q);
    RunRefinesEmpty(startTime, threads, steps[..q]);
    RegisteredHandlers(a + b);
    ReadIs(startTime, threads, steps, q, h);
    AcceptedGrows(Registered(a)[h], Armed(a, h), Armed(a + b, h));
  }

  /** Two loads that agree, fewer than 2^32 counted events apart, have no counted event between them. */
  lemma EqualReadsCountNothing(startTime: int, threads: nat, steps: seq<P.Step>, p: nat, q: nat, h: nat)
    requires Possible(P.Start(startTime, threads), steps) && p <= q <= |steps|
    requires h < |RunFrom(P.Start(startTime, threads), steps[..p]).cells|
    requires RunFrom(P.Start(startTime, threads), steps[..p]).cells[h].view.def.callback != NoCount
    requires h < |RunFrom(P.Start(startTime, threads), steps[..q]).cells|
    requires Read(P.Start(startTime, threads), steps, p, h) == Read(P.Start(startTime, threads), steps, q, h)
    requires Counted(P.Start(startTime, threads), steps, q, h)
           < Counted(P.Start(startTime, threads), steps, p, h) + MODULUS
    ensures Counted(P.Start(startTime, threads), steps, q, h) == Counted(P.Start(startTime, threads), steps, p, h)
  {
    hide RunFrom, Possible, Effects, Counted, Read;
    CountedGrows(startTime, threads, steps, p, q, h);
    ReadIs(startTime, threads, steps, p, h);
    ReadIs(startTime, threads, steps, q, h);
    var c := P.Start(startTime, threads);
    var def := RunFrom(c, steps[..p]).cells[h].view.def;
    SameCloseReading(def.callback, def.initial, Counted(c, steps, p, h), Counted(c, steps, q, h));
  }

  /** The polls happen at these points of the run, in order. */
  predicate PollsAt(steps: seq<P.Step>, polls: seq<nat>) {
    && polls != []
    && (forall i :: 0 <= i < |polls| ==> polls[i] <= |steps|)
    && (forall i, j :: 0 <= i <= j < |polls| ==> polls[i] <= polls[j])
  }

  /** Every poll reads v. */
  predicate AllRead(c: P.Config, steps: seq<P.Step>, polls: seq<nat>, h: nat, v: U32)
    requires PollsAt(steps, polls)
  {
    forall i :: 0 <= i < |polls| ==> h < |RunFrom(c, steps[..polls[i]]).cells| && Read(c, steps, polls[i], h) == v
  }

  /** Fewer than 2^32 events are counted between consecutive polls. */
  predicate NoWrapBetween(c: P.Config, steps: seq<P.Step>, polls: seq<nat>, h: nat)
    requires PollsAt(steps, polls)
  {
    forall i :: 0 < i < |polls| ==> Counted(c, steps, polls[i], h) < Counted(c, steps, polls[i - 1], h) + MODULUS
  }

  /**
    A Consistently check that passes, all its polls reading one value, shows that no event at all was counted
    between its first and last poll, provided fewer than 2^32 are counted between consecutive polls.
   */
  lemma {:induction false} ConsistentReadsCountNothing(startTime: int, threads: nat, steps: seq<P.Step>,
                                                       polls: seq<nat>, h: nat, v: U32)
    requires Possible(P.Start(startTime, threads), steps) && PollsAt(steps, polls)
    requires AllRead(P.Start(startTime, threads), steps, polls, h, v)
    requires RunFrom(P.Start(startTime, threads), steps[..polls[0]]).cells[h].view.def.callback != NoCount
    requires NoWrapBetween(P.Start(startTime, threads), steps, polls, h)
    ensures Counted(P.Start(startTime, threads), steps, Last(polls), h)
         == Counted(P.Start(startTime, threads), steps, polls[0], h)
  {
    hide RunFrom, Possible, Effects, Counted, Read;
    if |polls| > 1 {
      var n, short := |polls| - 1, Front(polls);
      assert forall i :: 0 <= i < n ==> short[i] == polls[i];
      ConsistentReadsCountNothing(startTime, threads, steps, short, h, v);
      CountedGrows(startTime, threads, steps, polls[0], polls[n - 1], h);
      EqualReadsCountNothing(startTime, threads, steps, polls[n - 1], polls[n], h);
    }
  }

  lemma CountedFromZero(k: nat)
    ensures Moved(Increment, 0, k) == k % MODULUS
  {
  }

  /** The scale-up wait: a counter incremented from zero reads k exactly when the events counted are k, modulo 2^32. */
  lemma ReadFromZero(startTime: int, threads: nat, steps: seq<P.Step>, p: nat, h: nat, k: U32)
    requires Possible(P.Start(startTime, threads), steps) && p <= |steps|
    requires h < |RunFrom(P.Start(startTime, threads), steps[..p]).cells|
    requires RunFrom(P.Start(startTime, threads), steps[..p]).cells[h].view.def.callback == Increment
    requires RunFrom(P.Start(startTime, threads), steps[..p]).cells[h].view.def.initial == 0
    ensures Read(P.Start(startTime, threads), steps, p, h) == k
       <==> Counted(P.Start(startTime, threads), steps, p, h) % MODULUS == k
  {
    hide RunFrom, Possible, Effects, Counted, Read;
    ReadIs(startTime, threads, steps, p, h);
    CountedFromZero(Counted(P.Start(startTime, threads), steps, p, h));
  }

  /** Once more than k events have been counted, no poll of the scale-up wait for k passes before the 2^32nd event. */
  lemma OvershootNeverRecovers(startTime: int, threads: nat, steps: seq<P.Step>, p: nat, q: nat, h: nat, k: U32)
    requires Possible(P.Start(startTime, threads), steps) && p <= q <= |steps|
    requires h < |RunFrom(P.Start(startTime, threads), steps[..p]).cells|
    requires RunFrom(P.Start(startTime, threads), steps[..p]).cells[h].view.def.callback == Increment
    requires RunFrom(P.Start(startTime, threads), steps[..p]).cells[h].view.def.initial == 0
    requires k < Counted(P.Start(startTime, threads), steps, p, h)
    requires Counted(P.Start(startTime, threads), steps, q, h) < MODULUS
    ensures h < |RunFrom(P.Start(startTime, threads), steps[..q]).cells|
    ensures Read(P.Start(startTime, threads), steps, q, h) != k
  {
    hide RunFrom, Possible, Effects, Counted, Read;
    CountedGrows(startTime, threads, steps, p, q, h);
    ReadFromZero(startTime, threads, steps, q, h, k);
  }

  /**
    The scale-down wait compares a counter that starts at the target and is incremented with that same target: a poll
    passes exactly when no event has been counted (or a multiple of 2^32), so the first counted event makes it fail.
   */
  lemma WaitForInitialValue(startTime: int, threads: nat, steps: seq<P.Step>, p: nat, h: nat)
    requires Possible(P.Start(startTime, threads), steps) && p <= |steps|
    requires h < |RunFrom(P.Start(startTime, threads), steps[..p]).cells|
    requires RunFrom(P.Start(startTime, threads), steps[..p]).cells[h].view.def.callback == Increment
    ensures Read(P.Start(startTime, threads), steps, p, h)
         == RunFrom(P.Start(startTime, threads), steps[..p]).cells[h].view.def.initial
       <==> Counted(P.Start(startTime, threads), steps, p, h) % MODULUS == 0
  {
    hide RunFrom, Possible, Effects, Counted, Read;
    ReadIs(startTime, threads, steps, p, h);
    var c := P.Start(startTime, threads);
    var def := RunFrom(c, steps[..p]).cells[h].view.def;
    InitialReading(def.initial, Counted(c, steps, p, h));
  }
}
