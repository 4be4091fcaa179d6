/**
  How a dispatch and the enables that fall inside it combine. A dispatch is atomic with respect to registration, but
  each enable takes its place at its own handler's lock. Here is exactly when a dispatch still ends as one atomic
  delivery placed somewhere between its enables, and why it always does for callers that enable before they register
  again.
 */
module DispatchAtomicity {
  import opened Counters
  import opened WatcherSpec

  // ---------- positions inside a dispatch ----------

  /** The position of the first enable of handler k, or |ops|. */
  function FirstEnable(ops: seq<Op>, k: nat): (p: nat)
    ensures p <= |ops|
  {
    if ops == [] then 0
    else if FirstEnable(Front(ops), k) < |ops| - 1 then FirstEnable(Front(ops), k)
    else if Last(ops) == Enable(k) then |ops| - 1
    else |ops|
  }

  /** The position of the visit of handler k, or |ops|. */
  function VisitAt(ops: seq<Op>, k: nat): (p: nat)
    ensures p <= |ops|
  {
    if ops == [] then 0
    else if VisitAt(Front(ops), k) < |ops| - 1 then VisitAt(Front(ops), k)
    else if Last(ops).Visit? && Last(ops).h == k then |ops| - 1
    else |ops|
  }

  lemma {:induction false} FirstEnableIs(ops: seq<Op>, k: nat)
    ensures FirstEnable(ops, k) < |ops| ==> ops[FirstEnable(ops, k)] == Enable(k)
    ensures EnabledIn(ops, k) <==> FirstEnable(ops, k) < |ops|
  {
    if ops != [] {
      FirstEnableIs(Front(ops), k);
    }
  }

  lemma {:induction false} VisitAtIs(ops: seq<Op>, k: nat)
    ensures VisitAt(ops, k) < |ops| ==> ops[VisitAt(ops, k)].Visit? && ops[VisitAt(ops, k)].h == k
  {
    if ops != [] {
      VisitAtIs(Front(ops), k);
    }
  }

  lemma {:induction false} EnabledInPrefix(ops: seq<Op>, c: nat, k: nat)
    requires c <= |ops|
    ensures EnabledIn(ops[..c], k) <==> FirstEnable(ops, k) < c
  {
    if c == |ops| {
      assert ops[..c] == ops;
      FirstEnableIs(ops, k);
    } else {
      assert ops[..c] == Front(ops)[..c];
      EnabledInPrefix(Front(ops), c, k);
    }
  }

  lemma {:induction false} EnabledInConcat(a: seq<Op>, b: seq<Op>, k: nat)
    ensures EnabledIn(a + b, k) <==> EnabledIn(a, k) || EnabledIn(b, k)
  {
    if b == [] {
      assert a + b == a;
    } else {
      assert Front(a + b) == a + Front(b) && Last(a + b) == Last(b);
      EnabledInConcat(a, Front(b), k);
    }
  }

  // ---------- what a dispatch does to each handler ----------

  /** ops can happen between the begin and the end of a dispatch of e from s. */
  predicate Inside(s: State, e: Event, ops: seq<Op>) {
    s.progress == Dispatching(e, 0) && Legal(s, ops) && forall i :: 0 <= i < |ops| ==> !ops[i].End?
  }

  lemma InsideFront(s: State, e: Event, ops: seq<Op>)
    requires Inside(s, e, ops) && ops != []
    ensures Inside(s, e, Front(ops))
  {
    assert forall i :: 0 <= i < |Front(ops)| ==> Front(ops)[i] == ops[i];
  }

  lemma InsideStep(s: State, e: Event, ops: seq<Op>)
    requires Inside(s, e, ops) && ops != []
    ensures |Exec(s, Front(ops)).handlers| == |s.handlers|
    ensures Last(ops) == Visit(e, |VisitOrder(Front(ops))|) || (Last(ops).Enable? && Last(ops).h < |s.handlers|)
  {
    InsideFront(s, e, ops);
    DispatchVisitsEachOnce(s, e, Front(ops));
    assert !ops[|ops| - 1].End?;
  }

  /** Exactly the first handlers have been visited, in order. */
  lemma {:induction false} VisitsInOrder(s: State, e: Event, ops: seq<Op>, j: nat, k: nat)
    requires Inside(s, e, ops)
    ensures VisitAt(ops, k) < |ops| <==> k < |VisitOrder(ops)|
    ensures j < k < |VisitOrder(ops)| ==> VisitAt(ops, j) < VisitAt(ops, k)
  {
    if ops != [] {
      InsideFront(s, e, ops);
      InsideStep(s, e, ops);
      VisitsInOrder(s, e, Front(ops), j, k);
      VisitsInOrder(s, e, Front(ops), k, j);
    }
  }

  /** Handler k once ops have happened, when it was h as the dispatch began. */
  function Meanwhile(h: Handler, e: Event, ops: seq<Op>, k: nat): Handler {
    if VisitAt(ops, k) == |ops| then h.(enabled := h.enabled || EnabledIn(ops, k))
    else if FirstEnable(ops, k) < VisitAt(ops, k) then VisitHandler(h.(enabled := true), e)
    else VisitHandler(h, e).(enabled := h.enabled || EnabledIn(ops, k))
  }

  /** Each handler's outcome depends only on whether its own first enable came before its own visit. */
  lemma {:induction false} EachEnableAtItsOwnLock(s: State, e: Event, ops: seq<Op>, k: nat)
    requires Inside(s, e, ops)
    requires k < |s.handlers|
    ensures |Exec(s, ops).handlers| == |s.handlers|
    ensures Exec(s, ops).handlers[k] == Meanwhile(s.handlers[k], e, ops, k)
  {
    DispatchVisitsEachOnce(s, e, ops);
    if ops != [] {
      InsideFront(s, e, ops);
      InsideStep(s, e, ops);
      EachEnableAtItsOwnLock(s, e, Front(ops), k);
      FirstEnableIs(Front(ops), k);
      FirstEnableIs(ops, k);
      VisitsInOrder(s, e, Front(ops), k, k);
    }
  }

  // ---------- an atomic delivery between the enables ----------

  /** The enables among ops, in order. */
  function Enables(ops: seq<Op>): seq<Op> {
    if ops == [] then []
    else Enables(Front(ops)) + if Last(ops).Enable? then [Last(ops)] else []
  }

  /**
    The enables before the cut, then one atomic delivery, then the enables after the cut; s is the state at the
    begin.
   */
  function AtomicAt(s: State, e: Event, ops: seq<Op>, cut: nat): State
    requires cut <= |ops|
  {
    var before := Exec(s.(progress := NoDispatch), Enables(ops[..cut]));
    Exec(Deliver(e.created, before, e), Enables(ops[cut..]))
  }

  predicate EnablesInRange(ops: seq<Op>, n: nat) {
    forall i :: 0 <= i < |ops| && ops[i].Enable? ==> ops[i].h < n
  }

  lemma {:induction false} InsideEnablesInRange(s: State, e: Event, ops: seq<Op>)
    requires Inside(s, e, ops)
    ensures EnablesInRange(ops, |s.handlers|)
  {
    if ops != [] {
      InsideFront(s, e, ops);
      InsideStep(s, e, ops);
      InsideEnablesInRange(s, e, Front(ops));
      assert forall i :: 0 <= i < |ops| - 1 ==> Front(ops)[i] == ops[i];
    }
  }

  lemma {:induction false} ExecEnables(s: State, ops: seq<Op>, k: nat)
    requires EnablesInRange(ops, |s.handlers|)
    requires k < |s.handlers|
    ensures |Exec(s, Enables(ops)).handlers| == |s.handlers|
    ensures Exec(s, Enables(ops)).progress == s.progress
    ensures Exec(s, Enables(ops)).handlers[k] == s.handlers[k].(enabled := s.handlers[k].enabled || EnabledIn(ops, k))
  {
    if ops != [] {
      assert forall i :: 0 <= i < |Front(ops)| ==> Front(ops)[i] == ops[i];
      ExecEnables(s, Front(ops), k);
      if Last(ops).Enable? {
        assert ops[|ops| - 1].h < |s.handlers|;
        assert Front(Enables(ops)) == Enables(Front(ops)) && Last(Enables(ops)) == Last(ops);
      } else {
        assert Enables(ops) == Enables(Front(ops));
      }
    }
  }

  /** What an atomic delivery at the cut does to handler k. */
  function Atomically(h: Handler, e: Event, ops: seq<Op>, cut: nat, k: nat): Handler {
    if h.enabled || FirstEnable(ops, k) < cut then VisitHandler(h.(enabled := true), e)
    else h.(enabled := EnabledIn(ops, k))
  }

  lemma RangeOfParts(ops: seq<Op>, cut: nat, n: nat)
    requires EnablesInRange(ops, n) && cut <= |ops|
    ensures EnablesInRange(ops[..cut], n) && EnablesInRange(ops[cut..], n)
  {
    assert forall i :: 0 <= i < |ops| - cut ==> ops[cut..][i] == ops[cut + i];
  }

  lemma DeliverAt(s: State, e: Event, k: nat)
    requires k < |s.handlers|
    ensures |Deliver(e.created, s, e).handlers| == |s.handlers|
    ensures Deliver(e.created, s, e).handlers[k] == VisitHandler(s.handlers[k], e)
  {
  }

  lemma AtomicAtHandler(s: State, e: Event, ops: seq<Op>, cut: nat, k: nat)
    requires Inside(s, e, ops) && cut <= |ops|
    requires k < |s.handlers|
    ensures |AtomicAt(s, e, ops, cut).handlers| == |s.handlers|
    ensures AtomicAt(s, e, ops, cut).handlers[k] == Atomically(s.handlers[k], e, ops, cut, k)
  {
    InsideEnablesInRange(s, e, ops);
    RangeOfParts(ops, cut, |s.handlers|);
    hide Inside, Exec, Enables, EnablesInRange, EnabledIn, FirstEnable, Deliver;
    var a, b := ops[..cut], ops[cut..];
    var before := Exec(s.(progress := NoDispatch), Enables(a));
    ExecEnables(s.(progress := NoDispatch), a, k);
    DeliverAt(before, e, k);
    ExecEnables(Deliver(e.created, before, e), b, k);
    EnabledInPrefix(ops, cut, k);
    EnabledInConcat(a, b, k);
    FirstEnableIs(ops, k);
    assert a + b == ops;
  }

  // ---------- exactly when a dispatch is atomic ----------

  /** Seeing the event makes a difference to the handler once it is enabled. */
  ghost predicate Changes(h: Handler, e: Event) {
    VisitHandler(h.(enabled := true), e) != h.(enabled := true)
  }

  /** The handler was disabled at the begin of the dispatch, and the event would change it. */
  ghost predicate Sensitive(s: State, e: Event, k: nat) {
    k < |s.handlers| && !s.handlers[k].enabled && Changes(s.handlers[k], e)
  }

  /** The earlier handler j is enabled too late for its visit, yet before k, which is enabled in time for its own. */
  ghost predicate Overtakes(s: State, e: Event, ops: seq<Op>, j: nat, k: nat) {
    && j < k && Sensitive(s, e, j) && Sensitive(s, e, k)
    && VisitAt(ops, j) < FirstEnable(ops, j) < FirstEnable(ops, k) < VisitAt(ops, k)
  }

  /** Handler k was enabled inside the dispatch and in time for its visit, and that made a difference. */
  ghost predicate InTime(s: State, e: Event, ops: seq<Op>, k: nat) {
    Sensitive(s, e, k) && FirstEnable(ops, k) < VisitAt(ops, k)
  }

  /** The place just after the last enable, among the first n handlers', that was in time and made a difference. */
  ghost function Cut(s: State, e: Event, ops: seq<Op>, n: nat): (c: nat)
    ensures c <= |ops|
  {
    if n == 0 then 0
    else
      var c := Cut(s, e, ops, n - 1);
      if InTime(s, e, ops, n - 1) && FirstEnable(ops, n - 1) >= c then FirstEnable(ops, n - 1) + 1 else c
  }

  lemma {:induction false} CutIsPastAll(s: State, e: Event, ops: seq<Op>, n: nat, k: nat)
    requires k < n && InTime(s, e, ops, k)
    ensures FirstEnable(ops, k) < Cut(s, e, ops, n)
  {
    if k < n - 1 {
      CutIsPastAll(s, e, ops, n - 1, k);
    }
  }

  lemma {:induction false} CutIsTight(s: State, e: Event, ops: seq<Op>, n: nat) returns (k: nat)
    requires Cut(s, e, ops, n) > 0
    ensures k < n && InTime(s, e, ops, k) && Cut(s, e, ops, n) == FirstEnable(ops, k) + 1
  {
    if InTime(s, e, ops, n - 1) && FirstEnable(ops, n - 1) >= Cut(s, e, ops, n - 1) {
      k := n - 1;
    } else {
      k := CutIsTight(s, e, ops, n - 1);
    }
  }

  /** A handler enabled too late for its visit, yet before the chosen cut, is overtaken. */
  lemma LateBeforeCutIsOvertaken(s: State, e: Event, ops: seq<Op>, j: nat) returns (k: nat)
    requires Inside(s, e, ops) && |VisitOrder(ops)| == |s.handlers|
    requires Sensitive(s, e, j) && VisitAt(ops, j) <= FirstEnable(ops, j) < Cut(s, e, ops, |s.handlers|)
    ensures Overtakes(s, e, ops, j, k)
  {
    k := CutIsTight(s, e, ops, |s.handlers|);
    hide Cut, Inside, VisitOrder, VisitAt, FirstEnable, Changes;
    FirstEnableIs(ops, j);
    FirstEnableIs(ops, k);
    VisitAtIs(ops, j);
    VisitsInOrder(s, e, ops, j, k);
    VisitsInOrder(s, e, ops, k, j);
  }

  /** At the chosen cut, a handler whose enable came too late is enabled after the delivery as well. */
  lemma LateIsAfterCut(s: State, e: Event, ops: seq<Op>, j: nat)
    requires Inside(s, e, ops) && |VisitOrder(ops)| == |s.handlers|
    requires forall i: nat, k: nat :: !Overtakes(s, e, ops, i, k)
    requires Sensitive(s, e, j) && FirstEnable(ops, j) >= VisitAt(ops, j)
    ensures FirstEnable(ops, j) >= Cut(s, e, ops, |s.handlers|)
  {
    hide Overtakes;
    if FirstEnable(ops, j) < Cut(s, e, ops, |s.handlers|) {
      var _ := LateBeforeCutIsOvertaken(s, e, ops, j);
    }
  }

  lemma SameAtCut(s: State, e: Event, ops: seq<Op>, k: nat)
    requires Inside(s, e, ops) && |VisitOrder(ops)| == |s.handlers|
    requires forall i: nat, j: nat :: !Overtakes(s, e, ops, i, j)
    requires k < |s.handlers|
    ensures Meanwhile(s.handlers[k], e, ops, k) == Atomically(s.handlers[k], e, ops, Cut(s, e, ops, |s.handlers|), k)
  {
    var n := |s.handlers|;
    VisitsInOrder(s, e, ops, k, k);
    FirstEnableIs(ops, k);
    if Sensitive(s, e, k) {
      if InTime(s, e, ops, k) {
        CutIsPastAll(s, e, ops, n, k);
      } else {
        LateIsAfterCut(s, e, ops, k);
      }
    }
  }

  /**
    A complete dispatch ends as one atomic delivery, placed somewhere among the enables that fell inside it, if and
    only if no two handlers disabled at its begin, and changed by the event, were enabled the wrong way round: the
    one visited first after its visit, and then the other before its own.
   */
  lemma AtomicExactlyWhen(s: State, e: Event, ops: seq<Op>)
    requires Inside(s, e, ops) && |VisitOrder(ops)| == |s.handlers|
    ensures (exists cut :: 0 <= cut <= |ops| && Exec(s, ops).handlers == AtomicAt(s, e, ops, cut).handlers)
       <==> (forall j: nat, k: nat :: !Overtakes(s, e, ops, j, k))
  {
    if forall j: nat, k: nat :: !Overtakes(s, e, ops, j, k) {
      AtomicUnlessOvertaken(s, e, ops);
    } else {
      var j: nat, k: nat :| Overtakes(s, e, ops, j, k);
      forall cut | 0 <= cut <= |ops|
        ensures Exec(s, ops).handlers != AtomicAt(s, e, ops, cut).handlers
      {
        OvertakingShows(s, e, ops, j, k, cut);
      }
    }
  }

  lemma AtomicUnlessOvertaken(s: State, e: Event, ops: seq<Op>)
    requires Inside(s, e, ops) && |VisitOrder(ops)| == |s.handlers|
    requires forall j: nat, k: nat :: !Overtakes(s, e, ops, j, k)
    ensures Exec(s, ops).handlers == AtomicAt(s, e, ops, Cut(s, e, ops, |s.handlers|)).handlers
  {
    var cut := Cut(s, e, ops, |s.handlers|);
    DispatchVisitsEachOnce(s, e, ops);
    if s.handlers != [] {
      AtomicAtHandler(s, e, ops, cut, 0);
    } else {
      NoHandlersNoEnables(s, e, ops, cut);
    }
    forall k | 0 <= k < |s.handlers|
      ensures Exec(s, ops).handlers[k] == AtomicAt(s, e, ops, cut).handlers[k]
    {
      EachEnableAtItsOwnLock(s, e, ops, k);
      AtomicAtHandler(s, e, ops, cut, k);
      SameAtCut(s, e, ops, k);
    }
  }

  lemma NoHandlersNoEnables(s: State, e: Event, ops: seq<Op>, cut: nat)
    requires Inside(s, e, ops) && s.handlers == [] && cut <= |ops|
    ensures AtomicAt(s, e, ops, cut).handlers == []
  {
    InsideEnablesInRange(s, e, ops);
    assert forall i :: 0 <= i < cut ==> ops[..cut][i] == ops[i];
    assert forall i :: 0 <= i < |ops| - cut ==> ops[cut..][i] == ops[cut + i];
    NoEnables(ops[..cut]);
    NoEnables(ops[cut..]);
  }

  lemma {:induction false} NoEnables(ops: seq<Op>)
    requires forall i :: 0 <= i < |ops| ==> !ops[i].Enable?
    ensures Enables(ops) == []
  {
    if ops != [] {
      assert forall i :: 0 <= i < |Front(ops)| ==> Front(ops)[i] == ops[i];
      NoEnables(Front(ops));
      assert !ops[|ops| - 1].Enable?;
    }
  }

  lemma OvertakingShows(s: State, e: Event, ops: seq<Op>, j: nat, k: nat, cut: nat)
    requires Inside(s, e, ops) && cut <= |ops|
    requires Overtakes(s, e, ops, j, k) && |VisitOrder(ops)| == |s.handlers|
    ensures Exec(s, ops).handlers != AtomicAt(s, e, ops, cut).handlers
  {
    EachEnableAtItsOwnLock(s, e, ops, j);
    EachEnableAtItsOwnLock(s, e, ops, k);
    AtomicAtHandler(s, e, ops, cut, j);
    AtomicAtHandler(s, e, ops, cut, k);
    FirstEnableIs(ops, j);
    FirstEnableIs(ops, k);
    VisitsInOrder(s, e, ops, j, k);
  }

  /** In particular a dispatch is atomic whenever at most one handler was disabled at its begin. */
  lemma AtomicWithOneDisabled(s: State, e: Event, ops: seq<Op>)
    requires Inside(s, e, ops) && |VisitOrder(ops)| == |s.handlers|
    requires forall j, k :: 0 <= j < k < |s.handlers| ==> s.handlers[j].enabled || s.handlers[k].enabled
    ensures exists cut :: 0 <= cut <= |ops| && Exec(s, ops).handlers == AtomicAt(s, e, ops, cut).handlers
  {
    AtomicExactlyWhen(s, e, ops);
  }

  /** And whenever the enables inside it are all of one handler. */
  lemma AtomicWithOneEnabled(s: State, e: Event, ops: seq<Op>, h: nat)
    requires Inside(s, e, ops) && |VisitOrder(ops)| == |s.handlers|
    requires forall i :: 0 <= i < |ops| && ops[i].Enable? ==> ops[i].h == h
    ensures exists cut :: 0 <= cut <= |ops| && Exec(s, ops).handlers == AtomicAt(s, e, ops, cut).handlers
  {
    forall j: nat, k: nat
      ensures !Overtakes(s, e, ops, j, k)
    {
      FirstEnableIs(ops, j);
      FirstEnableIs(ops, k);
    }
    AtomicExactlyWhen(s, e, ops);
  }

  /** With no enable inside, every place is the same: the dispatch is the delivery itself. */
  lemma AtomicWithoutEnables(startTime: int, s: State, e: Event, ops: seq<Op>)
    requires s.progress.NoDispatch? && e.created >= startTime
    requires Legal(s, [Begin(e)] + ops + [End(e)])
    requires forall j :: 0 <= j < |ops| ==> !ops[j].End? && !ops[j].Enable?
    ensures Exec(s, [Begin(e)] + ops + [End(e)]) == Deliver(startTime, s, e)
  {
    var begun := Bracket(s, e, ops);
    AtomicUnlessOvertaken(begun, e, ops) by {
      forall j: nat, k: nat
        ensures !Overtakes(begun, e, ops, j, k)
      {
        FirstEnableIs(ops, j);
      }
    }
    var cut := Cut(begun, e, ops, |begun.handlers|);
    NoEnables(ops[..cut]);
    NoEnables(ops[cut..]);
  }

  /** A bracket from a quiet state: its inside is a complete dispatch, and it ends in the handlers the inside leaves. */
  lemma Bracket(s: State, e: Event, ops: seq<Op>) returns (begun: State)
    requires s.progress.NoDispatch?
    requires Legal(s, [Begin(e)] + ops + [End(e)])
    requires forall j :: 0 <= j < |ops| ==> !ops[j].End?
    ensures begun == s.(progress := Dispatching(e, 0))
    ensures Inside(begun, e, ops) && |VisitOrder(ops)| == |begun.handlers|
    ensures Exec(s, [Begin(e)] + ops + [End(e)]) == Exec(begun, ops).(progress := NoDispatch)
  {
    begun := s.(progress := Dispatching(e, 0));
    assert Front([Begin(e)]) == [] && Last([Begin(e)]) == Begin(e);
    assert Exec(s, [Begin(e)]) == begun;
    ExecConcat(s, [Begin(e)], ops);
    ExecConcat(s, [Begin(e)] + ops, [End(e)]);
    DispatchVisitsEachOnce(begun, e, ops);
    assert Front([End(e)]) == [] && Last([End(e)]) == End(e);
    assert Can(Exec(begun, ops), End(e));
  }
}
