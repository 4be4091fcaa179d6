/**
  The callers of pkg/autoscaler/autoscaler.go register handlers from one goroutine and enable each as soon as onEvent
  returns it. Whatever the other goroutines do, such callers see only atomic dispatches.
 */
module EnableDiscipline {
  import opened Counters
  import opened WatcherSpec
  import P = WatcherProtocol
  import opened WatcherRuns
  import opened DispatchAtomicity

  /** The calls of onEvent and enable that goroutine t starts, in order. */
  function Calls(steps: seq<P.Step>, t: nat): seq<P.Choice> {
    if steps == [] then []
    else
      var s := Last(steps);
      Calls(Front(steps), t) +
      if s.thread == t && (s.choice.StartRegister? || s.choice.StartEnable?) then [s.choice] else []
  }

  /** Register, enable that handler, register the next, enable that one, and so on. */
  predicate RegisterThenEnable(calls: seq<P.Choice>) {
    forall i :: 0 <= i < |calls| ==>
      if i % 2 == 0 then calls[i].StartRegister? else calls[i].StartEnable? && calls[i].h == i / 2
  }

  /** Goroutine t alone registers handlers, and it enables each before it registers the next. */
  predicate OneRegistrar(steps: seq<P.Step>, t: nat) {
    && (forall k :: 0 <= k < |steps| && steps[k].choice.StartRegister? ==> steps[k].thread == t)
    && RegisterThenEnable(Calls(steps, t))
  }

  predicate Registers(pc: P.Pc) {
    pc.RegisterLock? || pc.RegisterAppend?
  }

  predicate AboutToEnable(pc: P.Pc, k: nat) {
    (pc.EnableLock? || pc.EnableSet?) && pc.h == k
  }

  /** How far goroutine t has come once it has started m calls. */
  ghost predicate Stage(c: P.Config, t: nat, m: nat) {
    && t < |c.threads|
    && (forall u :: 0 <= u < |c.threads| && u != t ==> !Registers(c.threads[u]))
    && (if m % 2 == 0 then
          && !Registers(c.threads[t]) && |c.cells| == m / 2
          && forall k :: 0 <= k < m / 2 ==>
               c.cells[k].view.enabled || (k == m / 2 - 1 && AboutToEnable(c.threads[t], k))
        else
          && |c.cells| == m / 2 + (if Registers(c.threads[t]) then 0 else 1)
          && forall k :: 0 <= k < m / 2 ==> c.cells[k].view.enabled)
  }

  lemma StageStep(c: P.Config, t: nat, m: nat, s: P.Step)
    requires Stage(c, t, m) && P.Can(c, s)
    requires s.choice.StartRegister? ==> s.thread == t && m % 2 == 0
    requires s.choice.StartEnable? && s.thread == t ==> m % 2 == 1 && s.choice.h == m / 2
    ensures Stage(P.Do(c, s), t,
                  if s.thread == t && (s.choice.StartRegister? || s.choice.StartEnable?) then m + 1 else m)
  {
    if s.choice.Proceed? {
      StageProceed(c, t, m, s.thread);
    }
  }

  lemma StageProceed(c: P.Config, t: nat, m: nat, u: nat)
    requires Stage(c, t, m) && P.Can(c, P.Step(u, P.Proceed))
    ensures Stage(P.Do(c, P.Step(u, P.Proceed)), t, m)
  {
  }

  lemma {:induction false} StageRun(startTime: int, threads: nat, steps: seq<P.Step>, t: nat)
    requires Possible(P.Start(startTime, threads), steps) && OneRegistrar(steps, t)
    requires t < threads
    ensures Stage(RunFrom(P.Start(startTime, threads), steps), t, |Calls(steps, t)|)
  {
    if steps != [] {
      var calls, init := Calls(steps, t), Calls(Front(steps), t);
      assert forall k :: 0 <= k < |Front(steps)| ==> Front(steps)[k] == steps[k];
      assert forall i :: 0 <= i < |init| ==> init[i] == calls[i];
      StageRun(startTime, threads, Front(steps), t);
      var s := Last(steps);
      assert s == steps[|steps| - 1];
      if s.thread == t && (s.choice.StartRegister? || s.choice.StartEnable?) {
        assert calls[|init|] == s.choice;
      }
      StageStep(RunFrom(P.Start(startTime, threads), Front(steps)), t, |init|, s);
    }
  }

  /** The sequential steps of a run up to any of them are those of a part of the run. */
  lemma {:induction false} EffectsPrefix(c: P.Config, steps: seq<P.Step>, n: nat) returns (p: nat)
    requires n <= |Effects(c, steps)|
    ensures p <= |steps| && Effects(c, steps[..p]) == Effects(c, steps)[..n]
  {
    if n == |Effects(c, steps)| {
      p := |steps|;
      assert steps[..p] == steps;
    } else {
      p := EffectsPrefix(c, Front(steps), n);
      assert Front(steps)[..p] == steps[..p];
    }
  }

  lemma PrefixKeepsDiscipline(steps: seq<P.Step>, p: nat, t: nat)
    requires OneRegistrar(steps, t) && p <= |steps|
    ensures OneRegistrar(steps[..p], t)
    decreases |steps|
  {
    if p == |steps| {
      assert steps[..p] == steps;
    } else {
      var calls, init := Calls(steps, t), Calls(Front(steps), t);
      assert forall k :: 0 <= k < |Front(steps)| ==> Front(steps)[k] == steps[k];
      assert forall i :: 0 <= i < |init| ==> init[i] == calls[i];
      PrefixKeepsDiscipline(Front(steps), p, t);
      assert Front(steps)[..p] == steps[..p];
    }
  }

  /** In every run of such a caller, at every moment, all handlers but the newest are enabled. */
  lemma OnlyTheNewestIsDisabled(startTime: int, threads: nat, steps: seq<P.Step>, t: nat, k: nat)
    requires Possible(P.Start(startTime, threads), steps) && OneRegistrar(steps, t) && t < threads
    requires k < |Exec(Empty, Effects(P.Start(startTime, threads), steps)).handlers| - 1
    ensures Exec(Empty, Effects(P.Start(startTime, threads), steps)).handlers[k].enabled
  {
    var c := RunFrom(P.Start(startTime, threads), steps);
    RunRefinesEmpty(startTime, threads, steps);
    StageRun(startTime, threads, steps, t);
    assert P.Abs(c).handlers[k] == P.Shown(c.cells[k], k, P.HolderPc(c));
  }

  /** Every complete dispatch in such a run ends as one atomic delivery among the enables that fell inside it. */
  lemma DispatchesAreAtomic(startTime: int, threads: nat, steps: seq<P.Step>, t: nat,
                            before: seq<Op>, e: Event, ops: seq<Op>, after: seq<Op>)
    requires Possible(P.Start(startTime, threads), steps) && OneRegistrar(steps, t) && t < threads
    requires Effects(P.Start(startTime, threads), steps) == before + [Begin(e)] + ops + [End(e)] + after
    requires forall i :: 0 <= i < |ops| ==> !ops[i].End?
    ensures exists cut :: 0 <= cut <= |ops| &&
              Exec(Empty, before + [Begin(e)] + ops + [End(e)]).handlers
              == AtomicAt(Exec(Empty, before), e, ops, cut).handlers
  {
    hide Possible, OneRegistrar, RunFrom, AtomicAt;
    var start := P.Start(startTime, threads);
    RunRefinesEmpty(startTime, threads, steps);
    BracketIsLegal(before, e, ops, after);
    var p := EffectsPrefix(start, steps, |before|);
    assert Effects(start, steps)[..|before|] == before;
    AllButNewest(startTime, threads, steps, t, p);
    AtomicBracket(Exec(Empty, before), e, ops);
  }

  lemma AtomicBracket(s: State, e: Event, ops: seq<Op>)
    requires s.progress.NoDispatch? && Legal(s, [Begin(e)] + ops + [End(e)])
    requires forall i :: 0 <= i < |ops| ==> !ops[i].End?
    requires forall k :: 0 <= k < |s.handlers| - 1 ==> s.handlers[k].enabled
    ensures exists cut :: 0 <= cut <= |ops| &&
              Exec(s, [Begin(e)] + ops + [End(e)]).handlers == AtomicAt(s, e, ops, cut).handlers
  {
    var begun := Bracket(s, e, ops);
    AtomicWithOneDisabled(begun, e, ops);
    var cut :| 0 <= cut <= |ops| && Exec(begun, ops).handlers == AtomicAt(begun, e, ops, cut).handlers;
    assert begun.(progress := NoDispatch) == s.(progress := NoDispatch);
    assert AtomicAt(begun, e, ops, cut) == AtomicAt(s, e, ops, cut);
  }

  lemma AllButNewest(startTime: int, threads: nat, steps: seq<P.Step>, t: nat, p: nat)
    requires Possible(P.Start(startTime, threads), steps) && OneRegistrar(steps, t) && t < threads
    requires p <= |steps|
    ensures var hs := Exec(Empty, Effects(P.Start(startTime, threads), steps[..p])).handlers;
            forall k :: 0 <= k < |hs| - 1 ==> hs[k].enabled
  {
    assert steps == steps[..p] + steps[p..];
    RunConcat(P.Start(startTime, threads), steps[..p], steps[p..]);
    PrefixKeepsDiscipline(steps, p, t);
    var hs := Exec(Empty, Effects(P.Start(startTime, threads), steps[..p])).handlers;
    forall k | 0 <= k < |hs| - 1
      ensures hs[k].enabled
    {
      OnlyTheNewestIsDisabled(startTime, threads, steps[..p], t, k);
    }
  }

  lemma BracketIsLegal(before: seq<Op>, e: Event, ops: seq<Op>, after: seq<Op>)
    requires Legal(Empty, before + [Begin(e)] + ops + [End(e)] + after)
    ensures Exec(Empty, before).progress.NoDispatch?
    ensures Legal(Exec(Empty, before), [Begin(e)] + ops + [End(e)])
    ensures Exec(Empty, before + [Begin(e)] + ops + [End(e)])
         == Exec(Exec(Empty, before), [Begin(e)] + ops + [End(e)])
  {
    hide Legal, Exec;
    var bracket := [Begin(e)] + ops + [End(e)];
    assert before + [Begin(e)] + ops + [End(e)] + after == (before + bracket) + after;
    assert before + [Begin(e)] + ops + [End(e)] == before + bracket;
    ExecConcat(Empty, before + bracket, after);
    ExecConcat(Empty, before, bracket);
    assert bracket == [Begin(e)] + (ops + [End(e)]);
    ExecConcat(Exec(Empty, before), [Begin(e)], ops + [End(e)]);
    BeginIsQuiet(Exec(Empty, before), e);
  }

  lemma BeginIsQuiet(s: State, e: Event)
    requires Legal(s, [Begin(e)])
    ensures s.progress.NoDispatch?
  {
    assert Front([Begin(e)]) == [] && Last([Begin(e)]) == Begin(e);
  }
}
