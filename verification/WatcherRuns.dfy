/** What holds in every interleaving of the event watcher protocol, for any number of goroutines and handlers. */
module WatcherRuns {
  import opened Counters
  import opened WatcherSpec
  import P = WatcherProtocol

  function RunFrom(c: P.Config, steps: seq<P.Step>): P.Config {
    if steps == [] then c
    else
      var d := RunFrom(c, Front(steps));
      if P.Can(d, Last(steps)) then P.Do(d, Last(steps)) else d
  }

  predicate Possible(c: P.Config, steps: seq<P.Step>) {
    steps == [] || (Possible(c, Front(steps)) && P.Can(RunFrom(c, Front(steps)), Last(steps)))
  }

  /** The sequential steps a run amounts to, each at the protocol step that is its moment. */
  function Effects(c: P.Config, steps: seq<P.Step>): seq<Op> {
    if steps == [] then []
    else
      var d := RunFrom(c, Front(steps));
      Effects(c, Front(steps)) + if P.Can(d, Last(steps)) then P.Effect(d, Last(steps)) else []
  }

  lemma {:induction false} RunConcat(c: P.Config, a: seq<P.Step>, b: seq<P.Step>)
    ensures RunFrom(c, a + b) == RunFrom(RunFrom(c, a), b)
    ensures Possible(c, a + b) <==> Possible(c, a) && Possible(RunFrom(c, a), b)
    ensures Effects(c, a + b) == Effects(c, a) + Effects(RunFrom(c, a), b)
  {
    if b == [] {
      assert a + b == a;
    } else {
      assert Front(a + b) == a + Front(b) && Last(a + b) == Last(b);
      RunConcat(c, a, Front(b));
      var last := if P.Can(RunFrom(c, a + Front(b)), Last(b)) then P.Effect(RunFrom(c, a + Front(b)), Last(b)) else [];
      assert Effects(c, a + b) == Effects(c, a) + Effects(RunFrom(c, a), Front(b)) + last;
    }
  }

  /** Every run of the locked, fine-grained protocol is a legal sequential run of its effects, with the same outcome. */
  lemma {:induction false} RunRefines(c: P.Config, steps: seq<P.Step>)
    requires P.Inv(c)
    requires Possible(c, steps)
    ensures P.Inv(RunFrom(c, steps))
    ensures Legal(P.Abs(c), Effects(c, steps))
    ensures P.Abs(RunFrom(c, steps)) == Exec(P.Abs(c), Effects(c, steps))
  {
    if steps != [] {
      var d, s := RunFrom(c, Front(steps)), Last(steps);
      RunRefines(c, Front(steps));
      P.InvKept(d, s);
      P.StepRefines(d, s);
      ExecConcat(P.Abs(c), Effects(c, Front(steps)), P.Effect(d, s));
    }
  }

  lemma RunRefinesEmpty(startTime: int, threads: nat, steps: seq<P.Step>)
    requires Possible(P.Start(startTime, threads), steps)
    ensures P.Inv(RunFrom(P.Start(startTime, threads), steps))
    ensures Legal(Empty, Effects(P.Start(startTime, threads), steps))
    ensures P.Abs(RunFrom(P.Start(startTime, threads), steps))
         == Exec(Empty, Effects(P.Start(startTime, threads), steps))
  {
    P.InvStart(startTime, threads);
    RunRefines(P.Start(startTime, threads), steps);
    assert P.Abs(P.Start(startTime, threads)) == Empty;
  }

  // ---------- no call is lost, duplicated or altered ----------

  /** s starts a call that is to take effect as op: a registration, an enable, or the delivery of a fresh event. */
  ghost predicate Starts(startTime: int, s: P.Step, op: Op) {
    match op
    case Register(def) => s.choice.StartRegister? && s.choice.def == def
    case Enable(h) => s.choice == P.StartEnable(h)
    case Begin(e) => s.choice == P.StartDelivery(e) && e.created >= startTime
    case _ => false
  }

  /** A goroutine at pc has started such a call, and it has yet to take effect. */
  ghost predicate Owes(startTime: int, pc: P.Pc, op: Op) {
    match op
    case Register(def) => (pc.RegisterLock? || pc.RegisterAppend?) && pc.def == def
    case Enable(h) => pc == P.EnableLock(h) || pc == P.EnableSet(h)
    case Begin(e) => (pc == P.AgeCheck(e) && e.created >= startTime) || pc == P.ListLock(e)
    case _ => false
  }

  /** How many such calls a run starts. */
  ghost function Started(startTime: int, steps: seq<P.Step>, op: Op): nat {
    if steps == [] then 0
    else Started(startTime, Front(steps), op) + if Starts(startTime, Last(steps), op) then 1 else 0
  }

  /** How many goroutines owe such a call its effect. */
  ghost function Owing(startTime: int, threads: seq<P.Pc>, op: Op): nat {
    if threads == [] then 0
    else Owing(startTime, Front(threads), op) + if Owes(startTime, Last(threads), op) then 1 else 0
  }

  lemma {:induction false} OwingUpdate(startTime: int, threads: seq<P.Pc>, t: nat, pc: P.Pc, op: Op)
    requires t < |threads|
    ensures Owing(startTime, threads[t := pc], op) + (if Owes(startTime, threads[t], op) then 1 else 0)
         == Owing(startTime, threads, op) + if Owes(startTime, pc, op) then 1 else 0
  {
    var updated := threads[t := pc];
    if t == |threads| - 1 {
      assert Front(updated) == Front(threads);
    } else {
      assert Front(updated) == Front(threads)[t := pc] && Last(updated) == Last(threads);
      OwingUpdate(startTime, Front(threads), t, pc, op);
    }
  }

  lemma {:induction false} NobodyOwes(startTime: int, threads: nat, op: Op)
    ensures Owing(startTime, seq(threads, _ => P.Idle), op) == 0
  {
    if threads > 0 {
      assert Front(seq(threads, _ => P.Idle)) == seq(threads - 1, _ => P.Idle);
      NobodyOwes(startTime, threads - 1, op);
    }
  }

  lemma OneOp(ops: seq<Op>, op: Op)
    requires |ops| <= 1
    ensures multiset(ops)[op] == if op in ops then 1 else 0
  {
    if ops != [] {
      assert ops == [ops[0]];
    }
  }

  lemma ProceedOwes(c: P.Config, t: nat, op: Op)
    requires P.Can(c, P.Step(t, P.Proceed))
    requires op.Register? || op.Enable? || op.Begin?
    ensures Owes(c.startTime, c.threads[t], op) <==>
            Owes(c.startTime, P.NextPc(c, c.threads[t]), op) || op in P.Effect(c, P.Step(t, P.Proceed))
    ensures !(Owes(c.startTime, P.NextPc(c, c.threads[t]), op) && op in P.Effect(c, P.Step(t, P.Proceed)))
  {
  }

  lemma NextOwes(c: P.Config, s: P.Step, op: Op) returns (pc: P.Pc)
    requires P.Can(c, s)
    requires op.Register? || op.Enable? || op.Begin?
    ensures s.thread < |c.threads|
    ensures P.Do(c, s).threads == c.threads[s.thread := pc] && P.Do(c, s).startTime == c.startTime
    ensures (if Owes(c.startTime, pc, op) then 1 else 0) + multiset(P.Effect(c, s))[op]
         == (if Owes(c.startTime, c.threads[s.thread], op) then 1 else 0)
            + if Starts(c.startTime, s, op) then 1 else 0
  {
    pc := P.Do(c, s).threads[s.thread];
    OneOp(P.Effect(c, s), op);
    if s.choice.Proceed? {
      ProceedOwes(c, s.thread, op);
      hide P.Effect, P.NextPc, Owes;
    }
  }

  lemma StepConserves(c: P.Config, s: P.Step, op: Op)
    requires P.Can(c, s)
    requires op.Register? || op.Enable? || op.Begin?
    ensures P.Do(c, s).startTime == c.startTime
    ensures Owing(c.startTime, P.Do(c, s).threads, op) + multiset(P.Effect(c, s))[op]
         == Owing(c.startTime, c.threads, op) + if Starts(c.startTime, s, op) then 1 else 0
  {
    hide P.Do, P.Can, P.Effect, Owing, Owes, Starts;
    var pc := NextOwes(c, s, op);
    OwingUpdate(c.startTime, c.threads, s.thread, pc, op);
  }

  /**
    Each registration, enable and delivery of a fresh event takes effect exactly once and just as it was asked for, or
    its goroutine is still on its way to the effect.
   */
  lemma {:induction false} CallsConserved(startTime: int, threads: nat, steps: seq<P.Step>, op: Op)
    requires Possible(P.Start(startTime, threads), steps)
    requires op.Register? || op.Enable? || op.Begin?
    ensures RunFrom(P.Start(startTime, threads), steps).startTime == startTime
    ensures Started(startTime, steps, op)
         == multiset(Effects(P.Start(startTime, threads), steps))[op]
            + Owing(startTime, RunFrom(P.Start(startTime, threads), steps).threads, op)
  {
    var c := P.Start(startTime, threads);
    if steps == [] {
      NobodyOwes(startTime, threads, op);
    } else {
      var d, s := RunFrom(c, Front(steps)), Last(steps);
      CallsConserved(startTime, threads, Front(steps), op);
      hide P.Do, P.Can, P.Effect, Owing, P.Start;
      StepConserves(d, s, op);
    }
  }

  lemma {:induction false} DispatchesAreBegins(ops: seq<Op>, e: Event)
    ensures multiset(Dispatched(ops))[e] == multiset(ops)[Begin(e)]
  {
    if ops != [] {
      assert ops == Front(ops) + [Last(ops)];
      DispatchesAreBegins(Front(ops), e);
    }
  }

  lemma {:induction false} RegisteredAreRegistrations(ops: seq<Op>, def: Definition)
    ensures multiset(Registered(ops))[def] == multiset(ops)[Register(def)]
  {
    if ops != [] {
      assert ops == Front(ops) + [Last(ops)];
      RegisteredAreRegistrations(Front(ops), def);
    }
  }

  /**
    Each delivery of a fresh event is dispatched exactly once, or its goroutine is still on its way to the list
    lock.
   */
  lemma EventsConserved(startTime: int, threads: nat, steps: seq<P.Step>, e: Event)
    requires Possible(P.Start(startTime, threads), steps)
    ensures Started(startTime, steps, Begin(e))
         == multiset(Dispatched(Effects(P.Start(startTime, threads), steps)))[e]
            + Owing(startTime, RunFrom(P.Start(startTime, threads), steps).threads, Begin(e))
  {
    hide RunFrom, Possible, Effects, Started, Owing, Dispatched;
    CallsConserved(startTime, threads, steps, Begin(e));
    DispatchesAreBegins(Effects(P.Start(startTime, threads), steps), e);
  }

  /** Each call of onEvent registers the definition it was given once, or its goroutine has yet to append it. */
  lemma RegistrationsConserved(startTime: int, threads: nat, steps: seq<P.Step>, def: Definition)
    requires Possible(P.Start(startTime, threads), steps)
    ensures Started(startTime, steps, Register(def))
         == multiset(Registered(Effects(P.Start(startTime, threads), steps)))[def]
            + Owing(startTime, RunFrom(P.Start(startTime, threads), steps).threads, Register(def))
  {
    hide RunFrom, Possible, Effects, Started, Owing, Registered;
    CallsConserved(startTime, threads, steps, Register(def));
    RegisteredAreRegistrations(Effects(P.Start(startTime, threads), steps), def);
  }

  /** The definitions given to onEvent, in the order of the calls. */
  function Asked(steps: seq<P.Step>): seq<Definition> {
    if steps == [] then []
    else Asked(Front(steps)) + if Last(steps).choice.StartRegister? then [Last(steps).choice.def] else []
  }

  /** The definition a goroutine has yet to append. */
  function Unappended(pc: P.Pc): seq<Definition> {
    if pc.RegisterLock? || pc.RegisterAppend? then [pc.def] else []
  }

  lemma StepRegisters(c: P.Config, s: P.Step, t: nat)
    requires P.Can(c, s) && t < |c.threads|
    requires s.choice.StartRegister? ==> s.thread == t
    requires forall u :: 0 <= u < |c.threads| && u != t ==> Unappended(c.threads[u]) == []
    ensures |P.Do(c, s).threads| == |c.threads|
    ensures forall u :: 0 <= u < |c.threads| && u != t ==> Unappended(P.Do(c, s).threads[u]) == []
    ensures Registered(P.Effect(c, s)) + Unappended(P.Do(c, s).threads[t])
         == Unappended(c.threads[t]) + if s.choice.StartRegister? then [s.choice.def] else []
  {
    var ops := P.Effect(c, s);
    assert ops != [] ==> Front(ops) == [];
  }

  lemma {:induction false} RegisteredConcat(a: seq<Op>, b: seq<Op>)
    ensures Registered(a + b) == Registered(a) + Registered(b)
  {
    if b == [] {
      assert a + b == a;
    } else {
      assert Front(a + b) == a + Front(b) && Last(a + b) == Last(b);
      RegisteredConcat(a, Front(b));
    }
  }

  /** When one goroutine makes all the calls of onEvent, the handlers are those it asked for, in that order. */
  lemma {:induction false} RegisteredInCallOrder(startTime: int, threads: nat, steps: seq<P.Step>, t: nat)
    requires Possible(P.Start(startTime, threads), steps) && t < threads
    requires forall k :: 0 <= k < |steps| && steps[k].choice.StartRegister? ==> steps[k].thread == t
    ensures var c := RunFrom(P.Start(startTime, threads), steps);
            && |c.threads| == threads
            && (forall u :: 0 <= u < threads && u != t ==> Unappended(c.threads[u]) == [])
            && Registered(Effects(P.Start(startTime, threads), steps)) + Unappended(c.threads[t]) == Asked(steps)
  {
    if steps != [] {
      var c, s := P.Start(startTime, threads), Last(steps);
      var d := RunFrom(c, Front(steps));
      assert forall k :: 0 <= k < |Front(steps)| ==> Front(steps)[k] == steps[k];
      RegisteredInCallOrder(startTime, threads, Front(steps), t);
      assert s == steps[|steps| - 1];
      StepRegisters(d, s, t);
      RegisteredConcat(Effects(c, Front(steps)), P.Effect(d, s));
    }
  }

  // ---------- the counters ----------

  /**
    In every interleaving each counter is its initial value moved once per event that its matcher, run in order over the
    visits made after its enable, accepts. Outside a dispatch those visits are all the events dispatched since its
    registration, less the ones that went by before its enable.
   */
  lemma CounterInEveryInterleaving(startTime: int, threads: nat, steps: seq<P.Step>, h: nat)
    requires Possible(P.Start(startTime, threads), steps)
    requires h < |RunFrom(P.Start(startTime, threads), steps).cells|
    ensures var c := RunFrom(P.Start(startTime, threads), steps);
            var ops := Effects(P.Start(startTime, threads), steps);
            && |c.cells| == |Registered(ops)|
            && c.cells[h].view.def == Registered(ops)[h]
            && c.cells[h].view.enabled == EnabledIn(ops, h)
            && c.cells[h].view.counter ==
               var def := Registered(ops)[h];
               Moved(def.callback, def.initial, Accepted(def, Armed(ops, h)))
    ensures var c := RunFrom(P.Start(startTime, threads), steps);
            var ops := Effects(P.Start(startTime, threads), steps);
            !P.InDispatch(P.HolderPc(c)) ==>
                  && Since(ops, h) + Missed(ops, h) <= |Dispatched(ops)|
                  && c.cells[h].view.groups == GroupsAfter(c.cells[h].view.def, Armed(ops, h))
                  && Armed(ops, h) ==
                     if EnabledIn(ops, h) then Dispatched(ops)[Since(ops, h) + Missed(ops, h)..] else []
  {
    RunRefinesEmpty(startTime, threads, steps);
    var c := RunFrom(P.Start(startTime, threads), steps);
    var ops := Effects(P.Start(startTime, threads), steps);
    RegisteredHandlers(ops);
    assert P.Abs(c).handlers[h] == P.Shown(c.cells[h], h, P.HolderPc(c));
    HandlerClosedForm(ops, h);
    if !P.InDispatch(P.HolderPc(c)) {
      ArmedIsSuffixOfDispatched(ops, h);
    }
  }

  lemma HandlerOf(startTime: int, threads: nat, steps: seq<P.Step>, h: nat, def: Definition)
    requires Possible(P.Start(startTime, threads), steps)
    requires h < |RunFrom(P.Start(startTime, threads), steps).cells|
    requires RunFrom(P.Start(startTime, threads), steps).cells[h].view.def == def
    ensures var c := RunFrom(P.Start(startTime, threads), steps);
            var armed := Armed(Effects(P.Start(startTime, threads), steps), h);
            && c.cells[h].view.counter == Moved(def.callback, def.initial, Accepted(def, armed))
            && (!P.InDispatch(P.HolderPc(c)) ==> c.cells[h].view.groups == GroupsAfter(def, armed))
  {
    CounterInEveryInterleaving(startTime, threads, steps, h);
  }

  // ---------- mutual exclusion ----------

  /**
    The goroutine is between locking and unlocking handler k inside a dispatch: testing it, matching, or calling
    back.
   */
  predicate Inside(pc: P.Pc, k: nat) {
    && (pc.Test? || pc.CallMatcher? || pc.InMatcher? || pc.CallBack? || pc.NestedLock? || pc.HandlerUnlock?)
    && pc.i == k
  }

  lemma InsideExcludes(c: P.Config, t: nat, k: nat, u: nat)
    requires P.Inv(c)
    requires t < |c.threads| && Inside(c.threads[t], k)
    ensures k < |c.cells| && c.listLock == P.By(t) && c.cells[k].lock == P.By(t)
    ensures u < |c.threads| && u != t ==> !P.HoldsList(c.threads[u]) && !P.HoldsCell(c.threads[u], k)
  {
    assert P.Sound(c.cells, c.threads[t]);
    assert P.HoldsCell(c.threads[t], k);
  }

  /**
    Matchers and callbacks run only under both locks, never two at a time, and no enable of that handler overlaps
    them.
   */
  lemma MutualExclusion(startTime: int, threads: nat, steps: seq<P.Step>, t: nat, k: nat)
    requires Possible(P.Start(startTime, threads), steps)
    requires var c := RunFrom(P.Start(startTime, threads), steps); t < |c.threads| && Inside(c.threads[t], k)
    ensures var c := RunFrom(P.Start(startTime, threads), steps);
            && k < |c.cells| && c.listLock == P.By(t) && c.cells[k].lock == P.By(t)
            && forall u, j: nat :: 0 <= u < |c.threads| && u != t ==>
                 !Inside(c.threads[u], j) && !P.HoldsList(c.threads[u]) && !P.HoldsCell(c.threads[u], k)
  {
    RunRefinesEmpty(startTime, threads, steps);
    var c := RunFrom(P.Start(startTime, threads), steps);
    InsideExcludes(c, t, k, t);
    forall u, j: nat | 0 <= u < |c.threads| && u != t
      ensures !Inside(c.threads[u], j) && !P.HoldsList(c.threads[u]) && !P.HoldsCell(c.threads[u], k)
    {
      InsideExcludes(c, t, k, u);
    }
  }

  /**
    While one goroutine is inside a handler, no step of another changes that handler, its captured state or its
    counter.
   */
  lemma InsideIsUndisturbed(startTime: int, threads: nat, steps: seq<P.Step>, t: nat, k: nat, s: P.Step)
    requires Possible(P.Start(startTime, threads), steps)
    requires var c := RunFrom(P.Start(startTime, threads), steps);
             t < |c.threads| && Inside(c.threads[t], k) && P.Can(c, s)
    requires s.thread != t
    ensures var c := RunFrom(P.Start(startTime, threads), steps);
            k < |c.cells| == |P.Do(c, s).cells| && P.Do(c, s).cells[k] == c.cells[k]
  {
    MutualExclusion(startTime, threads, steps, t, k);
    RunRefinesEmpty(startTime, threads, steps);
    var c := RunFrom(P.Start(startTime, threads), steps);
    assert P.Sound(c.cells, c.threads[s.thread]);
    assert !P.HoldsList(c.threads[s.thread]) && !P.HoldsCell(c.threads[s.thread], k);
  }

  // ---------- progress ----------

  /** When some call is unfinished and no callback waits in a nested onEvent, some goroutine can take its next step. */
  lemma SomeoneCanProceed(c: P.Config, t: nat) returns (u: nat)
    requires P.Inv(c)
    requires t < |c.threads| && c.threads[t] != P.Idle
    requires forall u :: 0 <= u < |c.threads| ==> !c.threads[u].NestedLock?
    ensures P.Can(c, P.Step(u, P.Proceed))
  {
    u := t;
    if c.listLock.By? {
      u := c.listLock.thread;
    }
    assert P.Sound(c.cells, c.threads[u]);
    if !P.CanProceed(c, c.threads[u]) {
      var k := if c.threads[u].Loop? then c.threads[u].i else c.threads[u].h;
      var v := c.cells[k].lock.thread;
      assert P.HoldsCell(c.threads[v], k);
      assert P.Sound(c.cells, c.threads[v]);
      assert P.HoldsList(c.threads[v]) <==> c.listLock == P.By(v);
      u := v;
    }
  }

  /** No handler registered, or on its way to be, has a callback that calls onEvent. */
  ghost predicate Flat(c: P.Config) {
    && (forall k :: 0 <= k < |c.cells| ==> !c.cells[k].nested)
    && (forall t :: 0 <= t < |c.threads| ==> FlatPc(c.threads[t]))
  }

  predicate FlatPc(pc: P.Pc) {
    && !pc.NestedLock?
    && ((pc.RegisterLock? || pc.RegisterAppend?) ==> !pc.nested)
  }

  predicate FlatStart(s: P.Step) {
    s.choice.StartRegister? ==> !s.choice.nested
  }

  predicate FlatStarts(steps: seq<P.Step>) {
    forall k :: 0 <= k < |steps| ==> FlatStart(steps[k])
  }

  lemma FlatKept(c: P.Config, s: P.Step)
    requires Flat(c) && P.Can(c, s) && FlatStart(s)
    ensures Flat(P.Do(c, s))
  {
  }

  lemma {:induction false} FlatRun(c: P.Config, steps: seq<P.Step>)
    requires Flat(c) && Possible(c, steps) && FlatStarts(steps)
    ensures Flat(RunFrom(c, steps))
  {
    if steps != [] {
      assert forall k :: 0 <= k < |Front(steps)| ==> Front(steps)[k] == steps[k];
      FlatRun(c, Front(steps));
      assert FlatStart(steps[|steps| - 1]);
      FlatKept(RunFrom(c, Front(steps)), Last(steps));
    }
  }

  /**
    The steps a goroutine may still take in its call when at most m handlers can be registered by the time it
    dispatches.
   */
  function Work(pc: P.Pc, m: nat): int {
    match pc
    case Idle => 0
    case RegisterLock(_, _) => 3
    case RegisterAppend(_, _) => 2
    case RegisterUnlock => 1
    case EnableLock(_) => 3
    case EnableSet(_) => 2
    case EnableUnlock(_) => 1
    case AgeCheck(_) => 4 + 7 * m
    case ListLock(_) => 3 + 7 * m
    case Loop(_, i, n) => 2 + 7 * (n - i)
    case Test(_, i, n) => 1 + 7 * (n - i)
    case CallMatcher(_, i, n) => 7 * (n - i)
    case InMatcher(_, i, n, _) => 7 * (n - i) - 1
    case CallBack(_, i, n, _) => 7 * (n - i) - 2
    case NestedLock(_, i, n, _) => 7 * (n - i) - 3
    case HandlerUnlock(_, i, n) => 7 * (n - i) - 4
    case ListUnlock(_) => 1
  }

  function TotalWork(threads: seq<P.Pc>, m: nat): int {
    if threads == [] then 0 else TotalWork(Front(threads), m) + Work(Last(threads), m)
  }

  /** The registrations under way that have yet to append. */
  function Registering(threads: seq<P.Pc>): nat {
    if threads == [] then 0
    else Registering(Front(threads)) + if Last(threads).RegisterLock? || Last(threads).RegisterAppend? then 1 else 0
  }

  function StepsLeft(c: P.Config): int {
    TotalWork(c.threads, |c.cells| + Registering(c.threads))
  }

  lemma {:induction false} WorkUpdate(threads: seq<P.Pc>, m: nat, t: nat, pc: P.Pc)
    requires t < |threads|
    ensures TotalWork(threads[t := pc], m) == TotalWork(threads, m) - Work(threads[t], m) + Work(pc, m)
    ensures Registering(threads[t := pc]) ==
            Registering(threads) - (if threads[t].RegisterLock? || threads[t].RegisterAppend? then 1 else 0)
            + (if pc.RegisterLock? || pc.RegisterAppend? then 1 else 0)
  {
    var updated := threads[t := pc];
    if t == |threads| - 1 {
      assert Front(updated) == Front(threads);
    } else {
      assert Front(updated) == Front(threads)[t := pc] && Last(updated) == Last(threads);
      WorkUpdate(Front(threads), m, t, pc);
    }
  }

  lemma {:induction false} WorkNonNegative(c: P.Config, k: nat, m: nat)
    requires P.AllSound(c)
    requires k <= |c.threads|
    ensures TotalWork(c.threads[..k], m) >= 0
  {
    if k > 0 {
      assert Front(c.threads[..k]) == c.threads[..k - 1] && Last(c.threads[..k]) == c.threads[k - 1];
      WorkNonNegative(c, k - 1, m);
      assert P.Sound(c.cells, c.threads[k - 1]);
    }
  }

  lemma WorkFalls(c: P.Config, pc: P.Pc, m: nat)
    requires P.CanProceed(c, pc) && P.Sound(c.cells, pc)
    requires |c.cells| <= m
    ensures Work(P.NextPc(c, pc), m) < Work(pc, m)
  {
  }

  lemma StepsLeftNonNegative(c: P.Config)
    requires P.AllSound(c)
    ensures StepsLeft(c) >= 0
  {
    WorkNonNegative(c, |c.threads|, |c.cells| + Registering(c.threads));
    assert c.threads[..|c.threads|] == c.threads;
  }

  lemma CellsGrow(c: P.Config, t: nat)
    requires P.Can(c, P.Step(t, P.Proceed))
    ensures |P.Do(c, P.Step(t, P.Proceed)).cells| == |c.cells| + if c.threads[t].RegisterAppend? then 1 else 0
  {
  }

  lemma ProceedCosts(c: P.Config, t: nat)
    requires P.AllSound(c)
    requires P.Can(c, P.Step(t, P.Proceed))
    ensures StepsLeft(P.Do(c, P.Step(t, P.Proceed))) < StepsLeft(c)
  {
    var pc := c.threads[t];
    var next, m := P.NextPc(c, pc), |c.cells| + Registering(c.threads);
    assert P.Sound(c.cells, pc);
    WorkFalls(c, pc, m);
    WorkUpdate(c.threads, m, t, next);
    CellsGrow(c, t);
    RegisteringNext(c, pc);
  }

  lemma RegisteringNext(c: P.Config, pc: P.Pc)
    requires P.CanProceed(c, pc)
    ensures P.NextPc(c, pc).RegisterLock? || P.NextPc(c, pc).RegisterAppend? <==> pc.RegisterLock?
  {
  }

  /**
    However the unfinished calls are interleaved, they take at most StepsLeft steps, and with no nested onEvent they can
    only stop all returned.
   */
  lemma {:induction false} CallsTerminate(c: P.Config, steps: seq<P.Step>)
    requires P.Inv(c) && Flat(c)
    requires Possible(c, steps)
    requires forall k :: 0 <= k < |steps| ==> steps[k].choice == P.Proceed
    ensures |RunFrom(c, steps).threads| == |c.threads|
    ensures |steps| + StepsLeft(RunFrom(c, steps)) <= StepsLeft(c)
    ensures StepsLeft(RunFrom(c, steps)) >= 0
    ensures (forall u: nat :: !P.Can(RunFrom(c, steps), P.Step(u, P.Proceed))) <==>
            (forall t :: 0 <= t < |c.threads| ==> RunFrom(c, steps).threads[t] == P.Idle)
  {
    var d := RunFrom(c, steps);
    RunRefines(c, steps);
    ThreadsStay(c, steps);
    StepsLeftNonNegative(d);
    FlatRun(c, steps);
    if steps == [] {
    } else {
      assert forall k :: 0 <= k < |Front(steps)| ==> Front(steps)[k] == steps[k];
      CallsTerminate(c, Front(steps));
      RunRefines(c, Front(steps));
      assert Last(steps) == steps[|steps| - 1];
      ProceedCosts(RunFrom(c, Front(steps)), Last(steps).thread);
    }
    if t :| 0 <= t < |c.threads| && d.threads[t] != P.Idle {
      var u := SomeoneCanProceed(d, t);
      assert P.Can(d, P.Step(u, P.Proceed));
    }
  }

  lemma {:induction false} ThreadsStay(c: P.Config, steps: seq<P.Step>)
    ensures |RunFrom(c, steps).threads| == |c.threads|
  {
    if steps != [] {
      ThreadsStay(c, Front(steps));
    }
  }

  /**
    No reachable state is deadlocked while no callback waits in a nested onEvent: if some call is unfinished, some call
    can take its next step.
   */
  lemma DeadlockNeedsNesting(startTime: int, threads: nat, steps: seq<P.Step>, t: nat)
    requires Possible(P.Start(startTime, threads), steps)
    requires t < |RunFrom(P.Start(startTime, threads), steps).threads|
    requires RunFrom(P.Start(startTime, threads), steps).threads[t] != P.Idle
    requires var c := RunFrom(P.Start(startTime, threads), steps);
             forall u :: 0 <= u < |c.threads| ==> !c.threads[u].NestedLock?
    ensures exists u: nat :: P.Can(RunFrom(P.Start(startTime, threads), steps), P.Step(u, P.Proceed))
  {
    RunRefinesEmpty(startTime, threads, steps);
    var u := SomeoneCanProceed(RunFrom(P.Start(startTime, threads), steps), t);
  }

  lemma FlatFromStart(startTime: int, threads: nat, steps: seq<P.Step>)
    requires Possible(P.Start(startTime, threads), steps) && FlatStarts(steps)
    ensures Flat(RunFrom(P.Start(startTime, threads), steps))
  {
    FlatRun(P.Start(startTime, threads), steps);
  }

  /** With callbacks like the repository's, which do not call onEvent, no reachable state is deadlocked. */
  lemma NeverDeadlocked(startTime: int, threads: nat, steps: seq<P.Step>, t: nat)
    requires Possible(P.Start(startTime, threads), steps) && FlatStarts(steps)
    requires t < |RunFrom(P.Start(startTime, threads), steps).threads|
    requires RunFrom(P.Start(startTime, threads), steps).threads[t] != P.Idle
    ensures exists u: nat :: P.Can(RunFrom(P.Start(startTime, threads), steps), P.Step(u, P.Proceed))
  {
    FlatFromStart(startTime, threads, steps);
    DeadlockNeedsNesting(startTime, threads, steps, t);
  }

  /** From any reachable state on, with no new calls started, a bounded number of steps leaves every call returned. */
  lemma EveryCallReturns(startTime: int, threads: nat, before: seq<P.Step>, after: seq<P.Step>)
    requires Possible(P.Start(startTime, threads), before + after) && FlatStarts(before)
    requires forall k :: 0 <= k < |after| ==> after[k].choice == P.Proceed
    ensures |after| <= StepsLeft(RunFrom(P.Start(startTime, threads), before))
    ensures var c := RunFrom(P.Start(startTime, threads), before + after);
            (forall u: nat :: !P.Can(c, P.Step(u, P.Proceed))) <==>
            (forall t :: 0 <= t < |c.threads| ==> c.threads[t] == P.Idle)
  {
    var start := P.Start(startTime, threads);
    RunConcat(start, before, after);
    RunRefinesEmpty(startTime, threads, before);
    FlatFromStart(startTime, threads, before);
    CallsTerminate(RunFrom(start, before), after);
    ThreadsStay(RunFrom(start, before), after);
  }

  /** The steps of a run taken by goroutine t. */
  function OwnSteps(steps: seq<P.Step>, t: nat): nat {
    if steps == [] then 0 else OwnSteps(Front(steps), t) + if Last(steps).thread == t then 1 else 0
  }

  lemma DispatchStep(c: P.Config, pc: P.Pc)
    requires P.InDispatch(pc) && P.CanProceed(c, pc) && P.Sound(c.cells, pc)
    ensures P.InDispatch(P.NextPc(c, pc)) || P.NextPc(c, pc) == P.Idle
    ensures Work(P.NextPc(c, pc), 0) < Work(pc, 0)
  {
  }

  /**
    A dispatch that has the list lock finishes within a fixed number of its own steps, however many calls others
    start meanwhile.
   */
  lemma {:induction false} DispatchOwnStepsBounded(c: P.Config, steps: seq<P.Step>, t: nat)
    requires P.Inv(c)
    requires Possible(c, steps)
    requires t < |c.threads| && P.InDispatch(c.threads[t])
    requires forall k :: 0 <= k < |steps| && steps[k].thread == t ==> steps[k].choice == P.Proceed
    ensures |RunFrom(c, steps).threads| == |c.threads|
    ensures P.InDispatch(RunFrom(c, steps).threads[t]) || RunFrom(c, steps).threads[t] == P.Idle
    ensures OwnSteps(steps, t) + Work(RunFrom(c, steps).threads[t], 0) <= Work(c.threads[t], 0)
  {
    if steps != [] {
      var d, s := RunFrom(c, Front(steps)), Last(steps);
      assert forall k :: 0 <= k < |Front(steps)| ==> Front(steps)[k] == steps[k];
      DispatchOwnStepsBounded(c, Front(steps), t);
      RunRefines(c, Front(steps));
      assert s == steps[|steps| - 1];
      OwnStep(d, s, t);
    }
  }

  lemma OwnStep(d: P.Config, s: P.Step, t: nat)
    requires P.Inv(d) && P.Can(d, s)
    requires t < |d.threads| && (P.InDispatch(d.threads[t]) || d.threads[t] == P.Idle)
    requires s.thread == t ==> s.choice == P.Proceed
    ensures |P.Do(d, s).threads| == |d.threads|
    ensures P.InDispatch(P.Do(d, s).threads[t]) || P.Do(d, s).threads[t] == P.Idle
    ensures (if s.thread == t then 1 else 0) + Work(P.Do(d, s).threads[t], 0) <= Work(d.threads[t], 0)
  {
    if s.thread == t {
      assert P.Sound(d.cells, d.threads[t]);
      DispatchStep(d, d.threads[t]);
    }
  }

  // ---------- why callbacks must not register handlers ----------

  /** The callback of a handler registered so takes its goroutine from the matcher's yes into a nested onEvent. */
  lemma CallbackNests(startTime: int, threads: nat, steps: seq<P.Step>, t: nat)
    requires Possible(P.Start(startTime, threads), steps)
    requires var c := RunFrom(P.Start(startTime, threads), steps);
             && t < |c.threads| && c.threads[t].CallBack?
             && c.threads[t].i < |c.cells| && c.cells[c.threads[t].i].nested
    ensures var more := steps + [P.Step(t, P.Proceed)];
            && Possible(P.Start(startTime, threads), more)
            && t < |RunFrom(P.Start(startTime, threads), more).threads|
            && RunFrom(P.Start(startTime, threads), more).threads[t].NestedLock?
  {
    hide RunFrom, Possible, P.Do, P.Can;
    NestingStep(RunFrom(P.Start(startTime, threads), steps), t);
    OneMore(P.Start(startTime, threads), steps, P.Step(t, P.Proceed));
  }

  lemma NestingStep(c: P.Config, t: nat)
    requires t < |c.threads| && c.threads[t].CallBack?
    requires c.threads[t].i < |c.cells| && c.cells[c.threads[t].i].nested
    ensures P.Can(c, P.Step(t, P.Proceed))
    ensures |P.Do(c, P.Step(t, P.Proceed)).threads| == |c.threads|
    ensures P.Do(c, P.Step(t, P.Proceed)).threads[t].NestedLock?
  {
  }

  lemma OneMore(c: P.Config, steps: seq<P.Step>, s: P.Step)
    requires Possible(c, steps) && P.Can(RunFrom(c, steps), s)
    ensures Possible(c, steps + [s])
    ensures RunFrom(c, steps + [s]) == P.Do(RunFrom(c, steps), s)
    ensures Effects(c, steps + [s]) == Effects(c, steps) + P.Effect(RunFrom(c, steps), s)
  {
    hide P.Can, P.Do, P.Effect;
    assert Front(steps + [s]) == steps && Last(steps + [s]) == s;
  }

  /**
    From any reachable state in which a callback has called onEvent, its goroutine never moves again, and in every
    continuation nothing more is registered and no other dispatch begins.
   */
  lemma NestedRegistrationBlocks(startTime: int, threads: nat, before: seq<P.Step>, after: seq<P.Step>, t: nat)
    requires Possible(P.Start(startTime, threads), before + after)
    requires var c := RunFrom(P.Start(startTime, threads), before); t < |c.threads| && c.threads[t].NestedLock?
    ensures var c := RunFrom(P.Start(startTime, threads), before);
            var d := RunFrom(P.Start(startTime, threads), before + after);
            && |d.threads| == |c.threads| && d.threads[t] == c.threads[t] && d.listLock == P.By(t)
            && !P.Can(d, P.Step(t, P.Proceed))
    ensures Dispatched(Effects(P.Start(startTime, threads), before + after))
         == Dispatched(Effects(P.Start(startTime, threads), before))
    ensures Registered(Effects(P.Start(startTime, threads), before + after))
         == Registered(Effects(P.Start(startTime, threads), before))
  {
    hide RunFrom, Possible, Effects, Dispatched, Registered, Quiet, P.Start, P.Inv;
    var start := P.Start(startTime, threads);
    RunConcat(start, before, after);
    RunRefinesEmpty(startTime, threads, before);
    Blocked(RunFrom(start, before), after, t);
    QuietConcat(Effects(start, before), Effects(RunFrom(start, before), after));
  }

  lemma {:induction false} Blocked(c: P.Config, steps: seq<P.Step>, t: nat)
    requires P.Inv(c) && Possible(c, steps)
    requires t < |c.threads| && c.threads[t].NestedLock?
    ensures P.Inv(RunFrom(c, steps))
    ensures |RunFrom(c, steps).threads| == |c.threads|
    ensures RunFrom(c, steps).listLock == P.By(t) && RunFrom(c, steps).threads[t] == c.threads[t]
    ensures Quiet(Effects(c, steps))
  {
    assert P.HoldsList(c.threads[t]);
    if steps != [] {
      var d, s := RunFrom(c, Front(steps)), Last(steps);
      Blocked(c, Front(steps), t);
      BlockedStep(d, s, t);
      P.InvKept(d, s);
    }
  }

  /** No registration and no begin of a dispatch. */
  predicate Quiet(ops: seq<Op>) {
    forall i :: 0 <= i < |ops| ==> !ops[i].Begin? && !ops[i].Register?
  }

  lemma BlockedStep(d: P.Config, s: P.Step, t: nat)
    requires P.Inv(d) && P.Can(d, s)
    requires t < |d.threads| && d.listLock == P.By(t) && d.threads[t].NestedLock?
    ensures |P.Do(d, s).threads| == |d.threads|
    ensures P.Do(d, s).listLock == P.By(t) && P.Do(d, s).threads[t] == d.threads[t]
    ensures Quiet(P.Effect(d, s))
  {
    assert P.HoldsList(d.threads[s.thread]) <==> d.listLock == P.By(s.thread);
  }

  lemma {:induction false} QuietConcat(ops: seq<Op>, more: seq<Op>)
    requires Quiet(more)
    ensures Dispatched(ops + more) == Dispatched(ops) && Registered(ops + more) == Registered(ops)
  {
    if more == [] {
      assert ops + more == ops;
    } else {
      assert Front(ops + more) == ops + Front(more) && Last(ops + more) == more[|more| - 1];
      assert forall i :: 0 <= i < |Front(more)| ==> Front(more)[i] == more[i];
      QuietConcat(ops, Front(more));
    }
  }
}
