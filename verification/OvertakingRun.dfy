/**
  Two runs of the protocol, step by step. In the first a test goroutine registers two counters before it enables
  either, and its enables overtake an informer's dispatch so that no atomic delivery explains the outcome. In the
  second a handler is registered whose callback calls onEvent, and the informer stands in it for ever.
 */
module OvertakingRun {
  import opened Counters
  import opened WatcherSpec
  import P = WatcherProtocol
  import opened WatcherRuns
  import opened DispatchAtomicity

  const CountAll := Definition((g: Groups, e: Event) => (g, true), Increment, 0, map[])

  /** The informer goroutine stands at p and the test goroutine at q. */
  function At(e: Event, lock: P.Owner, cells: seq<P.Cell>, p: P.Pc, q: P.Pc): P.Config {
    P.Config(e.created, lock, cells, [p, q])
  }

  ghost predicate LeadsTo(e: Event, steps: seq<P.Step>, ops: seq<Op>, c: P.Config) {
    && Possible(P.Start(e.created, 2), steps)
    && Effects(P.Start(e.created, 2), steps) == ops
    && RunFrom(P.Start(e.created, 2), steps) == c
  }

  lemma Extend(e: Event, steps: seq<P.Step>, ops: seq<Op>, c: P.Config, s: P.Step) returns (more: seq<P.Step>)
    requires LeadsTo(e, steps, ops, c) && P.Can(c, s)
    ensures LeadsTo(e, more, ops + P.Effect(c, s), P.Do(c, s))
  {
    more := steps + [s];
    OneMore(P.Start(e.created, 2), steps, s);
  }

  /** Goroutine u takes the next step of its call, from c to d. */
  lemma Next(e: Event, steps: seq<P.Step>, ops: seq<Op>, c: P.Config, u: nat, ops': seq<Op>, d: P.Config)
    returns (more: seq<P.Step>)
    requires LeadsTo(e, steps, ops, c)
    requires u < |c.threads| && P.CanProceed(c, c.threads[u])
    requires d.startTime == c.startTime && d.listLock == P.NextListLock(c, u, c.threads[u])
    requires d.cells == P.NextCells(c, u, c.threads[u])
    requires d.threads == c.threads[u := P.NextPc(c, c.threads[u])]
    requires ops' == ops + P.Effect(c, P.Step(u, P.Proceed))
    ensures LeadsTo(e, more, ops', d)
  {
    hide LeadsTo;
    more := Extend(e, steps, ops, c, P.Step(u, P.Proceed));
  }

  function Cell(enabled: bool, counter: U32, lock: P.Owner, nested: bool): P.Cell {
    P.Cell(Handler(CountAll, enabled, map[], counter), lock, nested)
  }

  lemma AtTheStart(e: Event)
    ensures LeadsTo(e, [], [], At(e, P.Free, [], P.Idle, P.Idle))
  {
    assert P.Start(e.created, 2).threads == [P.Idle, P.Idle];
  }

  /** The test goroutine registers one more counter. */
  lemma RegisterOne(e: Event, steps: seq<P.Step>, ops: seq<Op>, cells: seq<P.Cell>, nested: bool)
    returns (more: seq<P.Step>)
    requires LeadsTo(e, steps, ops, At(e, P.Free, cells, P.Idle, P.Idle))
    ensures LeadsTo(e, more, ops + [Register(CountAll)],
                    At(e, P.Free, cells + [Cell(false, 0, P.Free, nested)], P.Idle, P.Idle))
  {
    hide LeadsTo;
    var grown, done := cells + [Cell(false, 0, P.Free, nested)], ops + [Register(CountAll)];
    var lock, append := P.RegisterLock(CountAll, nested), P.RegisterAppend(CountAll, nested);
    more := Extend(e, steps, ops, At(e, P.Free, cells, P.Idle, P.Idle), P.Step(1, P.StartRegister(CountAll, nested)));
    assert [P.Idle, P.Idle][1 := lock] == [P.Idle, lock] && ops + [] == ops;
    more := Next(e, more, ops, At(e, P.Free, cells, P.Idle, lock), 1,
                 ops, At(e, P.By(1), cells, P.Idle, append));
    more := Next(e, more, ops, At(e, P.By(1), cells, P.Idle, append), 1,
                 done, At(e, P.By(1), grown, P.Idle, P.RegisterUnlock));
    more := Next(e, more, done, At(e, P.By(1), grown, P.Idle, P.RegisterUnlock), 1,
                 done, At(e, P.Free, grown, P.Idle, P.Idle));
  }

  /** The test goroutine enables handler h while the informer stands at p. */
  lemma EnableOne(e: Event, steps: seq<P.Step>, ops: seq<Op>, lock: P.Owner, cells: seq<P.Cell>, p: P.Pc, h: nat,
                  nested: bool) returns (more: seq<P.Step>)
    requires LeadsTo(e, steps, ops, At(e, lock, cells, p, P.Idle))
    requires h < |cells| && cells[h] == Cell(false, 0, P.Free, nested)
    ensures LeadsTo(e, more, ops + [Enable(h)], At(e, lock, cells[h := Cell(true, 0, P.Free, nested)], p, P.Idle))
  {
    hide LeadsTo;
    var held := cells[h := Cell(false, 0, P.By(1), nested)];
    var set1 := cells[h := Cell(true, 0, P.By(1), nested)];
    var done, enabled := cells[h := Cell(true, 0, P.Free, nested)], ops + [Enable(h)];
    assert held[h := Cell(true, 0, P.By(1), nested)] == set1 && set1[h := Cell(true, 0, P.Free, nested)] == done;
    more := Extend(e, steps, ops, At(e, lock, cells, p, P.Idle), P.Step(1, P.StartEnable(h)));
    assert [p, P.Idle][1 := P.EnableLock(h)] == [p, P.EnableLock(h)] && ops + [] == ops;
    more := Next(e, more, ops, At(e, lock, cells, p, P.EnableLock(h)), 1,
                 ops, At(e, lock, held, p, P.EnableSet(h)));
    more := Next(e, more, ops, At(e, lock, held, p, P.EnableSet(h)), 1,
                 enabled, At(e, lock, set1, p, P.EnableUnlock(h)));
    more := Next(e, more, enabled, At(e, lock, set1, p, P.EnableUnlock(h)), 1,
                 enabled, At(e, lock, done, p, P.Idle));
  }

  /** The informer is given e and takes the list lock. */
  lemma BeginDispatch(e: Event, steps: seq<P.Step>, ops: seq<Op>, cells: seq<P.Cell>) returns (more: seq<P.Step>)
    requires LeadsTo(e, steps, ops, At(e, P.Free, cells, P.Idle, P.Idle))
    ensures LeadsTo(e, more, ops + [Begin(e)], At(e, P.By(0), cells, P.Loop(e, 0, |cells|), P.Idle))
  {
    hide LeadsTo;
    more := Extend(e, steps, ops, At(e, P.Free, cells, P.Idle, P.Idle), P.Step(0, P.StartDelivery(e)));
    assert [P.Idle, P.Idle][0 := P.AgeCheck(e)] == [P.AgeCheck(e), P.Idle] && ops + [] == ops;
    more := Next(e, more, ops, At(e, P.Free, cells, P.AgeCheck(e), P.Idle), 0,
                 ops, At(e, P.Free, cells, P.ListLock(e), P.Idle));
    more := Next(e, more, ops, At(e, P.Free, cells, P.ListLock(e), P.Idle), 0,
                 ops + [Begin(e)], At(e, P.By(0), cells, P.Loop(e, 0, |cells|), P.Idle));
  }

  /** The informer goes past handler 0 of two, which is still disabled. */
  lemma PastTheFirst(e: Event, before: seq<P.Step>, ops: seq<Op>) returns (steps: seq<P.Step>)
    requires LeadsTo(e, before, ops, At(e, P.By(0), [Cell(false, 0, P.Free, false), Cell(false, 0, P.Free, false)],
                                        P.Loop(e, 0, 2), P.Idle))
    ensures LeadsTo(e, steps, ops + [Visit(e, 0)],
                    At(e, P.By(0), [Cell(false, 0, P.Free, false), Cell(false, 0, P.Free, false)],
                       P.Loop(e, 1, 2), P.Idle))
  {
    hide LeadsTo;
    var off := Cell(false, 0, P.Free, false);
    var two, held := [off, off], [Cell(false, 0, P.By(0), false), off];
    assert two[0 := held[0]] == held && held[0 := off] == two;
    steps := Next(e, before, ops, At(e, P.By(0), two, P.Loop(e, 0, 2), P.Idle), 0,
                  ops, At(e, P.By(0), held, P.Test(e, 0, 2), P.Idle));
    steps := Next(e, steps, ops, At(e, P.By(0), held, P.Test(e, 0, 2), P.Idle), 0,
                  ops + [Visit(e, 0)], At(e, P.By(0), held, P.HandlerUnlock(e, 0, 2), P.Idle));
    ghost var seen := ops + [Visit(e, 0)];
    steps := Next(e, steps, seen, At(e, P.By(0), held, P.HandlerUnlock(e, 0, 2), P.Idle), 0,
                  seen, At(e, P.By(0), two, P.Loop(e, 1, 2), P.Idle));
  }

  /** The informer finds the last handler k enabled. */
  lemma TestTheLast(e: Event, before: seq<P.Step>, ops: seq<Op>, cells: seq<P.Cell>, k: nat, nested: bool)
    returns (steps: seq<P.Step>)
    requires |cells| == k + 1 && cells[k] == Cell(true, 0, P.Free, nested)
    requires LeadsTo(e, before, ops, At(e, P.By(0), cells, P.Loop(e, k, k + 1), P.Idle))
    ensures LeadsTo(e, steps, ops, At(e, P.By(0), cells[k := Cell(true, 0, P.By(0), nested)],
                                      P.CallMatcher(e, k, k + 1), P.Idle))
  {
    hide LeadsTo;
    var n, held := k + 1, cells[k := Cell(true, 0, P.By(0), nested)];
    steps := Next(e, before, ops, At(e, P.By(0), cells, P.Loop(e, k, n), P.Idle), 0,
                  ops, At(e, P.By(0), held, P.Test(e, k, n), P.Idle));
    steps := Next(e, steps, ops, At(e, P.By(0), held, P.Test(e, k, n), P.Idle), 0,
                  ops, At(e, P.By(0), held, P.CallMatcher(e, k, n), P.Idle));
  }

  /** The matcher of handler k says yes. */
  lemma MatchTheLast(e: Event, before: seq<P.Step>, ops: seq<Op>, held: seq<P.Cell>, k: nat, nested: bool)
    returns (steps: seq<P.Step>)
    requires |held| == k + 1 && held[k] == Cell(true, 0, P.By(0), nested)
    requires LeadsTo(e, before, ops, At(e, P.By(0), held, P.CallMatcher(e, k, k + 1), P.Idle))
    ensures LeadsTo(e, steps, ops, At(e, P.By(0), held, P.CallBack(e, k, k + 1, map[]), P.Idle))
  {
    hide LeadsTo;
    var n := k + 1;
    assert held[k := Cell(true, 0, P.By(0), nested)] == held;
    steps := Next(e, before, ops, At(e, P.By(0), held, P.CallMatcher(e, k, n), P.Idle), 0,
                  ops, At(e, P.By(0), held, P.InMatcher(e, k, n, map[]), P.Idle));
    steps := Next(e, steps, ops, At(e, P.By(0), held, P.InMatcher(e, k, n, map[]), P.Idle), 0,
                  ops, At(e, P.By(0), held, P.CallBack(e, k, n, map[]), P.Idle));
  }

  /** The informer counts the event at handler 1 and leaves it. */
  lemma CountTheSecond(e: Event, before: seq<P.Step>, ops: seq<Op>) returns (steps: seq<P.Step>)
    requires LeadsTo(e, before, ops, At(e, P.By(0), [Cell(true, 0, P.Free, false), Cell(true, 0, P.By(0), false)],
                                        P.CallBack(e, 1, 2, map[]), P.Idle))
    ensures LeadsTo(e, steps, ops + [Visit(e, 1)],
                    At(e, P.By(0), [Cell(true, 0, P.Free, false), Cell(true, 1, P.Free, false)], P.Loop(e, 2, 2),
                       P.Idle))
  {
    hide LeadsTo;
    var on := Cell(true, 0, P.Free, false);
    var held, fired := [on, Cell(true, 0, P.By(0), false)], [on, Cell(true, 1, P.By(0), false)];
    var done := [on, Cell(true, 1, P.Free, false)];
    assert held[1 := fired[1]] == fired && fired[1 := done[1]] == done;
    steps := Next(e, before, ops, At(e, P.By(0), held, P.CallBack(e, 1, 2, map[]), P.Idle), 0,
                  ops + [Visit(e, 1)], At(e, P.By(0), fired, P.HandlerUnlock(e, 1, 2), P.Idle));
    ghost var seen := ops + [Visit(e, 1)];
    steps := Next(e, steps, seen, At(e, P.By(0), fired, P.HandlerUnlock(e, 1, 2), P.Idle), 0,
                  seen, At(e, P.By(0), done, P.Loop(e, 2, 2), P.Idle));
  }

  /** The informer finishes its dispatch to two handlers. */
  lemma FinishDispatch(e: Event, before: seq<P.Step>, ops: seq<Op>, cells: seq<P.Cell>) returns (steps: seq<P.Step>)
    requires LeadsTo(e, before, ops, At(e, P.By(0), cells, P.Loop(e, 2, 2), P.Idle))
    ensures LeadsTo(e, steps, ops + [End(e)], At(e, P.Free, cells, P.Idle, P.Idle))
  {
    hide LeadsTo;
    steps := Next(e, before, ops, At(e, P.By(0), cells, P.Loop(e, 2, 2), P.Idle), 0,
                  ops, At(e, P.By(0), cells, P.ListUnlock(e), P.Idle));
    steps := Next(e, steps, ops, At(e, P.By(0), cells, P.ListUnlock(e), P.Idle), 0,
                  ops + [End(e)], At(e, P.Free, cells, P.Idle, P.Idle));
  }

  // ---------- the overtaking run ----------

  /** The test goroutine has registered both counters. */
  const Registered2 := [Register(CountAll), Register(CountAll)]

  /** Inside the dispatch: handler 0 goes by, both are enabled in order, handler 1 counts. */
  function Inside2(e: Event): seq<Op> {
    [Visit(e, 0), Enable(0), Enable(1), Visit(e, 1)]
  }

  lemma TakeTheRun(e: Event) returns (steps: seq<P.Step>)
    ensures LeadsTo(e, steps, Registered2 + [Begin(e)] + Inside2(e) + [End(e)],
                    At(e, P.Free, [Cell(true, 0, P.Free, false), Cell(true, 1, P.Free, false)], P.Idle, P.Idle))
  {
    hide LeadsTo;
    var off, on := Cell(false, 0, P.Free, false), Cell(true, 0, P.Free, false);
    AtTheStart(e);
    assert [] + [Register(CountAll)] == [Register(CountAll)] && [] + [off] == [off] && [off] + [off] == [off, off];
    assert [Register(CountAll)] + [Register(CountAll)] == Registered2;
    steps := RegisterOne(e, [], [], [], false);
    steps := RegisterOne(e, steps, [Register(CountAll)], [off], false);
    steps := BeginDispatch(e, steps, Registered2, [off, off]);
    steps := PastTheFirst(e, steps, Registered2 + [Begin(e)]);
    ghost var ops := Registered2 + [Begin(e)] + [Visit(e, 0)];
    steps := EnableOne(e, steps, ops, P.By(0), [off, off], P.Loop(e, 1, 2), 0, false);
    assert [off, off][0 := on] == [on, off] && [on, off][1 := on] == [on, on];
    ops := ops + [Enable(0)];
    steps := EnableOne(e, steps, ops, P.By(0), [on, off], P.Loop(e, 1, 2), 1, false);
    ops := ops + [Enable(1)];
    steps := TestTheLast(e, steps, ops, [on, on], 1, false);
    assert [on, on][1 := Cell(true, 0, P.By(0), false)] == [on, Cell(true, 0, P.By(0), false)];
    steps := MatchTheLast(e, steps, ops, [on, Cell(true, 0, P.By(0), false)], 1, false);
    steps := CountTheSecond(e, steps, ops);
    steps := FinishDispatch(e, steps, ops + [Visit(e, 1)], [on, Cell(true, 1, P.Free, false)]);
    assert ops + [Visit(e, 1)] + [End(e)] == Registered2 + [Begin(e)] + Inside2(e) + [End(e)];
  }

  lemma InsideOvertakes(e: Event, s: State)
    requires s == State([NewHandler(CountAll), NewHandler(CountAll)], Dispatching(e, 0))
    ensures Overtakes(s, e, Inside2(e), 0, 1)
  {
    var a, b, c, d := Inside2(e)[..1], Inside2(e)[..2], Inside2(e)[..3], Inside2(e);
    assert Front(d) == c && Front(c) == b && Front(b) == a && Front(a) == [];
    assert VisitAt(a, 0) == 0 && FirstEnable(a, 0) == 1 && VisitAt(a, 1) == 1 && FirstEnable(a, 1) == 1;
    assert VisitAt(b, 0) == 0 && FirstEnable(b, 0) == 1 && VisitAt(b, 1) == 2 && FirstEnable(b, 1) == 2;
    assert VisitAt(c, 0) == 0 && FirstEnable(c, 0) == 1 && VisitAt(c, 1) == 3 && FirstEnable(c, 1) == 2;
    assert VisitAt(d, 0) == 0 && FirstEnable(d, 0) == 1 && VisitAt(d, 1) == 3 && FirstEnable(d, 1) == 2;
  }

  lemma RegisteredState()
    ensures Exec(Empty, Registered2) == State([NewHandler(CountAll), NewHandler(CountAll)], NoDispatch)
  {
    assert Front(Registered2) == [Register(CountAll)] && Front([Register(CountAll)]) == [];
    assert Exec(Empty, [Register(CountAll)]).handlers == [NewHandler(CountAll)];
  }

  /**
    A run of the protocol with one dispatch that is not atomic: wherever one delivery is placed among the two
    enables, the counters come out different. The test goroutine registered both counters before it enabled either.
   */
  lemma NotAtomicRun(e: Event) returns (steps: seq<P.Step>)
    ensures Possible(P.Start(e.created, 2), steps)
    ensures Effects(P.Start(e.created, 2), steps) == Registered2 + [Begin(e)] + Inside2(e) + [End(e)]
    ensures forall cut :: 0 <= cut <= |Inside2(e)| ==>
              Exec(Empty, Effects(P.Start(e.created, 2), steps)).handlers
              != AtomicAt(Exec(Empty, Registered2), e, Inside2(e), cut).handlers
  {
    steps := TakeTheRun(e);
    var s := Exec(Empty, Registered2);
    RegisteredState();
    RunRefinesEmpty(e.created, 2, steps);
    var bracket := [Begin(e)] + Inside2(e) + [End(e)];
    assert Registered2 + [Begin(e)] + Inside2(e) + [End(e)] == Registered2 + bracket;
    ExecConcat(Empty, Registered2, bracket);
    var begun := Bracket(s, e, Inside2(e));
    InsideOvertakes(e, begun);
    forall cut | 0 <= cut <= |Inside2(e)|
      ensures Exec(Empty, Registered2 + bracket).handlers != AtomicAt(s, e, Inside2(e), cut).handlers
    {
      OvertakingShows(begun, e, Inside2(e), 0, 1, cut);
      assert begun.(progress := NoDispatch) == s;
      assert AtomicAt(begun, e, Inside2(e), cut) == AtomicAt(s, e, Inside2(e), cut);
    }
  }

  // ---------- the run into a nested onEvent ----------

  /** A run in which an enabled handler's callback calls onEvent and so waits for the lock its own goroutine holds. */
  lemma NestedRun(e: Event) returns (steps: seq<P.Step>)
    ensures Possible(P.Start(e.created, 2), steps)
    ensures RunFrom(P.Start(e.created, 2), steps).threads == [P.NestedLock(e, 0, 1, map[]), P.Idle]
    ensures RunFrom(P.Start(e.created, 2), steps).listLock == P.By(0)
  {
    steps := NestSteps(e);
  }

  lemma NestSteps(e: Event) returns (steps: seq<P.Step>)
    ensures LeadsTo(e, steps, [] + [Register(CountAll)] + [Enable(0)] + [Begin(e)],
                    At(e, P.By(0), [Cell(true, 0, P.By(0), true)], P.NestedLock(e, 0, 1, map[]), P.Idle))
  {
    hide LeadsTo;
    var off, on := Cell(false, 0, P.Free, true), Cell(true, 0, P.Free, true);
    AtTheStart(e);
    assert [] + [off] == [off] && [off][0 := on] == [on];
    steps := RegisterOne(e, [], [], [], true);
    ghost var ops := [] + [Register(CountAll)];
    steps := EnableOne(e, steps, ops, P.Free, [off], P.Idle, 0, true);
    ops := ops + [Enable(0)];
    steps := BeginDispatch(e, steps, ops, [on]);
    ops := ops + [Begin(e)];
    steps := TestTheLast(e, steps, ops, [on], 0, true);
    ghost var held := [Cell(true, 0, P.By(0), true)];
    assert [on][0 := held[0]] == held;
    steps := MatchTheLast(e, steps, ops, held, 0, true);
    steps := Next(e, steps, ops, At(e, P.By(0), held, P.CallBack(e, 0, 1, map[]), P.Idle), 0,
                  ops, At(e, P.By(0), held, P.NestedLock(e, 0, 1, map[]), P.Idle));
  }
}
