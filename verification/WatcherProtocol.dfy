/**
  The event watcher as a concurrent protocol: any number of goroutines, one step per lock acquisition, lock release,
  field access, matcher entry, matcher return, callback and append of pkg/autoscaler/event.go. A matcher reads the state
  it captured when it is entered and writes it back when it returns, so overlapping calls would lose updates.

  A handler may be registered with a callback that itself calls onEvent. The repository registers none, and that is what
  its progress rests on: such a callback waits for the list lock its own goroutine holds.
 */
module WatcherProtocol {
  import opened Counters
  import opened WatcherSpec

  /**
    Where a goroutine stands. n is the length of the handler slice when its range loop began, and nested says that the
    handler being registered has a callback that calls onEvent.
   */
  datatype Pc =
    | Idle
    // onEvent
    | RegisterLock(def: Definition, nested: bool)
    | RegisterAppend(def: Definition, nested: bool)
    | RegisterUnlock
    // enable
    | EnableLock(h: nat)
    | EnableSet(h: nat)
    | EnableUnlock(h: nat)
    // AddFunc
    | AgeCheck(event: Event)
    | ListLock(event: Event)
    | Loop(event: Event, i: nat, n: nat)
    | Test(event: Event, i: nat, n: nat)
    | CallMatcher(event: Event, i: nat, n: nat)
    | InMatcher(event: Event, i: nat, n: nat, read: Groups)
    | CallBack(event: Event, i: nat, n: nat, read: Groups)
    | NestedLock(event: Event, i: nat, n: nat, read: Groups)
    | HandlerUnlock(event: Event, i: nat, n: nat)
    | ListUnlock(event: Event)

  /** A handler with the goroutine holding its mutex, if any; nested says that its callback calls onEvent. */
  datatype Cell = Cell(view: Handler, lock: Owner, nested: bool)

  datatype Owner = Free | By(thread: nat)

  datatype Config = Config(startTime: int, listLock: Owner, cells: seq<Cell>, threads: seq<Pc>)

  /** What a goroutine does next: start a call when idle, or take the next step of the call it is in. */
  datatype Choice =
    | StartRegister(def: Definition, nested: bool)
    | StartEnable(h: nat)
    | StartDelivery(event: Event)
    | Proceed

  datatype Step = Step(thread: nat, choice: Choice)

  function Start(startTime: int, threads: nat): Config {
    Config(startTime, Free, [], seq(threads, _ => Idle))
  }

  // ---------- the transition relation ----------

  predicate CanProceed(c: Config, pc: Pc) {
    match pc
    case Idle => false
    case RegisterLock(_, _) => c.listLock == Free
    case RegisterAppend(_, _) => true
    case RegisterUnlock => true
    case EnableLock(h) => h < |c.cells| && c.cells[h].lock == Free
    case EnableSet(h) => h < |c.cells|
    case EnableUnlock(h) => h < |c.cells|
    case AgeCheck(_) => true
    case ListLock(_) => c.listLock == Free
    case Loop(_, i, n) => i < n ==> i < |c.cells| && c.cells[i].lock == Free
    case Test(_, i, _) => i < |c.cells|
    case CallMatcher(_, i, _) => i < |c.cells|
    case InMatcher(_, i, _, _) => i < |c.cells|
    case CallBack(_, i, _, _) => i < |c.cells|
    case NestedLock(_, _, _, _) => c.listLock == Free
    case HandlerUnlock(_, i, _) => i < |c.cells|
    case ListUnlock(_) => true
  }

  /** A goroutine can enable only a handler that registration has produced. */
  predicate Can(c: Config, s: Step) {
    && s.thread < |c.threads|
    && match s.choice
       case StartRegister(_, _) => c.threads[s.thread] == Idle
       case StartEnable(h) => c.threads[s.thread] == Idle && h < |c.cells|
       case StartDelivery(_) => c.threads[s.thread] == Idle
       case Proceed => CanProceed(c, c.threads[s.thread])
  }

  function NextPc(c: Config, pc: Pc): Pc
    requires CanProceed(c, pc)
  {
    match pc
    case RegisterLock(def, nested) => RegisterAppend(def, nested)
    case RegisterAppend(_, _) => RegisterUnlock
    case RegisterUnlock => Idle
    case EnableLock(h) => EnableSet(h)
    case EnableSet(h) => EnableUnlock(h)
    case EnableUnlock(_) => Idle
    case AgeCheck(e) => if e.created < c.startTime then Idle else ListLock(e)
    case ListLock(e) => Loop(e, 0, |c.cells|)
    case Loop(e, i, n) => if i < n then Test(e, i, n) else ListUnlock(e)
    case Test(e, i, n) => if c.cells[i].view.enabled then CallMatcher(e, i, n) else HandlerUnlock(e, i, n)
    case CallMatcher(e, i, n) => InMatcher(e, i, n, c.cells[i].view.groups)
    case InMatcher(e, i, n, read) =>
      if c.cells[i].view.def.matcher(read, e).1 then CallBack(e, i, n, read) else HandlerUnlock(e, i, n)
    case CallBack(e, i, n, read) => if c.cells[i].nested then NestedLock(e, i, n, read) else HandlerUnlock(e, i, n)
    case NestedLock(e, i, n, _) => HandlerUnlock(e, i, n)   // never taken: the goroutine holds the list lock itself
    case HandlerUnlock(e, i, n) => Loop(e, i + 1, n)
    case ListUnlock(_) => Idle
  }

  function NextListLock(c: Config, t: nat, pc: Pc): Owner {
    if pc.RegisterLock? || pc.ListLock? then By(t)
    else if pc.RegisterUnlock? || pc.ListUnlock? then Free
    else c.listLock
  }

  function NextCells(c: Config, t: nat, pc: Pc): seq<Cell>
    requires CanProceed(c, pc)
  {
    match pc
    case RegisterAppend(def, nested) => c.cells + [Cell(NewHandler(def), Free, nested)]
    case EnableLock(h) => c.cells[h := c.cells[h].(lock := By(t))]
    case EnableSet(h) => c.cells[h := c.cells[h].(view := c.cells[h].view.(enabled := true))]
    case EnableUnlock(h) => c.cells[h := c.cells[h].(lock := Free)]
    case Loop(_, i, n) => if i < n then c.cells[i := c.cells[i].(lock := By(t))] else c.cells
    case InMatcher(e, i, _, read) =>
      var v := c.cells[i].view;
      c.cells[i := c.cells[i].(view := v.(groups := v.def.matcher(read, e).0))]
    case CallBack(_, i, _, _) =>
      var v := c.cells[i].view;
      if c.cells[i].nested then c.cells
      else c.cells[i := c.cells[i].(view := v.(counter := Fire(v.def.callback, v.counter)))]
    case HandlerUnlock(_, i, _) => c.cells[i := c.cells[i].(lock := Free)]
    case _ => c.cells
  }

  function Do(c: Config, s: Step): Config
    requires Can(c, s)
  {
    var t, pc := s.thread, c.threads[s.thread];
    match s.choice
    case StartRegister(def, nested) => c.(threads := c.threads[t := RegisterLock(def, nested)])
    case StartEnable(h) => c.(threads := c.threads[t := EnableLock(h)])
    case StartDelivery(e) => c.(threads := c.threads[t := AgeCheck(e)])
    case Proceed => Config(c.startTime, NextListLock(c, t, pc), NextCells(c, t, pc), c.threads[t := NextPc(c, pc)])
  }

  // ---------- the invariant ----------

  predicate InDispatch(pc: Pc) {
    pc.Loop? || pc.Test? || pc.CallMatcher? || pc.InMatcher? || pc.CallBack? || pc.NestedLock? || pc.HandlerUnlock?
    || pc.ListUnlock?
  }

  predicate HoldsList(pc: Pc) {
    pc.RegisterAppend? || pc.RegisterUnlock? || InDispatch(pc)
  }

  predicate HoldsCell(pc: Pc, k: nat) {
    match pc
    case EnableSet(h) => h == k
    case EnableUnlock(h) => h == k
    case Test(_, i, _) => i == k
    case CallMatcher(_, i, _) => i == k
    case InMatcher(_, i, _, _) => i == k
    case CallBack(_, i, _, _) => i == k
    case NestedLock(_, i, _, _) => i == k
    case HandlerUnlock(_, i, _) => i == k
    case _ => false
  }

  /** What the goroutine standing at pc may rely on. */
  predicate Sound(cells: seq<Cell>, pc: Pc) {
    match pc
    case EnableLock(h) => h < |cells|
    case EnableSet(h) => h < |cells|
    case EnableUnlock(h) => h < |cells|
    case Loop(_, i, n) => i <= n == |cells|
    case Test(_, i, n) => i < n == |cells|
    case CallMatcher(_, i, n) => i < n == |cells| && cells[i].view.enabled
    case InMatcher(_, i, n, read) => i < n == |cells| && cells[i].view.enabled && cells[i].view.groups == read
    case CallBack(e, i, n, read) =>
      && i < n == |cells| && cells[i].view.enabled
      && cells[i].view.def.matcher(read, e) == (cells[i].view.groups, true)
    case NestedLock(e, i, n, read) =>
      && i < n == |cells| && cells[i].view.enabled && cells[i].nested
      && cells[i].view.def.matcher(read, e) == (cells[i].view.groups, true)
    case HandlerUnlock(_, i, n) => i < n == |cells|
    case _ => true
  }

  ghost predicate ListLockOk(c: Config) {
    && (forall t :: 0 <= t < |c.threads| ==> (HoldsList(c.threads[t]) <==> c.listLock == By(t)))
    && (c.listLock.By? ==> c.listLock.thread < |c.threads|)
  }

  ghost predicate CellLocksOk(c: Config) {
    && (forall t: nat, k: nat :: t < |c.threads| && k < |c.cells| ==>
          (HoldsCell(c.threads[t], k) <==> c.cells[k].lock == By(t)))
    && (forall k :: 0 <= k < |c.cells| && c.cells[k].lock.By? ==> c.cells[k].lock.thread < |c.threads|)
  }

  ghost predicate AllSound(c: Config) {
    forall t :: 0 <= t < |c.threads| ==> Sound(c.cells, c.threads[t])
  }

  ghost predicate Inv(c: Config) {
    ListLockOk(c) && CellLocksOk(c) && AllSound(c)
  }

  lemma InvStart(startTime: int, threads: nat)
    ensures Inv(Start(startTime, threads))
  {
  }

  lemma ListLockKept(c: Config, s: Step)
    requires Inv(c) && Can(c, s)
    ensures ListLockOk(Do(c, s))
  {
  }

  lemma CellLockKept(c: Config, s: Step, t: nat, k: nat)
    requires Inv(c) && Can(c, s)
    requires t < |c.threads| && k < |Do(c, s).cells|
    ensures HoldsCell(Do(c, s).threads[t], k) <==> Do(c, s).cells[k].lock == By(t)
  {
    assert Sound(c.cells, c.threads[t]);
    if k < |c.cells| {
      assert HoldsCell(c.threads[t], k) <==> c.cells[k].lock == By(t);
      assert HoldsCell(c.threads[s.thread], k) <==> c.cells[k].lock == By(s.thread);
    }
  }

  lemma CellLocksKept(c: Config, s: Step)
    requires Inv(c) && Can(c, s)
    ensures CellLocksOk(Do(c, s))
  {
    var d := Do(c, s);
    forall t: nat, k: nat | t < |d.threads| && k < |d.cells|
      ensures HoldsCell(d.threads[t], k) <==> d.cells[k].lock == By(t)
    {
      CellLockKept(c, s, t, k);
    }
  }

  lemma SoundKept(c: Config, s: Step)
    requires Inv(c) && Can(c, s)
    ensures AllSound(Do(c, s))
  {
  }

  lemma InvKept(c: Config, s: Step)
    requires Inv(c) && Can(c, s)
    ensures Inv(Do(c, s))
  {
    ListLockKept(c, s);
    CellLocksKept(c, s);
    SoundKept(c, s);
  }

  // ---------- refinement of the sequential meaning ----------

  /** The pc of the goroutine holding the list lock. */
  function HolderPc(c: Config): Pc {
    if c.listLock.By? && c.listLock.thread < |c.threads| then c.threads[c.listLock.thread] else Idle
  }

  function ProgressOf(pc: Pc): Progress {
    match pc
    case Loop(e, i, _) => Dispatching(e, i)
    case Test(e, i, _) => Dispatching(e, i)
    case CallMatcher(e, i, _) => Dispatching(e, i)
    case InMatcher(e, i, _, _) => Dispatching(e, i)
    case CallBack(e, i, _, _) => Dispatching(e, i)
    case NestedLock(e, i, _, _) => Dispatching(e, i)
    case HandlerUnlock(e, i, _) => Dispatching(e, i + 1)
    case _ => NoDispatch
  }

  /**
    A visit takes effect at its callback: until then a handler whose matcher has accepted still shows its old state.
   */
  function Shown(cell: Cell, k: nat, holder: Pc): Handler {
    if (holder.CallBack? || holder.NestedLock?) && holder.i == k then cell.view.(groups := holder.read) else cell.view
  }

  function Abs(c: Config): State {
    State(seq(|c.cells|, k requires 0 <= k < |c.cells| => Shown(c.cells[k], k, HolderPc(c))),
          if HolderPc(c).ListUnlock? then Dispatching(HolderPc(c).event, |c.cells|) else ProgressOf(HolderPc(c)))
  }

  /** The sequential step that a protocol step is the moment of, if it is one. */
  function Effect(c: Config, s: Step): seq<Op>
    requires Can(c, s)
  {
    if s.choice != Proceed then []
    else
      match c.threads[s.thread]
      case RegisterAppend(def, _) => [Register(def)]
      case EnableSet(h) => [Enable(h)]
      case ListLock(e) => [Begin(e)]
      case Test(e, i, _) => if c.cells[i].view.enabled then [] else [Visit(e, i)]
      case InMatcher(e, i, _, read) => if c.cells[i].view.def.matcher(read, e).1 then [] else [Visit(e, i)]
      case CallBack(e, i, _, _) => if c.cells[i].nested then [] else [Visit(e, i)]
      case ListUnlock(e) => [End(e)]
      case _ => []
  }

  /** What the invariant says of goroutine t alone. */
  predicate Local(c: Config, t: nat) {
    && t < |c.threads| && Sound(c.cells, c.threads[t])
    && (HoldsList(c.threads[t]) <==> c.listLock == By(t))
  }

  lemma InvisibleAt(c: Config, s: Step, k: nat)
    requires Can(c, s) && Local(c, s.thread) && Effect(c, s) == []
    requires k < |c.cells|
    ensures |Do(c, s).cells| == |c.cells|
    ensures Abs(Do(c, s)).handlers[k] == Abs(c).handlers[k]
  {
  }

  lemma InvisibleProgress(c: Config, s: Step)
    requires Can(c, s) && Local(c, s.thread) && Effect(c, s) == []
    ensures |Do(c, s).cells| == |c.cells|
    ensures Abs(Do(c, s)).progress == Abs(c).progress
  {
  }

  lemma InvisibleStep(c: Config, s: Step)
    requires Can(c, s) && Local(c, s.thread) && Effect(c, s) == []
    ensures Abs(Do(c, s)) == Abs(c)
  {
    InvisibleProgress(c, s);
    hide Do, Can, Effect, Local, HolderPc, ProgressOf, Shown;
    forall k | 0 <= k < |c.cells|
      ensures Abs(Do(c, s)).handlers[k] == Abs(c).handlers[k]
    {
      InvisibleAt(c, s, k);
    }
  }

  lemma VisibleAt(c: Config, s: Step, k: nat)
    requires Can(c, s) && Local(c, s.thread) && Effect(c, s) != []
    requires WatcherSpec.Can(Abs(c), Effect(c, s)[0])
    requires k < |Do(c, s).cells|
    ensures |Do(c, s).cells| == |WatcherSpec.Do(Abs(c), Effect(c, s)[0]).handlers|
    ensures Abs(Do(c, s)).handlers[k] == WatcherSpec.Do(Abs(c), Effect(c, s)[0]).handlers[k]
  {
  }

  lemma VisibleProgress(c: Config, s: Step)
    requires Can(c, s) && Local(c, s.thread) && Effect(c, s) != []
    ensures WatcherSpec.Can(Abs(c), Effect(c, s)[0])
    ensures |Do(c, s).cells| == |WatcherSpec.Do(Abs(c), Effect(c, s)[0]).handlers|
    ensures Abs(Do(c, s)).progress == WatcherSpec.Do(Abs(c), Effect(c, s)[0]).progress
  {
  }

  lemma VisibleStep(c: Config, s: Step)
    requires Can(c, s) && Local(c, s.thread) && Effect(c, s) != []
    ensures WatcherSpec.Can(Abs(c), Effect(c, s)[0])
    ensures Abs(Do(c, s)) == WatcherSpec.Do(Abs(c), Effect(c, s)[0])
  {
    VisibleProgress(c, s);
    var d, next := Do(c, s), WatcherSpec.Do(Abs(c), Effect(c, s)[0]);
    hide Do, Can, Effect, Local, HolderPc, ProgressOf, Shown, WatcherSpec.Do, WatcherSpec.Can;
    forall k | 0 <= k < |d.cells|
      ensures Abs(d).handlers[k] == next.handlers[k]
    {
      VisibleAt(c, s, k);
    }
  }

  /** Every protocol step is either invisible or exactly one legal sequential step. */
  lemma StepRefines(c: Config, s: Step)
    requires Inv(c) && Can(c, s)
    ensures Legal(Abs(c), Effect(c, s))
    ensures Abs(Do(c, s)) == Exec(Abs(c), Effect(c, s))
  {
    var ops := Effect(c, s);
    assert Local(c, s.thread);
    hide Effect, Do, Can, Abs, Local, Inv;
    if ops == [] {
      InvisibleStep(c, s);
    } else {
      assert Front(ops) == [] && Exec(Abs(c), Front(ops)) == Abs(c) && Legal(Abs(c), Front(ops));
      VisibleStep(c, s);
    }
  }
}
