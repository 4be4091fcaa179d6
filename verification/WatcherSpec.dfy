/**
  The sequential meaning of the event watcher of pkg/autoscaler/event.go: a list of handlers on which registering,
  enabling and visiting one handler with one event are single steps, and a dispatch is a bracket around its visits.
  The second half proves what every legal sequence of such steps computes, in closed form.
 */
module WatcherSpec {
  import opened Counters

  /** The fields of a Kubernetes event that the watcher and the matchers look at. */
  datatype Event = Event(created: int, component: string, reason: string, kind: string, message: string)

  /** The state a matcher may capture and change (scaledGroups). */
  type Groups = map<string, bool>

  type Matcher = (Groups, Event) -> (Groups, bool)

  datatype Definition = Definition(matcher: Matcher, callback: Callback, initial: U32, groups: Groups)

  datatype Handler = Handler(def: Definition, enabled: bool, groups: Groups, counter: U32)

  datatype Progress = NoDispatch | Dispatching(event: Event, next: nat)

  datatype State = State(handlers: seq<Handler>, progress: Progress)

  datatype Op =
    | Register(def: Definition)
    | Enable(h: nat)
    | Begin(event: Event)
    | Visit(event: Event, h: nat)
    | End(event: Event)

  const Empty := State([], NoDispatch)

  function NewHandler(def: Definition): Handler {
    Handler(def, false, def.groups, def.initial)
  }

  predicate Accepts(h: Handler, e: Event) {
    h.enabled && h.def.matcher(h.groups, e).1
  }

  /** One visit: an enabled handler runs its matcher, and its callback when the matcher says so. */
  function VisitHandler(h: Handler, e: Event): Handler {
    if !h.enabled then h
    else
      var (g, ok) := h.def.matcher(h.groups, e);
      if ok then h.(groups := g, counter := Fire(h.def.callback, h.counter)) else h.(groups := g)
  }

  predicate Can(s: State, op: Op) {
    match op
    case Register(_) => s.progress.NoDispatch?
    case Enable(h) => h < |s.handlers|
    case Begin(_) => s.progress.NoDispatch?
    case Visit(e, h) => h < |s.handlers| && s.progress == Dispatching(e, h)
    case End(e) => s.progress == Dispatching(e, |s.handlers|)
  }

  function Do(s: State, op: Op): State
    requires Can(s, op)
  {
    match op
    case Register(def) => s.(handlers := s.handlers + [NewHandler(def)])
    case Enable(h) => s.(handlers := s.handlers[h := s.handlers[h].(enabled := true)])
    case Begin(e) => s.(progress := Dispatching(e, 0))
    case Visit(e, h) => State(s.handlers[h := VisitHandler(s.handlers[h], e)], Dispatching(e, h + 1))
    case End(_) => s.(progress := NoDispatch)
  }

  function Front<T>(s: seq<T>): seq<T>
    requires s != []
  {
    s[..|s| - 1]
  }

  function Last<T>(s: seq<T>): T
    requires s != []
  {
    s[|s| - 1]
  }

  /** Runs ops from s; an op that cannot happen leaves the state alone (Legal excludes those). */
  function Exec(s: State, ops: seq<Op>): State {
    if ops == [] then s
    else
      var t := Exec(s, Front(ops));
      if Can(t, Last(ops)) then Do(t, Last(ops)) else t
  }

  predicate Legal(s: State, ops: seq<Op>) {
    ops == [] || (Legal(s, Front(ops)) && Can(Exec(s, Front(ops)), Last(ops)))
  }

  lemma {:induction false} ExecConcat(s: State, a: seq<Op>, b: seq<Op>)
    ensures Exec(s, a + b) == Exec(Exec(s, a), b)
    ensures Legal(s, a + b) <==> Legal(s, a) && Legal(Exec(s, a), b)
  {
    if b == [] {
      assert a + b == a;
    } else {
      assert Front(a + b) == a + Front(b) && Last(a + b) == Last(b);
      ExecConcat(s, a, Front(b));
    }
  }

  // ---------- what a sequence of ops contains ----------

  /** The events dispatched, in the order their dispatches began. */
  function Dispatched(ops: seq<Op>): seq<Event> {
    if ops == [] then []
    else if Last(ops).Begin? then Dispatched(Front(ops)) + [Last(ops).event]
    else Dispatched(Front(ops))
  }

  /** The definitions registered, in order. */
  function Registered(ops: seq<Op>): seq<Definition> {
    if ops == [] then []
    else if Last(ops).Register? then Registered(Front(ops)) + [Last(ops).def]
    else Registered(Front(ops))
  }

  /** How many dispatches had begun when handler h was registered. */
  function Since(ops: seq<Op>, h: nat): nat {
    if ops == [] then 0
    else if Last(ops).Register? && |Registered(Front(ops))| == h then |Dispatched(Front(ops))|
    else Since(Front(ops), h)
  }

  predicate EnabledIn(ops: seq<Op>, h: nat) {
    ops != [] && (Last(ops) == Enable(h) || EnabledIn(Front(ops), h))
  }

  /** The events handler h was visited with, enabled or not. */
  function Seen(ops: seq<Op>, h: nat): seq<Event> {
    if ops == [] then []
    else if Last(ops).Visit? && Last(ops).h == h then Seen(Front(ops), h) + [Last(ops).event]
    else Seen(Front(ops), h)
  }

  /** The events handler h was visited with after it was enabled. */
  function Armed(ops: seq<Op>, h: nat): seq<Event> {
    if ops == [] then []
    else if Last(ops).Visit? && Last(ops).h == h && EnabledIn(Front(ops), h) then
      Armed(Front(ops), h) + [Last(ops).event]
    else Armed(Front(ops), h)
  }

  /** The number of visits to h made before its first enable. */
  function Missed(ops: seq<Op>, h: nat): nat {
    if ops == [] then 0
    else if EnabledIn(Front(ops), h) then Missed(Front(ops), h)
    else |Seen(ops, h)|
  }

  // ---------- the reference counting: a matcher run over a list of events ----------

  /** The captured state after the matcher has seen the events in order. */
  function GroupsAfter(def: Definition, es: seq<Event>): Groups {
    if es == [] then def.groups else def.matcher(GroupsAfter(def, Front(es)), Last(es)).0
  }

  /** How many of the events the matcher accepts when it sees them in order. */
  function Accepted(def: Definition, es: seq<Event>): nat {
    if es == [] then 0
    else Accepted(def, Front(es)) + if def.matcher(GroupsAfter(def, Front(es)), Last(es)).1 then 1 else 0
  }

  /** A handler that has been visited, while enabled, with exactly the events es. */
  function After(def: Definition, enabled: bool, es: seq<Event>): Handler {
    Handler(def, enabled, GroupsAfter(def, es), Moved(def.callback, def.initial, Accepted(def, es)))
  }

  lemma VisitAfter(def: Definition, es: seq<Event>, e: Event)
    ensures VisitHandler(After(def, true, es), e) == After(def, true, es + [e])
    ensures Accepted(def, es + [e]) == Accepted(def, es) + if Accepts(After(def, true, es), e) then 1 else 0
  {
    assert Front(es + [e]) == es && Last(es + [e]) == e;
    FireMoved(def.callback, def.initial, Accepted(def, es));
  }

  // ---------- the closed form ----------

  lemma {:induction false} RegisteredHandlers(ops: seq<Op>)
    requires Legal(Empty, ops)
    ensures |Exec(Empty, ops).handlers| == |Registered(ops)|
    ensures forall h :: |Registered(ops)| <= h ==> Seen(ops, h) == [] && !EnabledIn(ops, h)
  {
    if ops != [] {
      RegisteredHandlers(Front(ops));
      forall h | |Registered(ops)| <= h
        ensures Seen(ops, h) == [] && !EnabledIn(ops, h)
      {
        assert Seen(Front(ops), h) == [] && !EnabledIn(Front(ops), h);
      }
    }
  }

  lemma {:induction false} NeverEnabledNeverArmed(ops: seq<Op>, h: nat)
    requires !EnabledIn(ops, h)
    ensures Armed(ops, h) == []
  {
    if ops != [] {
      NeverEnabledNeverArmed(Front(ops), h);
    }
  }

  /** Every handler's whole state, its counter included, is that of its matcher run over the events it was armed for. */
  lemma {:induction false} HandlerClosedForm(ops: seq<Op>, h: nat)
    requires Legal(Empty, ops)
    requires h < |Registered(ops)|
    ensures |Exec(Empty, ops).handlers| == |Registered(ops)|
    ensures Exec(Empty, ops).handlers[h] == After(Registered(ops)[h], EnabledIn(ops, h), Armed(ops, h))
  {
    RegisteredHandlers(ops);
    RegisteredHandlers(Front(ops));
    if h < |Registered(Front(ops))| {
      HandlerClosedForm(Front(ops), h);
      if !EnabledIn(Front(ops), h) {
        NeverEnabledNeverArmed(Front(ops), h);
      }
      if Last(ops).Visit? && Last(ops).h == h && EnabledIn(Front(ops), h) {
        VisitAfter(Registered(ops)[h], Armed(Front(ops), h), Last(ops).event);
      }
    } else {
      NeverEnabledNeverArmed(Front(ops), h);
    }
  }

  /** The event of the dispatch in progress when that dispatch has yet to visit h. */
  function ToCome(s: State, h: nat): seq<Event> {
    if s.progress.Dispatching? && s.progress.next <= h then [s.progress.event] else []
  }

  /**
    Registration is atomic with respect to dispatch: a handler is visited with every event whose dispatch began after
    its registration, in order and once each, and with no other; only the dispatch in progress may still owe its visit.
   */
  lemma {:induction false} SeenIsSuffixOfDispatched(ops: seq<Op>, h: nat)
    requires Legal(Empty, ops)
    requires h < |Registered(ops)|
    ensures Since(ops, h) <= |Dispatched(ops)|
    ensures Dispatched(ops)[Since(ops, h)..] == Seen(ops, h) + ToCome(Exec(Empty, ops), h)
  {
    var init := Front(ops);
    RegisteredHandlers(ops);
    RegisteredHandlers(init);
    if h < |Registered(init)| {
      SeenIsSuffixOfDispatched(init, h);
      var since := Since(ops, h);
      assert since == Since(init, h);
      if Last(ops).Begin? {
        assert Dispatched(ops)[since..] == Dispatched(init)[since..] + [Last(ops).event];
      }
    }
  }

  /** The armed visits are the visits left after the ones missed before the first enable. */
  lemma {:induction false} ArmedIsSuffixOfSeen(ops: seq<Op>, h: nat)
    ensures Missed(ops, h) <= |Seen(ops, h)|
    ensures Armed(ops, h) == if EnabledIn(ops, h) then Seen(ops, h)[Missed(ops, h)..] else []
  {
    if ops != [] {
      ArmedIsSuffixOfSeen(Front(ops), h);
    }
  }

  /** When no dispatch owes handler h a visit, its armed visits are a suffix of all the events dispatched. */
  lemma ArmedIsSuffixOfDispatched(ops: seq<Op>, h: nat)
    requires Legal(Empty, ops)
    requires h < |Registered(ops)|
    requires ToCome(Exec(Empty, ops), h) == []
    ensures Since(ops, h) + Missed(ops, h) <= |Dispatched(ops)|
    ensures Armed(ops, h) == if EnabledIn(ops, h) then Dispatched(ops)[Since(ops, h) + Missed(ops, h)..] else []
  {
    hide Dispatched, Seen, Armed, Missed, Since, EnabledIn, Registered, Exec, Legal;
    SeenIsSuffixOfDispatched(ops, h);
    ArmedIsSuffixOfSeen(ops, h);
    var since, missed := Since(ops, h), Missed(ops, h);
    assert Dispatched(ops)[since..] == Seen(ops, h);
    assert Dispatched(ops)[since..][missed..] == Dispatched(ops)[since + missed..];
  }

  /**
    The counting law: when no dispatch owes handler h a visit, its counter is its initial value moved once for each
    event, among those dispatched since its registration less the ones that went by before its enable, that its matcher
    accepts.
   */
  lemma CounterIsExact(ops: seq<Op>, h: nat)
    requires Legal(Empty, ops)
    requires h < |Registered(ops)|
    requires ToCome(Exec(Empty, ops), h) == []
    ensures |Exec(Empty, ops).handlers| == |Registered(ops)|
    ensures Since(ops, h) + Missed(ops, h) <= |Dispatched(ops)|
    ensures Exec(Empty, ops).handlers[h].counter ==
            var def := Registered(ops)[h];
            Moved(def.callback, def.initial,
                  if EnabledIn(ops, h) then Accepted(def, Dispatched(ops)[Since(ops, h) + Missed(ops, h)..]) else 0)
  {
    HandlerClosedForm(ops, h);
    ArmedIsSuffixOfDispatched(ops, h);
  }

  // ---------- one whole dispatch ----------

  /** The handlers visited, in order. */
  function VisitOrder(ops: seq<Op>): seq<nat> {
    if ops == [] then []
    else if Last(ops).Visit? then VisitOrder(Front(ops)) + [Last(ops).h]
    else VisitOrder(Front(ops))
  }

  /**
    Whatever is interleaved with it, a dispatch visits exactly the handlers present when it began, once each, in
    registration order, and no handler is registered while it runs.
   */
  lemma {:induction false} DispatchVisitsEachOnce(s: State, e: Event, ops: seq<Op>)
    requires s.progress == Dispatching(e, 0)
    requires Legal(s, ops)
    requires forall k :: 0 <= k < |ops| ==> !ops[k].End?
    ensures Exec(s, ops).progress == Dispatching(e, |VisitOrder(ops)|)
    ensures VisitOrder(ops) == seq(|VisitOrder(ops)|, k => k)
    ensures |Exec(s, ops).handlers| == |s.handlers|
    ensures Can(Exec(s, ops), End(e)) <==> VisitOrder(ops) == seq(|s.handlers|, k => k)
  {
    if ops == [] {
      var none: seq<nat> := seq(0, k => k);
      assert VisitOrder(ops) == none;
      assert |seq(|s.handlers|, k => k)| == |s.handlers|;
    } else {
      assert forall k :: 0 <= k < |Front(ops)| ==> Front(ops)[k] == ops[k];
      DispatchVisitsEachOnce(s, e, Front(ops));
      assert !ops[|ops| - 1].End?;
      var n := |VisitOrder(ops)|;
      assert VisitOrder(ops) == seq(n, k => k);
      if n == |s.handlers| {
        assert VisitOrder(ops) == seq(|s.handlers|, k => k);
      }
      assert |seq(|s.handlers|, k => k)| == |s.handlers|;
    }
  }

  /** The ops of a dispatch nothing interleaves with, up to and including the visit of handler n - 1. */
  function DispatchUpTo(e: Event, n: nat): seq<Op> {
    if n == 0 then [Begin(e)] else DispatchUpTo(e, n - 1) + [Visit(e, n - 1)]
  }

  function VisitFirst(handlers: seq<Handler>, e: Event, n: nat): seq<Handler>
    requires n <= |handlers|
  {
    seq(|handlers|, k requires 0 <= k < |handlers| => if k < n then VisitHandler(handlers[k], e) else handlers[k])
  }

  lemma VisitOneMore(handlers: seq<Handler>, e: Event, n: nat)
    requires n < |handlers|
    ensures VisitFirst(handlers, e, n + 1) == VisitFirst(handlers, e, n)[n := VisitHandler(handlers[n], e)]
    ensures VisitFirst(handlers, e, n)[n] == handlers[n]
  {
  }

  lemma {:induction false} UninterruptedPrefix(s: State, e: Event, n: nat)
    requires s.progress.NoDispatch?
    requires n <= |s.handlers|
    ensures Legal(s, DispatchUpTo(e, n))
    ensures Exec(s, DispatchUpTo(e, n)) == State(VisitFirst(s.handlers, e, n), Dispatching(e, n))
  {
    var ops := DispatchUpTo(e, n);
    if n == 0 {
      assert Front(ops) == [] && Last(ops) == Begin(e);
      assert Exec(s, Front(ops)) == s && Legal(s, Front(ops));
      assert VisitFirst(s.handlers, e, 0) == s.handlers;
    } else {
      assert Front(ops) == DispatchUpTo(e, n - 1) && Last(ops) == Visit(e, n - 1);
      UninterruptedPrefix(s, e, n - 1);
      hide VisitFirst, VisitHandler;
      VisitOneMore(s.handlers, e, n - 1);
    }
  }

  /** The whole effect of delivering e to a watcher that started at startTime, nothing interleaving. */
  function Deliver(startTime: int, s: State, e: Event): State {
    if e.created < startTime then s else s.(handlers := VisitFirst(s.handlers, e, |s.handlers|))
  }

  /** An uninterrupted delivery is the legal bracket of Begin, every Visit in order, and End. */
  lemma DeliverIsABracket(startTime: int, s: State, e: Event)
    requires s.progress.NoDispatch?
    requires e.created >= startTime
    ensures Legal(s, DispatchUpTo(e, |s.handlers|) + [End(e)])
    ensures Exec(s, DispatchUpTo(e, |s.handlers|) + [End(e)]) == Deliver(startTime, s, e)
  {
    var ops := DispatchUpTo(e, |s.handlers|);
    UninterruptedPrefix(s, e, |s.handlers|);
    assert Front(ops + [End(e)]) == ops && Last(ops + [End(e)]) == End(e);
  }
}
