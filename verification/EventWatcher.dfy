/**
  The objects of pkg/autoscaler/event.go with the bodies their methods have inside the locks. Each method is proved to
  do to the abstract view exactly what the sequential meaning (WatcherSpec) says.
 */
module EventWatcher {
  import opened Counters
  import opened WatcherSpec

  class EventHandler {
    const matcher: Matcher
    const callback: Callback
    const target: U32Counter     // the counter the callback closure captures
    var enabled: bool
    var groups: Groups           // the state the matcher closure captures
    ghost const def: Definition

    ghost predicate Valid() {
      def.matcher == matcher && def.callback == callback
    }

    ghost function View(): Handler
      reads this, target
    {
      Handler(def, enabled, groups, target.value)
    }

    constructor (def: Definition, target: U32Counter)
      requires target.value == def.initial
      ensures Valid() && this.def == def && this.target == target
      ensures View() == NewHandler(def)
    {
      this.matcher, this.callback, this.target := def.matcher, def.callback, target;
      this.enabled, this.groups := false, def.groups;
      this.def := def;
    }

    method Enable()
      modifies this
      ensures View() == old(View()).(enabled := true)
    {
      enabled := true;
    }

    /** The body of the dispatch loop for one handler. */
    method Visit(e: Event)
      requires Valid()
      modifies this, target
      ensures View() == VisitHandler(old(View()), e)
    {
      if enabled {
        var (g, ok) := matcher(groups, e);
        groups := g;
        if ok {
          match callback
          case Increment =>
            var _ := target.Increment();
          case Decrement =>
            var _ := target.Decrement();
          case NoCount =>
        }
      }
    }
  }

  class EventWatcher {
    const startTime: int
    var eventHandlers: seq<EventHandler>

    constructor (now: int)
      ensures startTime == now
      ensures Valid() && View() == Empty
    {
      startTime := now;
      eventHandlers := [];
    }

    /** No two registered handlers are one object or share a counter. */
    ghost predicate Valid()
      reads this
    {
      && (forall i :: 0 <= i < |eventHandlers| ==> eventHandlers[i].Valid())
      && (forall i, j :: 0 <= i < j < |eventHandlers| ==>
                           eventHandlers[i] != eventHandlers[j] && eventHandlers[i].target != eventHandlers[j].target)
    }

    ghost function Footprint(): set<object>
      reads this
    {
      (set i | 0 <= i < |eventHandlers| :: eventHandlers[i])
      + (set i | 0 <= i < |eventHandlers| :: eventHandlers[i].target)
    }

    ghost function View(): State
      reads this, Footprint()
    {
      State(seq(|eventHandlers|, i requires 0 <= i < |eventHandlers| reads this, Footprint() =>
                  eventHandlers[i].View()),
            NoDispatch)
    }

    /** onEvent: append a new, disabled handler. */
    method OnEvent(def: Definition, target: U32Counter) returns (h: EventHandler)
      requires Valid()
      requires target.value == def.initial
      requires target !in Footprint()
      modifies this
      ensures Valid() && fresh(h)
      ensures eventHandlers == old(eventHandlers) + [h] && h.target == target
      ensures View() == Do(old(View()), Register(def))
      ensures Footprint() == old(Footprint()) + {h, target}
    {
      h := new EventHandler(def, target);
      eventHandlers := eventHandlers + [h];
      assert View().handlers == old(View()).handlers + [NewHandler(def)];
      assert h == eventHandlers[|eventHandlers| - 1];
      assert forall i :: 0 <= i < |eventHandlers| - 1 ==> eventHandlers[i] == old(eventHandlers)[i];
      assert Footprint() == old(Footprint()) + {h, target};
    }

    /** The informer's AddFunc: drop a stale event, otherwise visit every handler. */
    method Add(e: Event)
      requires Valid()
      modifies Footprint()
      ensures Valid() && eventHandlers == old(eventHandlers)
      ensures View() == Deliver(startTime, old(View()), e)
    {
      if e.created < startTime {
        return;
      }
      var i := 0;
      while i < |eventHandlers|
        invariant 0 <= i <= |eventHandlers|
        invariant Valid() && eventHandlers == old(eventHandlers)
        invariant forall k :: 0 <= k < i ==> eventHandlers[k].View() == VisitHandler(old(eventHandlers[k].View()), e)
        invariant forall k :: i <= k < |eventHandlers| ==> eventHandlers[k].View() == old(eventHandlers[k].View())
      {
        eventHandlers[i].Visit(e);
        i := i + 1;
      }
      assert View().handlers == VisitFirst(old(View()).handlers, e, |eventHandlers|);
    }
  }

  /** newEventCounter with its enable and get. */
  class EventCounter {
    const counter: U32Counter
    const handler: EventHandler

    constructor (w: EventWatcher, def: Definition)
      requires w.Valid()
      modifies w
      ensures w.Valid() && fresh(handler) && fresh(counter)
      ensures handler.target == counter && w.eventHandlers == old(w.eventHandlers) + [handler]
      ensures w.View() == Do(old(w.View()), Register(def))
      ensures handler.View() == NewHandler(def)
      ensures w.Footprint() == old(w.Footprint()) + {handler, counter}
    {
      var c := new U32Counter(def.initial);
      var h := w.OnEvent(def, c);
      assert w.View().handlers[|w.eventHandlers| - 1] == h.View();
      counter, handler := c, h;
    }

    method Enable()
      modifies handler
      ensures handler.View() == old(handler.View()).(enabled := true)
    {
      handler.Enable();
    }

    method Get() returns (v: U32)
      ensures v == counter.value
    {
      v := counter.Get();
    }
  }

  /** The events of a batch that are not older than the watcher. */
  function NotStale(startTime: int, es: seq<Event>): seq<Event> {
    if es == [] then []
    else NotStale(startTime, Front(es)) + if Last(es).created < startTime then [] else [Last(es)]
  }

  lemma CountOne(startTime: int, def: Definition, es: seq<Event>, s: State, h: nat, e: Event)
    requires h < |s.handlers|
    requires s.handlers[h] == After(def, true, NotStale(startTime, es))
    ensures Deliver(startTime, s, e).handlers[h] == After(def, true, NotStale(startTime, es + [e]))
  {
    assert Front(es + [e]) == es && Last(es + [e]) == e;
    var soFar := NotStale(startTime, es);
    VisitAfter(def, soFar, e);
    assert NotStale(startTime, es + [e]) == if e.created < startTime then soFar else soFar + [e];
  }

  /** The watcher feeds its last handler one more event. */
  method FeedOne(w: EventWatcher, def: Definition, ghost es: seq<Event>, e: Event)
    requires w.Valid() && w.eventHandlers != []
    requires Last(w.eventHandlers).View() == After(def, true, NotStale(w.startTime, es))
    modifies w.Footprint()
    ensures w.Valid() && w.eventHandlers == old(w.eventHandlers)
    ensures Last(w.eventHandlers).View() == After(def, true, NotStale(w.startTime, es + [e]))
  {
    ghost var h := |w.eventHandlers| - 1;
    assert w.View().handlers[h] == Last(w.eventHandlers).View();
    CountOne(w.startTime, def, es, w.View(), h, e);
    w.Add(e);
    assert w.View().handlers[h] == Last(w.eventHandlers).View();
  }

  /**
    A counter made, enabled and then fed a batch of events reads its initial value moved once per fresh accepted
    event.
   */
  method CountBatch(w: EventWatcher, def: Definition, es: seq<Event>) returns (c: EventCounter, v: U32)
    requires w.Valid()
    modifies w, w.Footprint()
    ensures v == Moved(def.callback, def.initial, Accepted(def, NotStale(w.startTime, es)))
  {
    c := new EventCounter(w, def);
    c.Enable();
    var i := 0;
    while i < |es|
      invariant 0 <= i <= |es|
      invariant w.Valid() && w.eventHandlers != [] && Last(w.eventHandlers) == c.handler
      invariant c.handler.target == c.counter
      invariant w.Footprint() == old(w.Footprint()) + {c.handler, c.counter}
      invariant c.handler.View() == After(def, true, NotStale(w.startTime, es[..i]))
    {
      assert es[..i + 1] == es[..i] + [es[i]];
      FeedOne(w, def, es[..i], es[i]);
      i := i + 1;
    }
    assert es[..i] == es;
    v := c.Get();
  }
}
