/**
  The bookkeeping of created objects in pkg/autoscaler/autoscaler.go: a registry of what must be cleaned up, on runs
  that any failed expectation may abort.
 */
module RunCleanup {

  datatype Obj = MachineSet(i: nat) | MachineAutoscaler(i: nat) | ClusterAutoscaler | Workload

  // ---------- the names of the objects ----------

  function Digit(d: nat): char
    requires d < 10
  {
    "0123456789"[d]
  }

  /** The decimal form of n. */
  function Decimal(n: nat): (s: string)
    ensures |s| == 1 <==> n < 10
    ensures |s| >= 1
  {
    if n < 10 then [Digit(n)] else Decimal(n / 10) + [Digit(n % 10)]
  }

  /** Reads a decimal form back, most significant digit first. */
  function Parsed(s: string): int {
    if s == [] then 0 else 10 * Parsed(s[..|s| - 1]) + (s[|s| - 1] as int - '0' as int)
  }

  lemma DigitParses(d: nat)
    requires d < 10
    ensures '0' <= Digit(d) <= '9' && Digit(d) as int - '0' as int == d
  {
  }

  /** The decimal form is made of digits and reads back as the number, so distinct numbers print differently. */
  lemma {:induction false} DecimalParses(n: nat)
    ensures forall i :: 0 <= i < |Decimal(n)| ==> '0' <= Decimal(n)[i] <= '9'
    ensures Parsed(Decimal(n)) == n
  {
    hide Digit;
    if n < 10 {
      DigitParses(n);
      assert [Digit(n)][..0] == [];
    } else {
      DigitParses(n % 10);
      DecimalParses(n / 10);
      var s := Decimal(n);
      assert s[..|s| - 1] == Decimal(n / 10) && s[|s| - 1] == Digit(n % 10);
    }
  }

  /** The run's random prefix, and the names the server generates for the MachineAutoscalers from their generateName. */
  datatype Names = Names(uuid: string, suffix: nat -> string)

  function MachineSetName(names: Names, i: nat): string {
    "e2e-" + names.uuid + "-w-" + Decimal(i)
  }

  function NameOf(names: Names, o: Obj): string {
    match o
    case MachineSet(i) => MachineSetName(names, i)
    case MachineAutoscaler(i) => "autoscale-" + MachineSetName(names, i) + names.suffix(i)
    case ClusterAutoscaler => "default"
    case Workload => "e2e-autoscaler-workload"
  }

  /** For example, with prefix "1b4db" and suffix "x9k2p" for each. */
  lemma PrintedNames(i: nat)
    requires i < 10
    ensures var names := Names("1b4db", _ => "x9k2p");
            && NameOf(names, MachineSet(i)) == "e2e-1b4db-w-" + ["0123456789"[i]]
            && NameOf(names, MachineAutoscaler(i)) == "autoscale-e2e-1b4db-w-" + ["0123456789"[i]] + "x9k2p"
            && NameOf(names, ClusterAutoscaler) == "default" && NameOf(names, Workload) == "e2e-autoscaler-workload"
  {
  }

  /** The prefix has five characters, and the server gives no two objects of one kind the same name. */
  ghost predicate ServerNames(names: Names, n: nat) {
    && |names.uuid| == 5
    && forall i, j :: 0 <= i < j < n ==> NameOf(names, MachineAutoscaler(i)) != NameOf(names, MachineAutoscaler(j))
  }

  predicate InRun(o: Obj, n: nat) {
    (o.MachineSet? || o.MachineAutoscaler?) ==> o.i < n
  }

  lemma MachineSetNamesDiffer(names: Names, i: nat, j: nat)
    requires i != j
    ensures MachineSetName(names, i) != MachineSetName(names, j)
  {
    var prefix := "e2e-" + names.uuid + "-w-";
    if MachineSetName(names, i) == MachineSetName(names, j) {
      assert MachineSetName(names, i)[|prefix|..] == Decimal(i) && MachineSetName(names, j)[|prefix|..] == Decimal(j);
      DecimalParses(i);
      DecimalParses(j);
    }
  }

  lemma KindsDiffer(names: Names, o: Obj, p: Obj)
    requires |names.uuid| == 5
    requires
      || (o.MachineSet? && !p.MachineSet?)
      || (o.MachineAutoscaler? && (p.Workload? || p.ClusterAutoscaler?))
      || (o.Workload? && p.ClusterAutoscaler?)
    ensures NameOf(names, o) != NameOf(names, p)
  {
    var a, b := NameOf(names, o), NameOf(names, p);
    if o.MachineSet? && p.Workload? {
      assert a[9] == '-' && b[9] == 'c';
    } else {
      assert a[0] != b[0];
    }
  }

  /** No two objects of a "scale up and down" run share a name. */
  lemma NamesDiffer(names: Names, n: nat, o: Obj, p: Obj)
    requires ServerNames(names, n)
    requires InRun(o, n) && InRun(p, n) && o != p
    ensures NameOf(names, o) != NameOf(names, p)
  {
    match (o, p) {
      case (MachineSet(i), MachineSet(j)) => MachineSetNamesDiffer(names, i, j);
      case (MachineAutoscaler(i), MachineAutoscaler(j)) =>
        assert i < j || j < i;
      case (MachineSet(_), _) => KindsDiffer(names, o, p);
      case (_, MachineSet(_)) => KindsDiffer(names, p, o);
      case (MachineAutoscaler(_), _) => KindsDiffer(names, o, p);
      case (_, MachineAutoscaler(_)) => KindsDiffer(names, p, o);
      case (Workload, _) => KindsDiffer(names, o, p);
      case (_, Workload) => KindsDiffer(names, p, o);
    }
  }

  /**
    The infrastructure's name and the random identifier appended to it, and the MachineAutoscaler's generated
    suffix.
   */
  datatype ZeroNames = ZeroNames(infra: string, id: string, suffix: string)

  /** The names of the "scales from/to zero" run, which makes one MachineSet. */
  function ZeroNameOf(names: ZeroNames, o: Obj): string {
    match o
    case MachineSet(_) => names.infra + "-" + names.id
    case MachineAutoscaler(_) => "autoscale-" + names.infra + "-" + names.id + names.suffix
    case ClusterAutoscaler => "default"
    case Workload => "e2e-autoscaler-workload"
  }

  /** For example, on infrastructure "ci-ln-7" with identifier "1b4db9" and suffix "x9k2p". */
  lemma PrintedZeroNames()
    ensures var names := ZeroNames("ci-ln-7", "1b4db9", "x9k2p");
            && ZeroNameOf(names, MachineSet(0)) == "ci-ln-7-1b4db9"
            && ZeroNameOf(names, MachineAutoscaler(0)) == "autoscale-ci-ln-7-1b4db9x9k2p"
            && ZeroNameOf(names, ClusterAutoscaler) == "default"
            && ZeroNameOf(names, Workload) == "e2e-autoscaler-workload"
  {
  }

  lemma ZeroKindsDiffer(names: ZeroNames, o: Obj, p: Obj)
    requires names.infra != "" && |names.id| == 6
    requires
      || (o.MachineSet? && !p.MachineSet?)
      || (o.MachineAutoscaler? && (p.Workload? || p.ClusterAutoscaler?))
      || (o.Workload? && p.ClusterAutoscaler?)
    ensures ZeroNameOf(names, o) != ZeroNameOf(names, p)
  {
    var a, b := ZeroNameOf(names, o), ZeroNameOf(names, p);
    if o.MachineSet? && p.Workload? {
      assert a[|a| - 7] == '-' && b[|b| - 7] == 'o';
    } else if o.MachineSet? {
      assert |a| != |b|;
    } else {
      assert a[0] != b[0];
    }
  }

  /** No two objects of a "scales from/to zero" run share a name, whatever the infrastructure is called. */
  lemma ZeroNamesDiffer(names: ZeroNames, o: Obj, p: Obj)
    requires names.infra != "" && |names.id| == 6
    requires InRun(o, 1) && InRun(p, 1) && o != p
    ensures ZeroNameOf(names, o) != ZeroNameOf(names, p)
  {
    match (o, p) {
      case (MachineSet(_), _) => ZeroKindsDiffer(names, o, p);
      case (_, MachineSet(_)) => ZeroKindsDiffer(names, p, o);
      case (MachineAutoscaler(_), _) => ZeroKindsDiffer(names, o, p);
      case (_, MachineAutoscaler(_)) => ZeroKindsDiffer(names, p, o);
      case (Workload, _) => ZeroKindsDiffer(names, o, p);
      case (_, Workload) => ZeroKindsDiffer(names, p, o);
    }
  }

  /** The objects of a run with n MachineSets have names of their own. */
  ghost predicate Distinct(name: Obj -> string, n: nat) {
    forall o, p :: InRun(o, n) && InRun(p, n) && o != p ==> name(o) != name(p)
  }

  // ---------- a registry keyed by name ----------

  /** The registry after the objects have been entered in order. */
  function Register(objs: seq<Obj>, name: Obj -> string): map<string, Obj> {
    if objs == [] then map[]
    else Register(objs[..|objs| - 1], name)[name(objs[|objs| - 1]) := objs[|objs| - 1]]
  }

  lemma {:induction false} RegisterIsLatest(objs: seq<Obj>, name: Obj -> string, k: string)
    ensures k in Register(objs, name) ==> Register(objs, name)[k] in objs && name(Register(objs, name)[k]) == k
  {
    if objs != [] {
      var init := objs[..|objs| - 1];
      RegisterIsLatest(init, name, k);
      assert objs == init + [objs[|objs| - 1]];
    }
  }

  lemma {:induction false} RegisterKeys(objs: seq<Obj>, name: Obj -> string, o: Obj)
    requires o in objs
    ensures name(o) in Register(objs, name)
  {
    var init := objs[..|objs| - 1];
    assert objs == init + [objs[|objs| - 1]];
    if o in init {
      RegisterKeys(init, name, o);
    }
  }

  /** A registry keyed by name keeps every object entered exactly when no two of them share a name. */
  lemma RegistersAllExactlyWhenDistinct(objs: seq<Obj>, name: Obj -> string)
    ensures (forall o :: o in objs ==> o in Register(objs, name).Values)
       <==> (forall o, p :: o in objs && p in objs && o != p ==> name(o) != name(p))
  {
    var m := Register(objs, name);
    if forall o :: o in objs ==> o in m.Values {
      forall o, p | o in objs && p in objs && o != p
        ensures name(o) != name(p)
      {
        var j :| j in m && m[j] == o;
        var k :| k in m && m[k] == p;
        RegisterIsLatest(objs, name, j);
        RegisterIsLatest(objs, name, k);
      }
    }
    if forall o, p :: o in objs && p in objs && o != p ==> name(o) != name(p) {
      forall o | o in objs
        ensures o in m.Values
      {
        RegisterKeys(objs, name, o);
        RegisterIsLatest(objs, name, name(o));
        assert m[name(o)] == o;
      }
    }
  }

  // ---------- the runs ----------

  function Sets(lo: nat, hi: nat): set<Obj> {
    set j | lo <= j < hi :: MachineSet(j)
  }

  function Scalers(lo: nat, hi: nat): set<Obj> {
    set j | lo <= j < hi :: MachineAutoscaler(j)
  }

  // ---------- what a run asks, and the answers it gets ----------

  /** A request to the server, or any wait or expectation that is not about the registry. */
  datatype Request = Create(o: Obj) | Delete(o: Obj) | Expect

  datatype Answer = Answer(request: Request, yes: bool)

  /**
    From the log before to the log after the script was followed, request after request in its order: to the end with a
    yes to each (ok), or up to and including the first no (not ok).
   */
  predicate Ran(before: seq<Answer>, after: seq<Answer>, script: seq<Request>, ok: bool) {
    && before <= after && |after| - |before| <= |script|
    && (forall i :: |before| <= i < |after| ==> after[i].request == script[i - |before|])
    && (forall i :: |before| <= i < |after| - (if ok then 0 else 1) ==> after[i].yes)
    && (if ok then |after| - |before| == |script| else |before| < |after| && !after[|after| - 1].yes)
  }

  lemma RanNone(a: seq<Answer>)
    ensures Ran(a, a, [], true)
  {
  }

  /** After the part done of the script comes the part next. */
  lemma RanOn(a: seq<Answer>, b: seq<Answer>, c: seq<Answer>, done: seq<Request>, next: seq<Request>,
              script: seq<Request>, ok: bool)
    requires Ran(a, b, done, true) && Ran(b, c, next, ok) && done + next <= script
    ensures Ran(a, c, done + next, ok)
    ensures !ok ==> Ran(a, c, script, false)
  {
    assert forall i :: 0 <= i < |done + next| ==> (done + next)[i] == script[i];
  }

  function CreateSets(n: nat): seq<Request> {
    seq(n, i requires i >= 0 => Create(MachineSet(i)))
  }

  function CreateScalers(n: nat): seq<Request> {
    seq(n, i requires i >= 0 => Create(MachineAutoscaler(i)))
  }

  function DeleteScalers(n: nat): seq<Request> {
    seq(n, i requires i >= 0 => Delete(MachineAutoscaler(i)))
  }

  /** Each deletion is followed by the wait for the MachineSet to be gone. */
  function DeleteSets(n: nat): seq<Request> {
    seq(2 * n, i requires i >= 0 => if i % 2 == 0 then Delete(MachineSet(i / 2)) else Expect)
  }

  /** The requests of the phases, one phase after another. */
  function Joined(phases: seq<seq<Request>>): seq<Request> {
    if phases == [] then [] else Joined(phases[..|phases| - 1]) + phases[|phases| - 1]
  }

  lemma {:induction false} JoinedPrefix(phases: seq<seq<Request>>, k: nat)
    requires k <= |phases|
    ensures Joined(phases[..k]) <= Joined(phases)
  {
    if k == |phases| {
      assert phases[..k] == phases;
    } else {
      var init := phases[..|phases| - 1];
      assert init[..k] == phases[..k];
      JoinedPrefix(init, k);
    }
  }

  lemma RanNothing(a: seq<Answer>, phases: seq<seq<Request>>)
    ensures Ran(a, a, Joined(phases[..0]), true)
  {
  }

  /** After the first k phases comes the next. */
  lemma RanPhase(a: seq<Answer>, b: seq<Answer>, c: seq<Answer>, phases: seq<seq<Request>>, k: nat, ok: bool)
    requires k < |phases|
    requires Ran(a, b, Joined(phases[..k]), true) && Ran(b, c, phases[k], ok)
    ensures ok ==> Ran(a, c, Joined(phases[..k + 1]), true)
    ensures ok && k + 1 == |phases| ==> Ran(a, c, Joined(phases), true)
    ensures !ok ==> Ran(a, c, Joined(phases), false)
  {
    hide Ran;
    assert phases[..k + 1][..k] == phases[..k];
    assert k + 1 == |phases| ==> phases[..k + 1] == phases;
    JoinedPrefix(phases, k + 1);
    RanOn(a, b, c, Joined(phases[..k]), phases[k], Joined(phases), ok);
  }

  /** The first half of the "scale up and down" run. */
  function CreatePhases(n: nat): seq<seq<Request>> {
    [[Expect], CreateSets(n), [Expect], CreateScalers(n), [Expect], [Create(ClusterAutoscaler)], [Create(Workload)]]
  }

  /** Its second half. */
  function DeletePhases(n: nat): seq<seq<Request>> {
    [[Expect], [Delete(Workload)], [Expect], DeleteScalers(n), DeleteSets(n), [Delete(ClusterAutoscaler)], [Expect]]
  }

  /** The "scales from/to zero" run up to its workload. */
  const PreparePhases: seq<seq<Request>> :=
    [[Expect], [Create(MachineSet(0))], [Expect], [Create(ClusterAutoscaler)], [Create(MachineAutoscaler(0))]]

  /** And from there on. */
  const FinishPhases: seq<seq<Request>> :=
    [[Expect], [Delete(Workload)], [Expect], [Delete(ClusterAutoscaler)], [Expect]]

  /** The deletes of the objects registered under these names. */
  function Deletions(registered: map<string, Obj>, names: seq<string>): seq<Request>
    requires forall i :: 0 <= i < |names| ==> names[i] in registered
  {
    seq(|names|, i requires 0 <= i < |names| => Request.Delete(registered[names[i]]))
  }

  lemma NoDeletions(registered: map<string, Obj>)
    ensures Deletions(registered, []) == []
  {
  }

  lemma OneMoreDeletion(registered: map<string, Obj>, names: seq<string>, k: string)
    requires forall i :: 0 <= i < |names| ==> names[i] in registered
    requires k in registered
    ensures forall i :: 0 <= i < |names + [k]| ==> (names + [k])[i] in registered
    ensures Deletions(registered, names + [k]) == Deletions(registered, names) + [Request.Delete(registered[k])]
  {
  }

  class Suite {
    const name: Obj -> string
    const n: nat                              // the number of transient MachineSets, three in the repository
    var cleanupObjects: map<string, Obj>
    var server: set<Obj>                      // created, and no delete accepted yet
    ghost var log: seq<Answer>                // all that was asked and answered

    ghost predicate Inv()
      reads this`cleanupObjects, this`server
    {
      && Distinct(name, n)
      && (forall o :: o in server ==> InRun(o, n))
      && (forall k :: k in cleanupObjects ==> InRun(cleanupObjects[k], n) && name(cleanupObjects[k]) == k)
    }

    /** Everything outstanding is registered. */
    ghost predicate Covered()
      reads this`cleanupObjects, this`server
    {
      forall o :: o in server ==> name(o) in cleanupObjects && cleanupObjects[name(o)] == o
    }

    /** Everything outstanding is registered, and nothing else is. */
    ghost predicate Exact()
      reads this`cleanupObjects, this`server
    {
      Inv() && Covered() && forall k :: k in cleanupObjects ==> cleanupObjects[k] in server
    }

    constructor (name: Obj -> string, n: nat)
      requires Distinct(name, n)
      ensures Exact() && server == {} && this.n == n && this.name == name && log == []
    {
      this.name, this.n := name, n;
      cleanupObjects, server, log := map[], {}, [];
    }

    /** A create request; a failed one has no effect. */
    method Create(o: Obj) returns (ok: bool)
      requires o !in server
      modifies this`server, this`log
      ensures server == if ok then old(server) + {o} else old(server)
      ensures Ran(old(log), log, [Request.Create(o)], ok)
    {
      ok := *;
      log := log + [Answer(Request.Create(o), ok)];
      if ok {
        server := server + {o};
      }
    }

    /** A delete request; it can be accepted only for an object that was created. */
    method Delete(o: Obj) returns (ok: bool)
      modifies this`server, this`log
      ensures ok ==> o in old(server)
      ensures server == if ok then old(server) - {o} else old(server)
      ensures Ran(old(log), log, [Request.Delete(o)], ok)
    {
      ok := *;
      ok := ok && o in server;
      log := log + [Answer(Request.Delete(o), ok)];
      if ok {
        server := server - {o};
      }
    }

    /** Create, expect success, register. */
    method CreateAndRegister(o: Obj) returns (ok: bool)
      requires Exact() && o !in server && InRun(o, n)
      modifies this
      ensures Exact()
      ensures server == if ok then old(server) + {o} else old(server)
      ensures Ran(old(log), log, [Request.Create(o)], ok)
    {
      ok := Create(o);
      if ok {
        assert forall p :: p in server && p != o ==> name(p) != name(o);
        cleanupObjects := cleanupObjects[name(o) := o];
      }
    }

    /** Delete what is registered under the object's name, expect success, unregister. */
    method DeleteAndUnregister(o: Obj) returns (ok: bool)
      requires Exact() && o in server
      modifies this
      ensures Exact()
      ensures server == if ok then old(server) - {o} else old(server)
      ensures Ran(old(log), log, [Request.Delete(o)], ok)
    {
      ok := Delete(cleanupObjects[name(o)]);
      if ok {
        assert forall p :: p in server ==> name(p) != name(o);
        cleanupObjects := cleanupObjects - {name(o)};
      }
    }

    /** Any wait or expectation that is not about the registry: it holds or it aborts the run. */
    method Expect() returns (ok: bool)
      modifies this`log
      ensures Ran(old(log), log, [Request.Expect], ok)
    {
      ok := *;
      log := log + [Answer(Request.Expect, ok)];
    }

    method CreateMachineSets() returns (ok: bool)
      requires Exact() && server == {}
      modifies this
      ensures Exact()
      ensures ok ==> server == Sets(0, n)
      ensures Ran(old(log), log, CreateSets(n), ok)
    {
      hide Exact, Ran;
      ghost var start := log;
      RanNone(start);
      assert CreateSets(0) == [];
      for i := 0 to n
        invariant Exact() && server == Sets(0, i)
        invariant Ran(start, log, CreateSets(i), true)
      {
        ghost var here := log;
        ok := CreateAndRegister(MachineSet(i));
        assert CreateSets(i) + [Request.Create(MachineSet(i))] == CreateSets(i + 1) <= CreateSets(n);
        RanOn(start, here, log, CreateSets(i), [Request.Create(MachineSet(i))], CreateSets(n), ok);
        if !ok { return false; }
      }
      ok := true;
    }

    method CreateMachineAutoscalers() returns (ok: bool)
      requires Exact() && server == Sets(0, n)
      modifies this
      ensures Exact()
      ensures ok ==> server == Sets(0, n) + Scalers(0, n)
      ensures Ran(old(log), log, CreateScalers(n), ok)
    {
      hide Exact, Ran;
      ghost var start := log;
      RanNone(start);
      assert CreateScalers(0) == [];
      for i := 0 to n
        invariant Exact() && server == Sets(0, n) + Scalers(0, i)
        invariant Ran(start, log, CreateScalers(i), true)
      {
        ghost var here := log;
        ok := CreateAndRegister(MachineAutoscaler(i));
        assert CreateScalers(i) + [Request.Create(MachineAutoscaler(i))] == CreateScalers(i + 1) <= CreateScalers(n);
        RanOn(start, here, log, CreateScalers(i), [Request.Create(MachineAutoscaler(i))], CreateScalers(n), ok);
        if !ok { return false; }
      }
      ok := true;
    }

    method DeleteMachineAutoscalers() returns (ok: bool)
      requires Exact() && server == Sets(0, n) + Scalers(0, n) + {ClusterAutoscaler}
      modifies this
      ensures Exact()
      ensures ok ==> server == Sets(0, n) + {ClusterAutoscaler}
      ensures Ran(old(log), log, DeleteScalers(n), ok)
    {
      hide Exact, Ran;
      ghost var start := log;
      RanNone(start);
      assert DeleteScalers(0) == [];
      for i := 0 to n
        invariant Exact() && server == Sets(0, n) + Scalers(i, n) + {ClusterAutoscaler}
        invariant Ran(start, log, DeleteScalers(i), true)
      {
        assert Scalers(i, n) - {MachineAutoscaler(i)} == Scalers(i + 1, n);
        ghost var here := log;
        ok := DeleteAndUnregister(MachineAutoscaler(i));
        assert DeleteScalers(i) + [Request.Delete(MachineAutoscaler(i))] == DeleteScalers(i + 1) <= DeleteScalers(n);
        RanOn(start, here, log, DeleteScalers(i), [Request.Delete(MachineAutoscaler(i))], DeleteScalers(n), ok);
        if !ok { return false; }
      }
      ok := true;
    }

    /** Each deletion is followed by the wait for the MachineSet to be gone, which may abort. */
    method DeleteMachineSets() returns (ok: bool)
      requires Exact() && server == Sets(0, n) + {ClusterAutoscaler}
      modifies this
      ensures Exact()
      ensures ok ==> server == {ClusterAutoscaler}
      ensures Ran(old(log), log, DeleteSets(n), ok)
    {
      hide Exact, Ran;
      ghost var start := log;
      RanNone(start);
      assert DeleteSets(0) == [];
      for i := 0 to n
        invariant Exact() && server == Sets(i, n) + {ClusterAutoscaler}
        invariant Ran(start, log, DeleteSets(i), true)
      {
        assert Sets(i, n) - {MachineSet(i)} == Sets(i + 1, n);
        ghost var here, more := log, DeleteSets(i) + [Request.Delete(MachineSet(i))];
        assert more + [Request.Expect] == DeleteSets(i + 1) <= DeleteSets(n);
        ok := DeleteAndUnregister(MachineSet(i));
        RanOn(start, here, log, DeleteSets(i), [Request.Delete(MachineSet(i))], DeleteSets(n), ok);
        if !ok { return false; }
        here := log;
        ok := Expect();
        RanOn(start, here, log, more, [Request.Expect], DeleteSets(n), ok);
        if !ok { return false; }
      }
      ok := true;
    }

    /** The run up to the created workload. */
    method CreateAll() returns (ok: bool)
      requires Exact() && server == {}
      modifies this
      ensures Exact()
      ensures ok ==> server == Sets(0, n) + Scalers(0, n) + {ClusterAutoscaler, Workload}
      ensures Ran(old(log), log, Joined(CreatePhases(n)), ok)
    {
      hide Exact, Ran, Joined;
      ghost var start, phases := log, CreatePhases(n);
      RanNothing(start, phases);
      ghost var here := log;
      ok := Expect();
      RanPhase(start, here, log, phases, 0, ok);
      if !ok { return false; }
      here := log;
      ok := CreateMachineSets();
      RanPhase(start, here, log, phases, 1, ok);
      if !ok { return false; }
      here := log;
      ok := Expect();
      RanPhase(start, here, log, phases, 2, ok);
      if !ok { return false; }
      here := log;
      ok := CreateMachineAutoscalers();
      RanPhase(start, here, log, phases, 3, ok);
      if !ok { return false; }
      here := log;
      ok := Expect();
      RanPhase(start, here, log, phases, 4, ok);
      if !ok { return false; }
      here := log;
      ok := CreateAndRegister(ClusterAutoscaler);
      RanPhase(start, here, log, phases, 5, ok);
      if !ok { return false; }
      here := log;
      ok := CreateAndRegister(Workload);
      RanPhase(start, here, log, phases, 6, ok);
    }

    /** The run from there on: the waits, and the deletions one kind after another. */
    method DeleteAll() returns (ok: bool)
      requires Exact() && server == Sets(0, n) + Scalers(0, n) + {ClusterAutoscaler, Workload}
      modifies this
      ensures Exact()
      ensures ok ==> server == {}
      ensures Ran(old(log), log, Joined(DeletePhases(n)), ok)
    {
      hide Exact, Ran, Joined;
      ghost var start, phases := log, DeletePhases(n);
      RanNothing(start, phases);
      ghost var here := log;
      ok := Expect();
      RanPhase(start, here, log, phases, 0, ok);
      if !ok { return false; }
      here := log;
      ok := DeleteAndUnregister(Workload);
      RanPhase(start, here, log, phases, 1, ok);
      if !ok { return false; }
      assert server == Sets(0, n) + Scalers(0, n) + {ClusterAutoscaler};
      here := log;
      ok := Expect();
      RanPhase(start, here, log, phases, 2, ok);
      if !ok { return false; }
      here := log;
      ok := DeleteMachineAutoscalers();
      RanPhase(start, here, log, phases, 3, ok);
      if !ok { return false; }
      here := log;
      ok := DeleteMachineSets();
      RanPhase(start, here, log, phases, 4, ok);
      if !ok { return false; }
      here := log;
      ok := DeleteAndUnregister(ClusterAutoscaler);
      RanPhase(start, here, log, phases, 5, ok);
      if !ok { return false; }
      here := log;
      ok := Expect();
      RanPhase(start, here, log, phases, 6, ok);
    }

    /**
      The "scale up and down" run. However it ends, at whichever expectation, the registry holds exactly the objects
      that were created and whose deletion has not been accepted; a run that finishes leaves none.
     */
    method ScaleUpAndDown() returns (finished: bool)
      requires Exact() && server == {}
      modifies this
      ensures Exact()
      ensures finished ==> server == {} && cleanupObjects == map[]
      ensures Ran(old(log), log, Joined(CreatePhases(n)) + Joined(DeletePhases(n)), finished)
    {
      ghost var start, script := log, Joined(CreatePhases(n)) + Joined(DeletePhases(n));
      RanNone(start);
      var ok := CreateAll();
      RanOn(start, start, log, [], Joined(CreatePhases(n)), script, ok);
      if !ok { return false; }
      ghost var here := log;
      finished := DeleteAll();
      RanOn(start, here, log, Joined(CreatePhases(n)), Joined(DeletePhases(n)), script, finished);
      assert finished ==> forall k :: k !in cleanupObjects;
    }

    /** Register first, then create and expect success: a refused object stays registered. */
    method RegisterAndCreate(o: Obj) returns (ok: bool)
      requires Exact() && o !in server && InRun(o, n)
      modifies this
      ensures Inv() && Covered()
      ensures Exact() <==> ok
      ensures server == if ok then old(server) + {o} else old(server)
      ensures Ran(old(log), log, [Request.Create(o)], ok)
      ensures log != [] && log[|log| - 1] == Answer(Request.Create(o), ok)
    {
      assert forall p :: p in server ==> name(p) != name(o);
      cleanupObjects := cleanupObjects[name(o) := o];
      ok := Create(o);
      assert cleanupObjects[name(o)] == o;
    }

    method PrepareScaleFromZero() returns (ok: bool)
      requires Exact() && server == {} && n >= 1
      modifies this
      ensures Exact()
      ensures ok ==> server == {MachineSet(0), ClusterAutoscaler, MachineAutoscaler(0)}
      ensures Ran(old(log), log, Joined(PreparePhases), ok)
    {
      hide Exact, Ran, Joined;
      ghost var start, phases := log, PreparePhases;
      RanNothing(start, phases);
      ghost var here := log;
      ok := Expect();
      RanPhase(start, here, log, phases, 0, ok);
      if !ok { return false; }
      here := log;
      ok := CreateAndRegister(MachineSet(0));
      RanPhase(start, here, log, phases, 1, ok);
      if !ok { return false; }
      here := log;
      ok := Expect();
      RanPhase(start, here, log, phases, 2, ok);
      if !ok { return false; }
      here := log;
      ok := CreateAndRegister(ClusterAutoscaler);
      RanPhase(start, here, log, phases, 3, ok);
      if !ok { return false; }
      here := log;
      ok := CreateAndRegister(MachineAutoscaler(0));
      RanPhase(start, here, log, phases, 4, ok);
    }

    method FinishScaleFromZero() returns (ok: bool)
      requires Exact() && server == {MachineSet(0), ClusterAutoscaler, MachineAutoscaler(0), Workload}
      modifies this
      ensures Exact()
      ensures ok ==> server == {MachineSet(0), MachineAutoscaler(0)}
      ensures Ran(old(log), log, Joined(FinishPhases), ok)
    {
      hide Exact, Ran, Joined;
      ghost var start, phases := log, FinishPhases;
      RanNothing(start, phases);
      ghost var here := log;
      ok := Expect();
      RanPhase(start, here, log, phases, 0, ok);
      if !ok { return false; }
      here := log;
      ok := DeleteAndUnregister(Workload);
      RanPhase(start, here, log, phases, 1, ok);
      if !ok { return false; }
      here := log;
      ok := Expect();
      RanPhase(start, here, log, phases, 2, ok);
      if !ok { return false; }
      here := log;
      ok := DeleteAndUnregister(ClusterAutoscaler);
      RanPhase(start, here, log, phases, 3, ok);
      if !ok { return false; }
      here := log;
      ok := Expect();
      RanPhase(start, here, log, phases, 4, ok);
    }

    /**
      The "scales from/to zero" run registers its workload before creating it. What is outstanding is still
      registered at every end, but if that creation fails the registry holds an object that does not exist.
     */
    method ScaleFromZero() returns (finished: bool, workloadRefused: bool)
      requires Exact() && server == {} && n >= 1
      modifies this
      ensures Inv() && Covered()
      ensures Exact() <==> !workloadRefused
      ensures finished ==> !workloadRefused && server == {MachineSet(0), MachineAutoscaler(0)}
      ensures Ran(old(log), log, Joined(PreparePhases) + [Request.Create(Workload)] + Joined(FinishPhases), finished)
      ensures workloadRefused ==> log != [] && log[|log| - 1] == Answer(Request.Create(Workload), false)
    {
      hide Ran, Joined;
      ghost var start, prepared := log, Joined(PreparePhases) + [Request.Create(Workload)];
      ghost var script := prepared + Joined(FinishPhases);
      RanNone(start);
      var ok := PrepareScaleFromZero();
      RanOn(start, start, log, [], Joined(PreparePhases), script, ok);
      if !ok { return false, false; }
      ghost var here := log;
      ok := RegisterAndCreate(Workload);
      RanOn(start, here, log, Joined(PreparePhases), [Request.Create(Workload)], script, ok);
      if !ok { return false, true; }
      here := log;
      finished := FinishScaleFromZero();
      RanOn(start, here, log, prepared, Joined(FinishPhases), script, finished);
      workloadRefused := false;
    }

    /**
      AfterEach: delete every registered object, in whatever order the map ranges, aborting at the first refusal. order
      is the names it came to, no name twice. If it succeeds it came to all of them, and every object that was
      outstanding has had its delete accepted; it can succeed only if all registered objects exist. If it fails the
      delete of the last object it came to was refused.
     */
    method AfterEach() returns (ok: bool, ghost order: seq<string>)
      requires Inv() && Covered()
      modifies this`server, this`log
      ensures forall i :: 0 <= i < |order| ==> order[i] in cleanupObjects
      ensures forall i, j :: 0 <= i < j < |order| ==> order[i] != order[j]
      ensures Ran(old(log), log, Deletions(cleanupObjects, order), ok)
      ensures ok ==> forall k :: k in cleanupObjects ==> k in order
      ensures ok ==> server == {}
      ensures ok ==> old(Exact())
      ensures server <= old(server)
    {
      hide Ran, Deletions, Distinct, InRun;
      var left := cleanupObjects.Keys;
      order := [];
      ghost var start := log;
      RanNone(start);
      NoDeletions(cleanupObjects);
      while left != {}
        invariant left <= cleanupObjects.Keys && server <= old(server)
        invariant forall i :: 0 <= i < |order| ==> order[i] in cleanupObjects && order[i] !in left
        invariant forall i, j :: 0 <= i < j < |order| ==> order[i] != order[j]
        invariant forall k :: k in cleanupObjects.Keys - left ==> k in order && cleanupObjects[k] in old(server)
        invariant forall o :: o in server ==> name(o) in left
        invariant Ran(start, log, Deletions(cleanupObjects, order), true)
        decreases left
      {
        var k :| k in left;
        ghost var here, before := log, order;
        order := order + [k];
        ok := Delete(cleanupObjects[k]);
        OneMoreDeletion(cleanupObjects, before, k);
        RanOn(start, here, log, Deletions(cleanupObjects, before), [Request.Delete(cleanupObjects[k])],
              Deletions(cleanupObjects, order), ok);
        if !ok {
          return false, order;
        }
        left := left - {k};
      }
      return true, order;
    }
  }

  /**
    A "scale up and down" run followed by its cleanup, which leaves nothing behind if it succeeds, wherever the run
    stopped.
   */
  method RunAndCleanUp(names: Names, n: nat) returns (s: Suite, finished: bool, clean: bool)
    requires ServerNames(names, n)
    ensures clean ==> s.server == {}
    ensures finished ==> s.server == {}
  {
    var name := (o: Obj) => NameOf(names, o);
    forall o, p | InRun(o, n) && InRun(p, n) && o != p
      ensures name(o) != name(p)
    {
      NamesDiffer(names, n, o, p);
    }
    s := new Suite(name, n);
    finished := s.ScaleUpAndDown();
    ghost var order;
    clean, order := s.AfterEach();
  }

  /**
    The same for a "scales from/to zero" run. Even a finished one leaves its MachineSet and MachineAutoscaler to the
    cleanup, and the cleanup fails if the workload was refused.
   */
  method RunFromZeroAndCleanUp(names: ZeroNames) returns (s: Suite, finished: bool, refused: bool, clean: bool)
    requires names.infra != "" && |names.id| == 6
    ensures clean ==> s.server == {} && !refused
    ensures finished ==> s.server <= {MachineSet(0), MachineAutoscaler(0)}
  {
    var name := (o: Obj) => ZeroNameOf(names, o);
    forall o, p | InRun(o, 1) && InRun(p, 1) && o != p
      ensures name(o) != name(p)
    {
      ZeroNamesDiffer(names, o, p);
    }
    s := new Suite(name, 1);
    finished, refused := s.ScaleFromZero();
    ghost var order;
    clean, order := s.AfterEach();
  }
}
