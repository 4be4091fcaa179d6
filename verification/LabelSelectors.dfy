/** How NewMachineSet, CreateMachineSet and CreateMHC build label maps, and which machines their selectors can pick. */
module LabelSelectors {
  import opened ClusterReads

  const CLUSTER_KEY := "machine.openshift.io/cluster-api-cluster"
  const MACHINE_SET_KEY := "machine.openshift.io/cluster-api-machineset"
  const STAMP_KEY := "e2e.openshift.io"

  /** A Go map: shared by every variable that holds it. */
  class LabelMap {
    var m: Labels

    constructor (m: Labels)
      ensures this.m == m
    {
      this.m := m;
    }

    method Set(k: string, v: string)
      modifies this
      ensures m == old(m)[k := v]
    {
      m := m[k := v];
    }
  }

  class MachineSet {
    const name: string
    const labels: LabelMap
    const selector: LabelMap
    const templateLabels: LabelMap
    const specLabels: LabelMap?

    constructor (name: string, labels: LabelMap, selector: LabelMap, templateLabels: LabelMap, specLabels: LabelMap?)
      ensures this.name == name && this.labels == labels && this.selector == selector
      ensures this.templateLabels == templateLabels && this.specLabels == specLabels
    {
      this.name, this.labels, this.selector := name, labels, selector;
      this.templateLabels, this.specLabels := templateLabels, specLabels;
    }
  }

  // ---------- NewMachineSet ----------

  /** dst with the entries of src whose keys it lacks. */
  function Merged(dst: Labels, src: Labels): Labels {
    src + dst
  }

  /** The two labels that identify a MachineSet. */
  function Identity(cluster: string, name: string): Labels {
    map[CLUSTER_KEY := cluster, MACHINE_SET_KEY := name]
  }

  function Extended(cluster: string, name: string, extra: Labels): Labels {
    Merged(Identity(cluster, name), extra)
  }

  /** What is merged in keeps its labels, apart from the two that identify the MachineSet, which are the new ones. */
  lemma ExtendedHas(cluster: string, name: string, extra: Labels, k: string)
    ensures var clusterKey := "machine.openshift.io/cluster-api-cluster";
            var setKey := "machine.openshift.io/cluster-api-machineset";
            && (k in Extended(cluster, name, extra) <==> k == clusterKey || k == setKey || k in extra)
            && Extended(cluster, name, extra)[clusterKey] == cluster
            && Extended(cluster, name, extra)[setKey] == name
            && (k in extra && k != clusterKey && k != setKey ==> Extended(cluster, name, extra)[k] == extra[k])
  {
    assert CLUSTER_KEY[33] != MACHINE_SET_KEY[33];
  }

  /** A nil map ranges as an empty one. */
  function Entries(l: LabelMap?): Labels
    reads l
  {
    if l == null then map[] else l.m
  }

  /** The merge loop, in whatever order the range takes. */
  method MergeInto(dst: LabelMap, src: LabelMap?)
    requires dst != src
    modifies dst
    ensures dst.m == Merged(old(dst.m), Entries(src))
  {
    if src == null {
      return;
    }
    var keys := src.m.Keys;
    while keys != {}
      invariant keys <= src.m.Keys && src.m == old(src.m)
      invariant dst.m.Keys == old(dst.m.Keys) + (src.m.Keys - keys)
      invariant forall k :: k in dst.m ==> dst.m[k] == if k in old(dst.m) then old(dst.m)[k] else src.m[k]
      decreases keys
    {
      var k :| k in keys;
      if k !in dst.m {
        dst.Set(k, src.m[k]);
      }
      keys := keys - {k};
    }
  }

  method NewMachineSet(cluster: string, name: string, selectorLabels: LabelMap?, templateLabels: LabelMap?)
    returns (ms: MachineSet)
    ensures fresh(ms) && fresh(ms.labels) && fresh(ms.selector) && fresh(ms.templateLabels) && ms.specLabels == null
    ensures ms.selector != ms.templateLabels && ms.labels != ms.selector && ms.labels != ms.templateLabels
    ensures ms.name == name && ms.labels.m == map["machine.openshift.io/cluster-api-cluster" := cluster]
    ensures ms.selector.m == Extended(cluster, name, Entries(selectorLabels))
    ensures ms.templateLabels.m == Extended(cluster, name, Entries(templateLabels))
  {
    var labels := new LabelMap(map[CLUSTER_KEY := cluster]);
    var selector := new LabelMap(Identity(cluster, name));
    var template := new LabelMap(Identity(cluster, name));
    MergeInto(selector, selectorLabels);
    MergeInto(template, templateLabels);
    ms := new MachineSet(name, labels, selector, template, null);
  }

  /**
    The clone's selector picks the clone's own template exactly when the source's selector agreed with the source's
    template on every key other than the two that are overwritten; in particular when it was contained in it.
   */
  lemma CloneSelectsItself(cluster: string, name: string, selector: Labels, template: Labels)
    ensures Selects(Extended(cluster, name, selector), Extended(cluster, name, template)) <==>
            Selects(selector - {CLUSTER_KEY, MACHINE_SET_KEY}, template)
    ensures Selects(selector, template) ==>
              Selects(Extended(cluster, name, selector), Extended(cluster, name, template))
  {
  }

  /** The names given to a clone, to a clone of that clone, and so on. */
  datatype Clone = Clone(cluster: string, name: string)

  function CloneAll(extra: Labels, clones: seq<Clone>): Labels {
    if clones == [] then extra
    else
      var last := clones[|clones| - 1];
      Extended(last.cluster, last.name, CloneAll(extra, clones[..|clones| - 1]))
  }

  /** Along any chain of clones of clones the selector keeps picking the template. */
  lemma {:induction false} ClonesSelectThemselves(selector: Labels, template: Labels, clones: seq<Clone>)
    requires Selects(selector, template)
    ensures Selects(CloneAll(selector, clones), CloneAll(template, clones))
  {
    if clones != [] {
      var last, init := clones[|clones| - 1], clones[..|clones| - 1];
      ClonesSelectThemselves(selector, template, init);
      CloneSelectsItself(last.cluster, last.name, CloneAll(selector, init), CloneAll(template, init));
    }
  }

  /**
    No label map satisfies the selectors of two MachineSets built with distinct names, whatever was merged into
    them.
   */
  lemma DistinctNamesExclude(c1: string, n1: string, extra1: Labels,
                             c2: string, n2: string, extra2: Labels, labels: Labels)
    requires n1 != n2
    ensures !(Selects(Extended(c1, n1, extra1), labels) && Selects(Extended(c2, n2, extra2), labels))
  {
    assert MACHINE_SET_KEY in Identity(c1, n1) && MACHINE_SET_KEY in Identity(c2, n2);
  }

  /**
    The MachineSet that was copied from also claims the clone's machines exactly when its selector leaves the
    MachineSet key open (or names the clone) and agrees with the clone's cluster.
   */
  lemma SourceClaimsCloneExactlyWhen(cluster: string, name: string, selector: Labels, template: Labels)
    requires Selects(selector, template)
    ensures Selects(selector, Extended(cluster, name, template)) <==>
            && ("machine.openshift.io/cluster-api-cluster" in selector ==>
                  selector["machine.openshift.io/cluster-api-cluster"] == cluster)
            && ("machine.openshift.io/cluster-api-machineset" in selector ==>
                  selector["machine.openshift.io/cluster-api-machineset"] == name)
  {
    var t := Extended(cluster, name, template);
    assert CLUSTER_KEY != MACHINE_SET_KEY by {
      assert CLUSTER_KEY[33] != MACHINE_SET_KEY[33];
    }
    assert t[CLUSTER_KEY] == cluster && t[MACHINE_SET_KEY] == name;
  }

  // ---------- CreateMachineSet and CreateMHC ----------

  /** MachineSetParams: passed by value, with its label map shared. */
  datatype Params = Params(name: string, labels: LabelMap?)

  ghost function Labelled(p: Params): set<object> {
    if p.labels == null then {} else {p.labels}
  }

  /** All label maps of the object are one map. */
  ghost predicate OneMap(ms: MachineSet, l: LabelMap) {
    ms.labels == l && ms.selector == l && ms.templateLabels == l && ms.specLabels == l
  }

  /**
    The object built before the server's reply, created telling whether the server then accepts it. The caller's map
    is the object's map, and it is stamped even when the creation fails.
   */
  method CreateMachineSet(p: Params, stamp: string, created: bool) returns (ms: MachineSet?, l: LabelMap)
    modifies Labelled(p)
    ensures ms == null <==> !created
    ensures ms != null ==> OneMap(ms, l) && ms.name == p.name
    ensures if p.labels == null then fresh(l) && l.m == map["e2e.openshift.io" := stamp]
            else l == p.labels && l.m == old(p.labels.m)["e2e.openshift.io" := stamp]
  {
    if p.labels == null {
      l := new LabelMap(map[]);
    } else {
      l := p.labels;
    }
    l.Set(STAMP_KEY, stamp);
    var built := new MachineSet(p.name, l, l, l, l);
    ms := if created then built else null;
  }

  /**
    The variables through which a label of the created object can be written: its own, the caller's and a health
    check's.
   */
  datatype Alias = ObjectLabels | SelectorLabels | TemplateLabels | SpecLabels | CallerLabels | HealthCheckSelector

  datatype Write = Write(through: Alias, k: string, v: string)

  function Written(m: Labels, writes: seq<Write>): Labels {
    if writes == [] then m
    else Written(m, writes[..|writes| - 1])[writes[|writes| - 1].k := writes[|writes| - 1].v]
  }

  lemma {:induction false} WrittenConcat(m: Labels, a: seq<Write>, b: seq<Write>)
    ensures Written(m, a + b) == Written(Written(m, a), b)
  {
    if b == [] {
      assert a + b == a;
    } else {
      assert (a + b)[..|a + b| - 1] == a + b[..|b| - 1];
      WrittenConcat(m, a, b[..|b| - 1]);
    }
  }

  /** A write to a nil map panics. */
  predicate Panics(p: Params, mhc: LabelMap?, w: Write) {
    (w.through.CallerLabels? && p.labels == null) || (w.through.HealthCheckSelector? && mhc == null)
  }

  /**
    Any writes through any of the aliases, done of them before one panics: all of them are seen through the object's
    selector and template alike.
   */
  method WriteAll(p: Params, ms: MachineSet, mhc: LabelMap?, l: LabelMap, writes: seq<Write>) returns (done: nat)
    requires OneMap(ms, l) && p.labels in {null, l} && mhc in {null, l}
    modifies l
    ensures done <= |writes| && (done < |writes| ==> Panics(p, mhc, writes[done]))
    ensures forall i :: 0 <= i < done ==> !Panics(p, mhc, writes[i])
    ensures l.m == Written(old(l.m), writes[..done])
  {
    done := 0;
    while done < |writes|
      invariant done <= |writes|
      invariant forall i :: 0 <= i < done ==> !Panics(p, mhc, writes[i])
      invariant l.m == Written(old(l.m), writes[..done])
    {
      var w := writes[done];
      if Panics(p, mhc, w) {
        return;
      }
      assert writes[..done + 1][..done] == writes[..done];
      match w.through {
        case ObjectLabels => ms.labels.Set(w.k, w.v);
        case SelectorLabels => ms.selector.Set(w.k, w.v);
        case TemplateLabels => ms.templateLabels.Set(w.k, w.v);
        case SpecLabels => ms.specLabels.Set(w.k, w.v);
        case CallerLabels => p.labels.Set(w.k, w.v);
        case HealthCheckSelector => mhc.Set(w.k, w.v);
      }
      done := done + 1;
    }
  }

  /** CreateMHC: the health check's selector is the map in its params. */
  method CreateMHC(p: Params) returns (selector: LabelMap?)
    ensures selector == p.labels
  {
    selector := p.labels;
  }

  /**
    A health check built from the params of a MachineSet, with label writes before and after. With a label map in
    the params it is the very map of the MachineSet's selector and template, so no write can part them; without one
    it selects everything.
   */
  method HealthCheckFor(p: Params, stamp: string, before: seq<Write>, after: seq<Write>)
    returns (ms: MachineSet, mhc: LabelMap?, panicked: bool)
    requires forall i :: 0 <= i < |before| ==> !before[i].through.HealthCheckSelector?
    modifies Labelled(p)
    ensures ms.selector == ms.templateLabels == ms.labels == ms.specLabels
    ensures "e2e.openshift.io" in ms.selector.m
    ensures p.labels != null ==> mhc == p.labels == ms.selector && !panicked
    ensures p.labels != null ==> ms.selector.m == Written(old(p.labels.m)["e2e.openshift.io" := stamp], before + after)
    ensures p.labels == null ==> mhc == null && fresh(ms.selector)
    ensures p.labels == null ==> Selects(Entries(mhc), map[]) && !Selects(ms.selector.m, map[])
  {
    var built, l := CreateMachineSet(p, stamp, true);
    ms, mhc := built, null;
    ghost var stamped := l.m;
    var done := WriteAll(p, ms, null, l, before);
    WrittenKeeps(stamped, before[..done], STAMP_KEY);
    panicked := done < |before|;
    if panicked {
      return;
    }
    assert before[..done] == before;
    mhc := CreateMHC(p);
    done := WriteAll(p, ms, mhc, l, after);
    WrittenKeeps(Written(stamped, before), after[..done], STAMP_KEY);
    panicked := done < |after|;
    if !panicked {
      assert after[..done] == after;
      WrittenConcat(stamped, before, after);
    }
  }

  lemma {:induction false} WrittenKeeps(m: Labels, writes: seq<Write>, k: string)
    requires k in m
    ensures k in Written(m, writes)
  {
    if writes != [] {
      WrittenKeeps(m, writes[..|writes| - 1], k);
    }
  }

  /**
    With separate maps, as NewMachineSet makes them, a template write can part the two: exactly when it changes a
    selected key.
   */
  lemma TemplateWriteKeepsSelection(selector: Labels, template: Labels, k: string, v: string)
    requires Selects(selector, template)
    ensures Selects(selector, template[k := v]) <==> (k in selector ==> selector[k] == v)
  {
  }
}
