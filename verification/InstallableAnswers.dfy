/**
 What each kind of installable answers and leaves behind, under every fault: the decisions of the Helm
 client and of the installables, read off their inputs.
 */
module InstallableAnswers {
  import opened Prelude
  import opened Types
  import opened Cluster
  import opened Installables
  import opened InstallableFacts
  import H = Helm

  // ----- values that look alike as YAML -----

  function Fields(v: Val): Option<Values> {
    match v
    case AnyMap(m) => Some(m)
    case StrMap(m) => Some(map k | k in m :: Atom(m[k]))
    case _ => None
  }

  function Items(v: Val): Option<seq<Val>> {
    match v
    case AnyList(xs) => Some(xs)
    case StrList(xs) => Some(seq(|xs|, i requires 0 <= i < |xs| => Atom(xs[i])))
    case _ => None
  }

  /** The same text, or the same members, or the same items in the same order, whatever the Go element types. */
  predicate Alike(a: Val, b: Val) {
    match a
    case Atom(t) => b == Atom(t)
    case AnyMap(m) =>
      Fields(b).Some? && Fields(b).value.Keys == m.Keys && forall k :: k in m ==> Alike(m[k], Fields(b).value[k])
    case StrMap(m) =>
      Fields(b).Some? && Fields(b).value.Keys == m.Keys && forall k :: k in m ==> Fields(b).value[k] == Atom(m[k])
    case AnyList(xs) =>
      Items(b).Some? && |Items(b).value| == |xs| && forall i :: 0 <= i < |xs| ==> Alike(xs[i], Items(b).value[i])
    case StrList(xs) =>
      Items(b).Some? && |Items(b).value| == |xs| && forall i :: 0 <= i < |xs| ==> Items(b).value[i] == Atom(xs[i])
  }

  predicate AlikeValues(a: Values, b: Values) {
    a.Keys == b.Keys && forall k :: k in a ==> Alike(a[k], b[k])
  }

  lemma CanonOfMap(v: Val)
    requires Fields(v).Some?
    ensures var m := Fields(v).value;
            && H.Canon(v).AnyMap? && H.Canon(v).members.Keys == m.Keys
            && forall k :: k in m ==> H.Canon(v).members[k] == H.Canon(m[k])
  {
  }

  lemma CanonOfList(v: Val)
    requires Items(v).Some?
    ensures var xs := Items(v).value;
            && H.Canon(v).AnyList? && |H.Canon(v).items| == |xs|
            && forall i :: 0 <= i < |xs| ==> H.Canon(v).items[i] == H.Canon(xs[i])
  {
  }

  lemma CanonOfAtom(v: Val, t: string)
    ensures H.Canon(v) == Atom(t) <==> v == Atom(t)
  {
  }

  /** Two values have the same YAML exactly if they look alike. */
  lemma {:induction false} AlikeIff(a: Val, b: Val)
    ensures H.Canon(a) == H.Canon(b) <==> Alike(a, b)
    decreases a, 1
  {
    if Fields(a).Some? {
      CanonOfMap(a);
      if Fields(b).Some? { CanonOfMap(b); AlikeMaps(a, b); }
    } else if Items(a).Some? {
      CanonOfList(a);
      if Items(b).Some? { CanonOfList(b); AlikeLists(a, b); }
    } else {
      CanonOfAtom(b, a.text);
    }
  }

  lemma {:induction false} AlikeMaps(a: Val, b: Val)
    requires Fields(a).Some? && Fields(b).Some?
    ensures H.Canon(a) == H.Canon(b) <==> Alike(a, b)
    decreases a, 0
  {
    var m, n := Fields(a).value, Fields(b).value;
    CanonOfMap(a);
    CanonOfMap(b);
    forall k | k in m && k in n ensures H.Canon(m[k]) == H.Canon(n[k]) <==> if a.AnyMap? then Alike(m[k], n[k]) else n[k] == m[k] {
      if a.AnyMap? { AlikeIff(a.members[k], n[k]); } else { CanonOfAtom(n[k], a.strings[k]); }
    }
    if Alike(a, b) {
      assert H.Canon(a).members == H.Canon(b).members;
    } else if m.Keys == n.Keys {
      assert H.Canon(a).members != H.Canon(b).members;
    }
  }

  lemma {:induction false} AlikeLists(a: Val, b: Val)
    requires Items(a).Some? && Items(b).Some?
    ensures H.Canon(a) == H.Canon(b) <==> Alike(a, b)
    decreases a, 0
  {
    var xs, ys := Items(a).value, Items(b).value;
    CanonOfList(a);
    CanonOfList(b);
    forall i | 0 <= i < |xs| && i < |ys|
      ensures H.Canon(xs[i]) == H.Canon(ys[i]) <==> if a.AnyList? then Alike(xs[i], ys[i]) else ys[i] == xs[i]
    {
      if a.AnyList? { AlikeIff(a.items[i], ys[i]); } else { CanonOfAtom(ys[i], a.texts[i]); }
    }
    if Alike(a, b) {
      assert H.Canon(a).items == H.Canon(b).items;
    } else if |xs| == |ys| {
      assert H.Canon(a).items != H.Canon(b).items;
    }
  }

  /** So the comparison of the Helm client forgets the Go element types and nothing else. */
  lemma EqualValuesIff(a: Values, b: Values)
    ensures H.EqualValues(a, b) <==> AlikeValues(a, b)
  {
    forall k | k in a && k in b { AlikeIff(a[k], b[k]); }
    var ca, cb := H.CanonValues(a), H.CanonValues(b);
    assert ca.Keys == a.Keys && cb.Keys == b.Keys;
    if AlikeValues(a, b) {
      assert ca == cb;
    } else if a.Keys == b.Keys {
      var k :| k in a && !Alike(a[k], b[k]);
      assert ca[k] != cb[k];
    }
  }

  // ----- what stands in the way of a chart -----

  predicate Seen(rs: Releases, name: string) {
    name in rs && rs[name].status in H.SHOWN
  }

  predicate Busy(rs: Releases, name: string) {
    Seen(rs, name) && rs[name].status in {PendingInstall, PendingUpgrade, PendingRollback}
  }

  /** The release that is seen is the one asked for and has not failed. */
  predicate Current(rs: Releases, name: string, version: string, values: Values) {
    Seen(rs, name) && rs[name].version == version && AlikeValues(rs[name].values, values) && rs[name].status != FailedStatus
  }

  /** An install or an upgrade is called for. */
  predicate ToDo(rs: Releases, name: string, version: string, values: Values) {
    !Busy(rs, name) && !Current(rs, name, version, values)
  }

  function ApplyObstacles(rs: Releases, name: string, version: string, values: Values, f: H.HelmFaults): seq<Option<string>> {
    [ f.load,
      f.lookup,
      Only(Seen(rs, name) && !Busy(rs, name), f.compare),
      Only(ToDo(rs, name, version, values), f.config) ]
  }

  /** The next revision is recorded; an upgrade that is given no values keeps the current ones. */
  predicate Records(rs: Releases, rs': Releases, name: string, status: ReleaseStatus, version: string, values: Values,
                    current: Values) {
    rs' == rs[name := Release(if name in rs then rs[name].revision + 1 else 1, status, version,
                              if name in rs && values == map[] then current else values)]
  }

  /** How an action that runs ends. */
  predicate Acts(rs: Releases, rs': Releases, name: string, version: string, values: Values, f: H.HelmFaults) {
    match f.action
    case Ran(s) => Records(rs, rs', name, s, version, values, f.current)
    case Broke(_, None) => rs' == rs
    case Broke(_, Some(s)) => Records(rs, rs', name, s, version, values, f.current)
  }

  // ----- charts -----

  /** A chart whose values cannot be had is in progress; one that cannot be loaded, looked up, compared or
      configured has failed; and neither touches a release. Otherwise a release that is busy is left alone, one
      that is current is reported, and anything else is installed or upgraded; deployed is a success, failed a
      failure, and every other status in progress. */
  lemma ChartInstallAnswers(name: string, version: string, values: Values, w: World, f: Faults)
    ensures var (w', a) := HelmInstall(name, version, values, w, f);
            var rs, error := w.releases, First(ApplyObstacles(w.releases, name, version, values, f.helm));
            && w' == w.(releases := w'.releases)
            && (f.values.Some? ==> w' == w && a == Done(Report(InProgress, f.values.value)))
            && (f.values.None? && error.Some? ==> w' == w && a == Done(Report(Failed, error.value)))
            && (f.values.None? && error.None? ==>
                  && (Busy(rs, name) ==> w' == w && a == Done(Report(InProgress, "operation pending")))
                  && (Current(rs, name, version, values) && !Busy(rs, name) ==>
                        w' == w && a == Done(Report(if rs[name].status == Deployed then Success else InProgress, "")))
                  && (ToDo(rs, name, version, values) && name in rs && !Seen(rs, name) ==>
                        w' == w && a == Done(Report(InProgress, "cannot re-use a name that is still in use")))
                  && (ToDo(rs, name, version, values) && (name in rs ==> Seen(rs, name)) ==>
                        && Acts(rs, w'.releases, name, version, values, f.helm)
                        && a == Done(match f.helm.action
                                     case Ran(Deployed) => Report(Success, "")
                                     case Ran(FailedStatus) => Report(Failed, "")
                                     case Ran(_) => Report(InProgress, "")
                                     case Broke(m, _) => Report(InProgress, m))))
  {
    var rs, g := w.releases, f.helm;
    if name in rs { EqualValuesIff(rs[name].values, values); }
    FourErrors(g.load, g.lookup, Only(Seen(rs, name) && !Busy(rs, name), g.compare), Only(ToDo(rs, name, version, values), g.config));
  }

  predicate Leaving(rs: Releases, name: string) {
    Seen(rs, name) && rs[name].status == Uninstalling
  }

  function RemovalObstacles(rs: Releases, name: string, f: H.HelmFaults): seq<Option<string>> {
    [ f.lookup, Only(Seen(rs, name) && !Leaving(rs, name), f.config) ]
  }

  /** A release that cannot be looked up or configured has failed to go; one that is not seen is gone; one that is
      already leaving is waited for; any other is removed, and is gone only if Helm found nothing to remove. */
  lemma ChartUninstallAnswers(name: string, w: World, f: Faults)
    ensures var (w', a) := HelmUninstall(name, w, f);
            var rs, error := w.releases, First(RemovalObstacles(w.releases, name, f.helm));
            && w' == w.(releases := w'.releases)
            && (error.Some? ==> w' == w && a == Done(Report(Failed, error.value)))
            && (error.None? ==>
                  && (!Seen(rs, name) ==> w' == w && a == Done(Report(Success, "")))
                  && (Leaving(rs, name) ==> w' == w && a == Done(Report(InProgress, "operation pending")))
                  && (Seen(rs, name) && !Leaving(rs, name) ==>
                        match f.helm.removal
                        case Removed(info) => w'.releases == rs - {name} && a == Done(Report(InProgress, info))
                        case NothingFound => w'.releases == rs - {name} && a == Done(Report(Success, ""))
                        case BrokeOff(m, None) => w' == w && a == Done(Report(InProgress, m))
                        case BrokeOff(m, Some(s)) =>
                          w'.releases == rs[name := rs[name].(status := s)] && a == Done(Report(InProgress, m))))
  {
    TwoErrors(f.helm.lookup, Only(Seen(w.releases, name) && !Leaving(w.releases, name), f.helm.config));
  }

  // ----- manifests -----

  /** A manifest that cannot be read has failed, and nothing is touched; a document that cannot be processed makes
      the call return its error; otherwise installing succeeds, and uninstalling does exactly if no object was
      left. */
  lemma YamlAnswers(docs: seq<Doc>, w: World, f: Faults)
    ensures var (w', a) := YamlInstall(docs, w, f);
            && (f.load.Some? ==> w' == w && a == Done(Report(Failed, f.load.value)))
            && (f.load.None? ==>
                  var n := FirstFault(docs, f.docs, 0);
                  a == if n < |docs| then Errored(f.docs(n).message) else Done(Report(Success, "")))
    ensures var (w', a) := YamlUninstall(docs, w, f);
            && (f.load.Some? ==> w' == w && a == Done(Report(Failed, f.load.value)))
            && (f.load.None? ==>
                  var n := FirstFault(docs, f.docs, 0);
                  a == if n < |docs| then Errored(f.docs(n).message)
                       else Done(Report(if KeysOf(docs) !! w.objects.Keys then Success else InProgress, "")))
  {
    if f.load.None? {
      YamlUninstallPurges(docs, w, f);
      InstallError(w.objects, docs, f.docs, 0);
      DeleteError(w.objects, docs, f.docs, 0, true);
      assert f.load.None? ==> YamlInstall(docs, w, f).1.Errored? <==> FirstFault(docs, f.docs, 0) < |docs|;
    }
  }

  lemma {:induction false} InstallError(objs: Objects, docs: seq<Doc>, faults: nat -> DocFault, i: nat)
    requires i <= |docs|
    ensures var n := FirstFault(docs, faults, i);
            ApplyDocs(objs, docs, faults, i).1 == if n < |docs| then Some(faults(n).message) else None
    decreases |docs| - i
  {
    if i < |docs| && faults(i) == Fine {
      InstallError(ApplyDoc(objs, docs[i], faults(i)).value, docs, faults, i + 1);
    }
  }

  lemma {:induction false} DeleteError(objs: Objects, docs: seq<Doc>, faults: nat -> DocFault, i: nat, allGone: bool)
    requires i <= |docs|
    ensures var n := FirstFault(docs, faults, i);
            ErrorOf(DeleteDocs(objs, docs, faults, i, allGone).1) == if n < |docs| then Some(faults(n).message) else None
    decreases |docs| - i
  {
    if i < |docs| && faults(i) == Fine {
      if docs[i].key in objs {
        DeleteError(Deleted(objs, docs[i].key), docs, faults, i + 1, false);
      } else {
        DeleteError(objs, docs, faults, i + 1, allGone);
      }
    }
  }

  // ----- orgs -----

  /** Of the orgs exactly the root namespace's are deleted, up to those that something holds; what is left anywhere,
      or cannot be listed, keeps the call from succeeding. */
  lemma OrgsAnswers(namespace: string, w: World, f: Faults)
    ensures var (w', a) := OrgsUninstall(namespace, w, f);
            && w' == w.(orgs := w'.orgs)
            && (f.deleteOrgs.Some? ==> w' == w && a == Errored(f.deleteOrgs.value))
            && (f.deleteOrgs.None? ==>
                  && (w'.orgs.None? <==> w.orgs.None?)
                  && (forall id :: id in OrgMap(w') <==>
                        id in OrgMap(w) && (OrgMap(w)[id].held || OrgMap(w)[id].namespace != namespace))
                  && (forall id :: id in OrgMap(w') ==> OrgMap(w')[id] == OrgMap(w)[id])
                  && a == if f.listOrgs.Some? then Errored(f.listOrgs.value)
                          else Done(Report(if OrgMap(w') == map[] then Success else InProgress, "")))
  {
    var w' := OrgsUninstall(namespace, w, f).0;
    if OrgMap(w') != map[] {
      var id :| id in OrgMap(w');
      assert id in OrgMap(w').Keys && |OrgMap(w').Keys| > 0;
    }
  }

  // ----- charts behind conditions -----

  /** A chart that the configuration does not rule out. */
  predicate EnabledChart(inst: Installable, config: Config) {
    match inst
    case HelmChart(_, _, _) => true
    case Conditional(enabled, d) => enabled(config) && EnabledChart(d, config)
    case _ => false
  }

  function ChartOf(inst: Installable, config: Config): (chart: Installable)
    requires EnabledChart(inst, config)
    ensures chart.HelmChart?
  {
    if inst.Conditional? then ChartOf(inst.delegate, config) else inst
  }

  lemma {:induction false} EnabledChartAnswers(inst: Installable, config: Config, w: World, f: Faults)
    requires CanInstall(inst) && EnabledChart(inst, config)
    ensures var HelmChart(name, version, values) := ChartOf(inst, config);
            Install(inst, config, w, f) == HelmInstall(name, version, values(config), w, f)
  {
    if inst.Conditional? { EnabledChartAnswers(inst.delegate, config, w, f); }
  }

  predicate ApplyFails(inst: Installable, config: Config, w: World, f: Faults)
    requires EnabledChart(inst, config)
  {
    var HelmChart(name, version, values) := ChartOf(inst, config);
    f.values.None? && First(ApplyObstacles(w.releases, name, version, values(config), f.helm)).Some?
  }

  /** Values that cannot be had are waited for, an Apply that fails is final, with or without a condition before. */
  lemma ChartFaults(inst: Installable, config: Config, w: World, f: Faults)
    requires CanInstall(inst) && EnabledChart(inst, config)
    ensures f.values.Some? ==> Install(inst, config, w, f) == (w, Done(Report(InProgress, f.values.value)))
    ensures ApplyFails(inst, config, w, f) ==> Install(inst, config, w, f).0 == w
    ensures ApplyFails(inst, config, w, f) ==>
              Install(inst, config, w, f).1.Done? && Install(inst, config, w, f).1.result.state.Failed?
  {
    var HelmChart(name, version, values) := ChartOf(inst, config);
    EnabledChartAnswers(inst, config, w, f);
    ChartInstallAnswers(name, version, values(config), w, f);
  }
}
