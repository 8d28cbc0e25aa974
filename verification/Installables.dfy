/**
 The installables (`controllers/installable`): YAML manifests, Helm charts, conditional
 installables and CF orgs, each as a function of the world, as a method that drives the cluster
 step by step, and with what their `Success` means.
 */
module Installables {
  import opened Prelude
  import opened Types
  import opened Cluster
  import H = Helm

  datatype ResultState = Success | InProgress | Failed

  datatype Report = Report(state: ResultState, message: string)

  /** A result, or the error return. */
  datatype Answer = Done(result: Report) | Errored(message: string) {
    predicate Succeeded() {
      Done? && result.state.Success?
    }
  }

  datatype Doc = Doc(key: Key, body: string)

  datatype DocFault = Fine | ReadFails(message: string) | WriteFails(message: string)

  /** Everything outside the model that one call of one installable can run into. */
  datatype Faults = Faults(
    load: Option<string>,
    docs: nat -> DocFault,
    values: Option<string>,
    helm: H.HelmFaults,
    deleteOrgs: Option<string>,
    listOrgs: Option<string>)

  datatype Installable =
    | Yaml(docs: seq<Doc>)
    | HelmChart(name: string, version: string, values: Config -> Values)
    | Conditional(enabled: Config -> bool, delegate: Installable)
    | Orgs

  /** Orgs.Install panics: orgs must stay out of the install order. */
  predicate CanInstall(inst: Installable) {
    match inst
    case Orgs => false
    case Conditional(_, d) => CanInstall(d)
    case _ => true
  }

  // ----- YAML manifests -----

  function ApplyDoc(objs: Objects, d: Doc, fault: DocFault): Result<Objects> {
    if fault.ReadFails? || fault.WriteFails? then Err(fault.message)
    else if d.key in objs then Ok(Updated(objs, d.key, d.body))
    else Ok(Created(objs, d.key, d.body))
  }

  /** Documents from `i` on, in order, up to the first failure. */
  function ApplyDocs(objs: Objects, docs: seq<Doc>, faults: nat -> DocFault, i: nat): (Objects, Option<string>)
    requires i <= |docs|
    decreases |docs| - i
  {
    if i == |docs| then (objs, None) else
    match ApplyDoc(objs, docs[i], faults(i))
    case Err(m) => (objs, Some(m))
    case Ok(next) => ApplyDocs(next, docs, faults, i + 1)
  }

  /** The flag stays true while every document so far was found to be gone already. */
  function DeleteDocs(objs: Objects, docs: seq<Doc>, faults: nat -> DocFault, i: nat, allGone: bool): (Objects, Result<bool>)
    requires i <= |docs|
    decreases |docs| - i
  {
    if i == |docs| then (objs, Ok(allGone))
    else if faults(i) != Fine then (objs, Err(faults(i).message))
    else if docs[i].key in objs then DeleteDocs(Deleted(objs, docs[i].key), docs, faults, i + 1, false)
    else DeleteDocs(objs, docs, faults, i + 1, allGone)
  }

  function YamlInstall(docs: seq<Doc>, w: World, f: Faults): (World, Answer) {
    if f.load.Some? then (w, Done(Report(Failed, f.load.value))) else
    var (objs, error) := ApplyDocs(w.objects, docs, f.docs, 0);
    (w.(objects := objs), if error.Some? then Errored(error.value) else Done(Report(Success, "")))
  }

  function YamlUninstall(docs: seq<Doc>, w: World, f: Faults): (World, Answer) {
    if f.load.Some? then (w, Done(Report(Failed, f.load.value))) else
    var (objs, r) := DeleteDocs(w.objects, docs, f.docs, 0, true);
    (w.(objects := objs),
     match r
     case Err(m) => Errored(m)
     case Ok(true) => Done(Report(Success, ""))
     case Ok(false) => Done(Report(InProgress, "")))
  }

  // ----- Helm charts -----

  function HelmInstall(name: string, version: string, values: Values, w: World, f: Faults): (World, Answer) {
    if f.values.Some? then (w, Done(Report(InProgress, f.values.value))) else
    var (rs, r) := H.Apply(w.releases, name, version, values, f.helm);
    (w.(releases := rs),
     match r
     case Err(m) => Done(Report(Failed, m))
     case Ok(h) =>
       if h.status == Some(Deployed) then Done(Report(Success, ""))
       else if h.status == Some(FailedStatus) then Done(Report(Failed, h.message))
       else Done(Report(InProgress, h.message)))
  }

  function HelmUninstall(name: string, w: World, f: Faults): (World, Answer) {
    var (rs, r) := H.Uninstall(w.releases, name, f.helm);
    (w.(releases := rs),
     match r
     case Err(m) => Done(Report(Failed, m))
     case Ok(h) => if h == H.ZERO_RESULT then Done(Report(Success, "")) else Done(Report(InProgress, h.message)))
  }

  // ----- CF orgs -----

  function OrgsUninstall(namespace: string, w: World, f: Faults): (World, Answer) {
    if f.deleteOrgs.Some? then (w, Errored(f.deleteOrgs.value)) else
    var w' := if w.orgs.None? then w else w.(orgs := Some(WithoutOrgsOf(w.orgs.value, namespace)));
    (w',
     if f.listOrgs.Some? then Errored(f.listOrgs.value)
     else if |OrgMap(w')| > 0 then Done(Report(InProgress, ""))
     else Done(Report(Success, "")))
  }

  // ----- any installable -----

  function Uninstall(inst: Installable, config: Config, w: World, f: Faults): (World, Answer) {
    match inst
    case Yaml(docs) => YamlUninstall(docs, w, f)
    case HelmChart(name, _, _) => HelmUninstall(name, w, f)
    case Conditional(_, d) => Uninstall(d, config, w, f)
    case Orgs => OrgsUninstall(config.rootNamespace, w, f)
  }

  function Install(inst: Installable, config: Config, w: World, f: Faults): (World, Answer)
    requires CanInstall(inst)
  {
    match inst
    case Yaml(docs) => YamlInstall(docs, w, f)
    case HelmChart(name, version, values) => HelmInstall(name, version, values(config), w, f)
    case Conditional(p, d) => if p(config) then Install(d, config, w, f) else Uninstall(d, config, w, f)
  }

  // ----- the methods -----

  method CreateOrUpdate(c: Cluster, d: Doc, fault: DocFault) returns (error: Option<string>)
    modifies c`objects
    ensures var r := ApplyDoc(old(c.objects), d, fault);
            && error == (if r.Err? then Some(r.message) else None)
            && c.objects == (if r.Ok? then r.value else old(c.objects))
  {
    if fault.ReadFails? {
      return Some(fault.message);
    }
    var version := c.Get(d.key);
    if fault.WriteFails? {
      return Some(fault.message);
    }
    var ok;
    if version.None? {
      ok := c.Create(d.key, d.body);
    } else {
      ok := c.Update(d.key, d.body, version.value);
    }
    assert ok;
    return None;
  }

  method InstallYaml(c: Cluster, docs: seq<Doc>, f: Faults) returns (a: Answer)
    modifies c
    ensures (c.View(), a) == YamlInstall(docs, old(c.View()), f)
  {
    if f.load.Some? {
      return Done(Report(Failed, f.load.value));
    }
    for i := 0 to |docs|
      invariant ApplyDocs(c.objects, docs, f.docs, i) == ApplyDocs(old(c.objects), docs, f.docs, 0)
      invariant c.releases == old(c.releases) && c.orgs == old(c.orgs)
    {
      var error := CreateOrUpdate(c, docs[i], f.docs(i));
      if error.Some? {
        return Errored(error.value);
      }
    }
    a := Done(Report(Success, ""));
  }

  method UninstallYaml(c: Cluster, docs: seq<Doc>, f: Faults) returns (a: Answer)
    modifies c
    ensures (c.View(), a) == YamlUninstall(docs, old(c.View()), f)
  {
    if f.load.Some? {
      return Done(Report(Failed, f.load.value));
    }
    var allDeleted := true;
    for i := 0 to |docs|
      invariant DeleteDocs(c.objects, docs, f.docs, i, allDeleted) == DeleteDocs(old(c.objects), docs, f.docs, 0, true)
      invariant c.releases == old(c.releases) && c.orgs == old(c.orgs)
    {
      if f.docs(i) != Fine {
        return Errored(f.docs(i).message);
      }
      var found := c.Delete(docs[i].key);
      var isGone := !found;
      allDeleted := allDeleted && isGone;
    }
    a := Done(Report(if allDeleted then Success else InProgress, ""));
  }

  method InstallChart(c: Cluster, name: string, version: string, values: Values, f: Faults) returns (a: Answer)
    modifies c
    ensures (c.View(), a) == HelmInstall(name, version, values, old(c.View()), f)
  {
    if f.values.Some? {
      return Done(Report(InProgress, f.values.value));
    }
    var r := H.ApplyChart(c, name, version, values, f.helm);
    match r
    case Err(m) => a := Done(Report(Failed, m));
    case Ok(h) =>
      match h.status
      case Some(Deployed) => a := Done(Report(Success, ""));
      case Some(FailedStatus) => a := Done(Report(Failed, h.message));
      case _ => a := Done(Report(InProgress, h.message));
  }

  method UninstallChart(c: Cluster, name: string, f: Faults) returns (a: Answer)
    modifies c
    ensures (c.View(), a) == HelmUninstall(name, old(c.View()), f)
  {
    var r := H.UninstallRelease(c, name, f.helm);
    match r
    case Err(m) => a := Done(Report(Failed, m));
    case Ok(h) =>
      if h == H.ZERO_RESULT {
        a := Done(Report(Success, ""));
      } else {
        a := Done(Report(InProgress, h.message));
      }
  }

  method UninstallOrgs(c: Cluster, namespace: string, f: Faults) returns (a: Answer)
    modifies c
    ensures (c.View(), a) == OrgsUninstall(namespace, old(c.View()), f)
  {
    if f.deleteOrgs.Some? {
      return Errored(f.deleteOrgs.value);
    }
    c.DeleteAllOrgs(namespace);
    if f.listOrgs.Some? {
      return Errored(f.listOrgs.value);
    }
    var orgsCount := if c.orgs.None? then 0 else |c.orgs.value|;
    if orgsCount > 0 {
      return Done(Report(InProgress, ""));
    }
    a := Done(Report(Success, ""));
  }

  method RunUninstall(c: Cluster, inst: Installable, config: Config, f: Faults) returns (a: Answer)
    modifies c
    ensures (c.View(), a) == Uninstall(inst, config, old(c.View()), f)
    decreases inst
  {
    match inst
    case Yaml(docs) => a := UninstallYaml(c, docs, f);
    case HelmChart(name, _, _) => a := UninstallChart(c, name, f);
    case Conditional(_, d) => a := RunUninstall(c, d, config, f);
    case Orgs => a := UninstallOrgs(c, config.rootNamespace, f);
  }

  method RunInstall(c: Cluster, inst: Installable, config: Config, f: Faults) returns (a: Answer)
    requires CanInstall(inst)
    modifies c
    ensures (c.View(), a) == Install(inst, config, old(c.View()), f)
    decreases inst
  {
    match inst
    case Yaml(docs) => a := InstallYaml(c, docs, f);
    case HelmChart(name, version, values) => a := InstallChart(c, name, version, values(config), f);
    case Conditional(p, d) =>
      if p(config) {
        a := RunInstall(c, d, config, f);
      } else {
        a := RunUninstall(c, d, config, f);
      }
  }
}
