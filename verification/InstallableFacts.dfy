/** What the answers of the installables mean for the world, for every world and every fault. */
module InstallableFacts {
  import opened Prelude
  import opened Types
  import opened Cluster
  import opened Installables
  import H = Helm

  // ----- reference definitions -----

  function KeysOf(docs: seq<Doc>): set<Key> {
    set d | d in docs :: d.key
  }

  /** The body of the last document for a key. */
  function LastBody(docs: seq<Doc>, k: Key): string
    requires k in KeysOf(docs)
  {
    var last := docs[|docs| - 1];
    if last.key == k then last.body
    else
      assert k in KeysOf(docs[..|docs| - 1]) by { var d :| d in docs && d.key == k; assert d in docs[..|docs| - 1]; }
      LastBody(docs[..|docs| - 1], k)
  }

  function Manifest(docs: seq<Doc>): map<Key, string> {
    map k | k in KeysOf(docs) :: LastBody(docs, k)
  }

  function Bodies(objs: Objects): map<Key, string> {
    map k | k in objs :: objs[k].body
  }

  /** The index of the first document whose processing fails. */
  function FirstFault(docs: seq<Doc>, faults: nat -> DocFault, i: nat): (n: nat)
    requires i <= |docs|
    ensures i <= n <= |docs|
    ensures forall j :: i <= j < n ==> faults(j) == Fine
    ensures n < |docs| ==> faults(n) != Fine
    decreases |docs| - i
  {
    if i == |docs| || faults(i) != Fine then i else FirstFault(docs, faults, i + 1)
  }

  /** Everything under `keys` is deleted, or at least marked where something holds it back. */
  function Purged(objs: Objects, keys: set<Key>): Objects {
    map k | k in objs && !(k in keys && !objs[k].held) :: if k in keys then objs[k].(terminating := true) else objs[k]
  }

  function ObjectKeys(inst: Installable): set<Key> {
    match inst
    case Yaml(docs) => KeysOf(docs)
    case Conditional(_, d) => ObjectKeys(d)
    case _ => {}
  }

  function ReleaseNames(inst: Installable): set<string> {
    match inst
    case HelmChart(name, _, _) => {name}
    case Conditional(_, d) => ReleaseNames(d)
    case _ => {}
  }

  predicate Disjoint(a: Installable, b: Installable) {
    ObjectKeys(a) !! ObjectKeys(b) && ReleaseNames(a) !! ReleaseNames(b)
  }

  predicate HandlesOrgs(inst: Installable) {
    match inst
    case Orgs => true
    case Conditional(_, d) => HandlesOrgs(d)
    case _ => false
  }

  predicate NoOrgs(w: World) {
    |OrgMap(w)| == 0
  }

  /** Nothing of the component is left, as far as the Helm lookup shows. */
  predicate Absent(inst: Installable, w: World) {
    && ObjectKeys(inst) !! w.objects.Keys
    && ReleaseNames(inst) !! H.ShownNames(w.releases)
    && (HandlesOrgs(inst) ==> NoOrgs(w))
  }

  /** Nothing of the component is left. */
  predicate Traceless(inst: Installable, w: World) {
    && ObjectKeys(inst) !! w.objects.Keys
    && ReleaseNames(inst) !! w.releases.Keys
    && (HandlesOrgs(inst) ==> NoOrgs(w))
  }

  /** The component has a release that the Helm lookup does not show. */
  predicate Hides(inst: Installable, w: World) {
    exists n :: n in ReleaseNames(inst) && H.Hidden(w.releases, n)
  }

  /** The component is there exactly as the configuration asks for. */
  ghost predicate InPlace(inst: Installable, config: Config, w: World) {
    match inst
    case Yaml(docs) =>
      forall k :: k in KeysOf(docs) ==> k in w.objects && w.objects[k].body == LastBody(docs, k)
    case HelmChart(name, version, values) =>
      && name in w.releases
      && w.releases[name].status.Deployed?
      && w.releases[name].version == version
      && H.AsAsked(w.releases[name].values, values(config))
    case Conditional(enabled, d) => if enabled(config) then InPlace(d, config, w) else Absent(d, w)
    case Orgs => NoOrgs(w)
  }

  /** Nothing was created: what is there now was there before. */
  ghost predicate Shrunk(w: World, w': World) {
    && w'.objects.Keys <= w.objects.Keys
    && w'.releases.Keys <= w.releases.Keys
    && H.ShownNames(w'.releases) <= H.ShownNames(w.releases)
    && OrgMap(w').Keys <= OrgMap(w).Keys
  }

  // ----- YAML manifests -----

  lemma ManifestStep(docs: seq<Doc>, i: nat)
    requires i < |docs|
    ensures Manifest(docs[..i + 1]) == Manifest(docs[..i])[docs[i].key := docs[i].body]
  {
    var longer := docs[..i + 1];
    assert longer[..i] == docs[..i];
    assert longer == docs[..i] + [docs[i]];
    forall k ensures k in KeysOf(longer) <==> k in KeysOf(docs[..i]) || k == docs[i].key {
      assert forall d :: d in longer <==> d in docs[..i] || d == docs[i];
      if k in KeysOf(longer) { var d :| d in longer && d.key == k; }
      if k in KeysOf(docs[..i]) { var d :| d in docs[..i] && d.key == k; assert d in longer; }
      if k == docs[i].key { assert docs[i] in longer; }
    }
  }

  /** `objs` is `start` with the bodies `over` laid over it. */
  ghost predicate Overlaid(start: Objects, objs: Objects, over: map<Key, string>) {
    && Bodies(objs) == Bodies(start) + over
    && (forall k :: k in start && k !in over ==> k in objs && objs[k] == start[k])
  }

  lemma ApplyDocStep(objs: Objects, d: Doc, fault: DocFault)
    requires fault == Fine
    ensures ApplyDoc(objs, d, fault).Ok?
    ensures var next := ApplyDoc(objs, d, fault).value;
            && Bodies(next) == Bodies(objs)[d.key := d.body]
            && (forall k :: k != d.key && k in objs ==> k in next && next[k] == objs[k])
  {
  }

  lemma PlusThenUpdate<K, V>(m: map<K, V>, over: map<K, V>, k: K, v: V)
    ensures m + over[k := v] == (m + over)[k := v]
  {
  }

  lemma OverlaidStep(start: Objects, objs: Objects, over: map<Key, string>, d: Doc, next: Objects)
    requires Overlaid(start, objs, over)
    requires Bodies(next) == Bodies(objs)[d.key := d.body]
    requires forall k :: k != d.key && k in objs ==> k in next && next[k] == objs[k]
    ensures Overlaid(start, next, over[d.key := d.body])
  {
    PlusThenUpdate(Bodies(start), over, d.key, d.body);
    forall k | k in start && k !in over[d.key := d.body] ensures k in next && next[k] == start[k] {
      assert k in objs && objs[k] == start[k];
    }
  }

  lemma {:induction false} ApplyDocsFrom(start: Objects, objs: Objects, docs: seq<Doc>, faults: nat -> DocFault, i: nat)
    requires i <= |docs| && Overlaid(start, objs, Manifest(docs[..i]))
    ensures var (objs', error) := ApplyDocs(objs, docs, faults, i);
            var n := FirstFault(docs, faults, i);
            Overlaid(start, objs', Manifest(docs[..n])) && (error.None? <==> n == |docs|)
    decreases |docs| - i
  {
    if i < |docs| && faults(i) == Fine {
      ApplyDocStep(objs, docs[i], faults(i));
      ManifestStep(docs, i);
      OverlaidStep(start, objs, Manifest(docs[..i]), docs[i], ApplyDoc(objs, docs[i], faults(i)).value);
      ApplyDocsFrom(start, ApplyDoc(objs, docs[i], faults(i)).value, docs, faults, i + 1);
    }
  }

  lemma NothingOverlaid(objs: Objects, docs: seq<Doc>)
    requires docs == []
    ensures Overlaid(objs, objs, Manifest(docs))
  {
    assert Manifest(docs) == map[];
  }

  /** Install puts the last document for each key in place, leaves every other object alone, and
      on an error has applied exactly the documents before the failing one. */
  lemma YamlInstallApplies(docs: seq<Doc>, w: World, f: Faults)
    requires f.load.None?
    ensures var (w', a) := YamlInstall(docs, w, f);
            var n := FirstFault(docs, f.docs, 0);
            && Overlaid(w.objects, w'.objects, Manifest(docs[..n]))
            && w' == w.(objects := w'.objects)
            && (a.Succeeded() <==> n == |docs|)
            && (a.Errored? <==> n < |docs|)
  {
    NothingOverlaid(w.objects, docs[..0]);
    ApplyDocsFrom(w.objects, w.objects, docs, f.docs, 0);
    var (objs, error) := ApplyDocs(w.objects, docs, f.docs, 0);
    assert YamlInstall(docs, w, f).0.objects == objs;
  }

  lemma PurgedStep(objs: Objects, keys: set<Key>, k: Key)
    ensures Purged(objs, keys + {k}) ==
            (var p := Purged(objs, keys); if k in p then Deleted(p, k) else p)
  {
  }

  lemma {:induction false} DeleteDocsFrom(start: Objects, docs: seq<Doc>, faults: nat -> DocFault, i: nat, allGone: bool)
    requires i <= |docs|
    requires allGone <==> KeysOf(docs[..i]) !! start.Keys
    ensures var n := FirstFault(docs, faults, i);
            var (objs', r) := DeleteDocs(Purged(start, KeysOf(docs[..i])), docs, faults, i, allGone);
            && objs' == Purged(start, KeysOf(docs[..n]))
            && (r.Ok? <==> n == |docs|)
            && (r.Ok? ==> (r.value <==> KeysOf(docs) !! start.Keys))
    decreases |docs| - i
  {
    if i == |docs| {
      assert docs[..i] == docs;
    } else if faults(i) == Fine {
      var k := docs[i].key;
      var done := KeysOf(docs[..i]);
      assert KeysOf(docs[..i + 1]) == done + {k} by {
        assert docs[..i + 1] == docs[..i] + [docs[i]];
        assert forall d :: d in docs[..i + 1] <==> d in docs[..i] || d == docs[i];
        assert docs[i] in docs[..i + 1];
      }
      PurgedStep(start, done, k);
      var gone := k !in Purged(start, done);
      DeleteDocsFrom(start, docs, faults, i + 1, allGone && gone);
    }
  }

  /** Uninstall deletes exactly the manifest's objects (up to the first failing document); without
      an error it reports success if and only if none of them was there. */
  lemma YamlUninstallPurges(docs: seq<Doc>, w: World, f: Faults)
    requires f.load.None?
    ensures var (w', a) := YamlUninstall(docs, w, f);
            var n := FirstFault(docs, f.docs, 0);
            && w' == w.(objects := Purged(w.objects, KeysOf(docs[..n])))
            && (a.Errored? <==> n < |docs|)
            && (a.Done? ==> (a.result.state.Success? <==> KeysOf(docs) !! w.objects.Keys))
            && (a.Done? && !a.result.state.Success? ==> a.result.state.InProgress?)
  {
    assert docs[..0] == [];
    assert Purged(w.objects, {}) == w.objects;
    DeleteDocsFrom(w.objects, docs, f.docs, 0, true);
  }

  ghost predicate Clean(f: Faults) {
    && f.load.None? && f.values.None? && f.deleteOrgs.None? && f.listOrgs.None?
    && f.helm.load.None? && f.helm.lookup.None? && f.helm.compare.None? && f.helm.config.None? && f.helm.removal.Removed?
    && (forall i :: f.docs(i) == Fine)
  }

  /** Install followed by two uninstalls undoes everything but the loss of what the manifest replaced: no other
      object is touched, of the manifest's objects only those stay that something held at the start, and
      the second uninstall says which case it is. */
  lemma YamlRoundTrip(docs: seq<Doc>, w: World, f: Faults, g: Faults, h: Faults)
    requires Clean(f) && Clean(g) && Clean(h)
    ensures var w1 := YamlInstall(docs, w, f).0;
            var w2 := YamlUninstall(docs, w1, g).0;
            var (w3, a) := YamlUninstall(docs, w2, h);
            && w2 == w.(objects := w2.objects) && w3 == w2
            && w2.objects - KeysOf(docs) == w.objects - KeysOf(docs)
            && (forall k :: k in KeysOf(docs) ==> (k in w2.objects <==> k in w.objects && w.objects[k].held))
            && (a.Succeeded() <==> forall k :: k in KeysOf(docs) && k in w.objects ==> !w.objects[k].held)
            && (a.Succeeded() ==> w2 == w.(objects := w.objects - KeysOf(docs)))
  {
    CleanInstall(docs, w, f);
    InstalledNotHeld(w.objects, docs, f.docs, 0);
    var w1 := YamlInstall(docs, w, f).0;
    CleanUninstall(docs, w1, g);
    var w2 := YamlUninstall(docs, w1, g).0;
    CleanUninstall(docs, w2, h);
    PurgedTwice(w1.objects, KeysOf(docs));
    PurgedRest(w1.objects, KeysOf(docs));
    if forall k :: k in KeysOf(docs) && k in w.objects ==> !w.objects[k].held {
      assert w2.objects == w.objects - KeysOf(docs);
    }
  }

  lemma PurgedTwice(objs: Objects, keys: set<Key>)
    ensures Purged(Purged(objs, keys), keys) == Purged(objs, keys)
  {
  }

  lemma PurgedRest(objs: Objects, keys: set<Key>)
    ensures Purged(objs, keys) - keys == objs - keys
  {
  }

  lemma CleanInstall(docs: seq<Doc>, w: World, f: Faults)
    requires Clean(f)
    ensures var w' := YamlInstall(docs, w, f).0;
            && w'.objects - KeysOf(docs) == w.objects - KeysOf(docs)
            && w' == w.(objects := w'.objects)
  {
    YamlInstallTouchesOwn(docs, w, f);
  }

  lemma CleanUninstall(docs: seq<Doc>, w: World, f: Faults)
    requires Clean(f)
    ensures var (w', a) := YamlUninstall(docs, w, f);
            && w' == w.(objects := Purged(w.objects, KeysOf(docs)))
            && (a.Succeeded() <==> KeysOf(docs) !! w.objects.Keys)
  {
    YamlUninstallPurges(docs, w, f);
    assert docs[..FirstFault(docs, f.docs, 0)] == docs;
  }

  /** Install never makes an object held, nor marks one, nor takes either off. */
  lemma {:induction false} InstalledNotHeld(objs: Objects, docs: seq<Doc>, faults: nat -> DocFault, i: nat)
    requires i <= |docs|
    ensures var objs' := ApplyDocs(objs, docs, faults, i).0;
            && objs.Keys <= objs'.Keys
            && (forall k :: k in objs' ==> objs'[k].held == (k in objs && objs[k].held))
            && (forall k :: k in objs' ==> objs'[k].terminating == (k in objs && objs[k].terminating))
    decreases |docs| - i
  {
    if i < |docs| && ApplyDoc(objs, docs[i], faults(i)).Ok? {
      InstalledNotHeld(ApplyDoc(objs, docs[i], faults(i)).value, docs, faults, i + 1);
    }
  }

  // ----- Helm releases -----

  /** One call of Apply, for whatever release, and what it meets. */
  datatype ApplyCall = ApplyCall(name: string, version: string, values: Values, faults: H.HelmFaults)

  function Applied(rs: Releases, calls: seq<ApplyCall>): Releases {
    if calls == [] then rs else
    var c := calls[|calls| - 1];
    H.Apply(Applied(rs, calls[..|calls| - 1]), c.name, c.version, c.values, c.faults).0
  }

  lemma ApplyKeepsPending(rs: Releases, name: string, c: ApplyCall)
    requires name in rs && rs[name].status.IsPending()
    ensures var rs' := H.Apply(rs, c.name, c.version, c.values, c.faults).0;
            name in rs' && rs'[name] == rs[name]
  {
    if c.name != name { ApplyKeepsOthers(rs, c.name, c.version, c.values, c.faults); }
  }

  /** A pending release is never written: not by any sequence of Apply calls, for any releases, versions and
      values, whatever Helm does in each. */
  lemma {:induction false} PendingNeverWritten(rs: Releases, name: string, calls: seq<ApplyCall>)
    requires name in rs && rs[name].status.IsPending()
    ensures name in Applied(rs, calls) && Applied(rs, calls)[name] == rs[name]
  {
    if calls != [] {
      PendingNeverWritten(rs, name, calls[..|calls| - 1]);
      ApplyKeepsPending(Applied(rs, calls[..|calls| - 1]), name, calls[|calls| - 1]);
    }
  }

  ghost predicate Healthy(f: Faults) {
    Clean(f) && f.helm.action == H.Ran(Deployed)
  }

  lemma ApplySuccessIsCurrent(rs: Releases, name: string, version: string, values: Values, f: H.HelmFaults)
    requires var r := H.Apply(rs, name, version, values, f).1; r.Ok? && r.value.status == Some(Deployed)
    ensures var rs' := H.Apply(rs, name, version, values, f).0;
            && name in rs' && rs'[name].status.Deployed? && rs'[name].version == version
            && H.AsAsked(rs'[name].values, values)
  {
  }

  /** Success is never stale: the newest release is deployed, with this version and the values asked for.
      The one exception is an upgrade without values, which keeps the current ones; exactly then
      repeating the install writes again, otherwise it is a success that writes nothing. */
  lemma HelmSuccessIsCurrent(name: string, version: string, values: Values, w: World, f: Faults, again: Faults)
    requires HelmInstall(name, version, values, w, f).1.Succeeded() && Healthy(again)
    ensures var w' := HelmInstall(name, version, values, w, f).0;
            && name in w'.releases
            && w'.releases[name].status.Deployed?
            && w'.releases[name].version == version
            && (H.EqualValues(w'.releases[name].values, values) || values == map[])
            && (H.EqualValues(w'.releases[name].values, values) <==> HelmInstall(name, version, values, w', again).0 == w')
            && HelmInstall(name, version, values, w', again).1.Succeeded()
  {
    ApplySuccessIsCurrent(w.releases, name, version, values, f.helm);
    var w' := HelmInstall(name, version, values, w, f).0;
    var w'' := HelmInstall(name, version, values, w', again).0;
    if !H.EqualValues(w'.releases[name].values, values) {
      assert w''.releases[name].revision == w'.releases[name].revision + 1;
    }
  }

  /** The newest release does not block the way to a deployed one. */
  predicate Deployable(w: World, name: string, version: string, values: Values) {
    name in w.releases ==>
      var r := w.releases[name];
      r.status in H.SHOWN && !r.status.IsPending() && (H.UpToDate(r, version, values) ==> r.status.Deployed?)
  }

  function HelmInstalls(name: string, version: string, values: Values, w: World, faults: nat -> Faults, n: nat): World {
    if n == 0 then w
    else HelmInstall(name, version, values, HelmInstalls(name, version, values, w, faults, n - 1), faults(n - 1)).0
  }

  lemma HelmInstallStep(name: string, version: string, values: Values, w: World, f: Faults)
    requires Healthy(f)
    ensures var (w', a) := HelmInstall(name, version, values, w, f);
            && (Deployable(w, name, version, values) <==> a.Succeeded())
            && (Deployable(w, name, version, values) ==> Deployable(w', name, version, values))
            && (!Deployable(w, name, version, values) ==> w' == w)
  {
  }

  lemma {:induction false} DeployableStays(name: string, version: string, values: Values, w: World, faults: nat -> Faults, n: nat)
    requires forall i :: Healthy(faults(i))
    ensures var w' := HelmInstalls(name, version, values, w, faults, n);
            && (Deployable(w', name, version, values) <==> Deployable(w, name, version, values))
            && (!Deployable(w, name, version, values) ==> w' == w)
  {
    if n > 0 {
      DeployableStays(name, version, values, w, faults, n - 1);
      HelmInstallStep(name, version, values, HelmInstalls(name, version, values, w, faults, n - 1), faults(n - 1));
    }
  }

  /** However often a healthy Helm is asked, the install succeeds if and only if it does so the first
      time; a pending, hidden, uninstalling, uninstalled, superseded or unknown release of the requested
      version and values stays as it is for ever. */
  lemma {:induction false} HelmInstallConverges(name: string, version: string, values: Values, w: World, faults: nat -> Faults, n: nat)
    requires forall i :: Healthy(faults(i))
    ensures var w' := HelmInstalls(name, version, values, w, faults, n);
            && (Deployable(w, name, version, values) <==> HelmInstall(name, version, values, w', faults(n)).1.Succeeded())
            && (!Deployable(w, name, version, values) ==> w' == w)
  {
    DeployableStays(name, version, values, w, faults, n);
    HelmInstallStep(name, version, values, HelmInstalls(name, version, values, w, faults, n), faults(n));
  }

  /** For one, a release whose installation was interrupted. */
  lemma InterruptedInstallNeverSucceeds(name: string, version: string, values: Values, faults: nat -> Faults, n: nat)
    requires forall i :: Healthy(faults(i))
    ensures var w := World(map[], map[name := Release(1, PendingInstall, version, values)], None);
            !HelmInstall(name, version, values, HelmInstalls(name, version, values, w, faults, n), faults(n)).1.Succeeded()
  {
    HelmInstallConverges(name, version, values, World(map[], map[name := Release(1, PendingInstall, version, values)], None), faults, n);
  }

  // ----- uninstalling anything -----

  lemma {:induction false} UninstallShrinks(inst: Installable, config: Config, w: World, f: Faults)
    ensures Shrunk(w, Uninstall(inst, config, w, f).0)
  {
    match inst
    case Yaml(docs) => if f.load.None? { YamlUninstallPurges(docs, w, f); }
    case Conditional(_, d) => UninstallShrinks(d, config, w, f);
    case _ =>
  }

  lemma {:induction false} UninstallSuccessMeansAbsent(inst: Installable, config: Config, w: World, f: Faults)
    requires Uninstall(inst, config, w, f).1.Succeeded()
    ensures Absent(inst, Uninstall(inst, config, w, f).0)
  {
    match inst
    case Yaml(docs) =>
      YamlUninstallPurges(docs, w, f);
    case Conditional(_, d) => UninstallSuccessMeansAbsent(d, config, w, f);
    case _ =>
  }

  ghost predicate SameHidden(w: World, w': World) {
    forall n :: H.Hidden(w.releases, n) <==> H.Hidden(w'.releases, n)
  }

  /** What the lookup does not show, a success neither removes nor adds to. */
  lemma {:induction false} UninstallSuccessKeepsHidden(inst: Installable, config: Config, w: World, f: Faults)
    requires Uninstall(inst, config, w, f).1.Succeeded()
    ensures SameHidden(w, Uninstall(inst, config, w, f).0)
  {
    if inst.Conditional? { UninstallSuccessKeepsHidden(inst.delegate, config, w, f); }
  }

  lemma TracelessIff(inst: Installable, w: World)
    ensures Traceless(inst, w) <==> Absent(inst, w) && !Hides(inst, w)
  {
    if ObjectKeys(inst) !! w.objects.Keys && ReleaseNames(inst) !! H.ShownNames(w.releases) {
      forall n | n in ReleaseNames(inst) && n in w.releases ensures H.Hidden(w.releases, n) {
        assert n !in H.ShownNames(w.releases);
      }
    }
  }

  /** Gone means gone exactly if the lookup hid no release of the component. */
  lemma GoneMeansGoneIff(inst: Installable, config: Config, w: World, f: Faults)
    requires Uninstall(inst, config, w, f).1.Succeeded()
    ensures var w' := Uninstall(inst, config, w, f).0;
            Absent(inst, w') && (Traceless(inst, w') <==> !Hides(inst, w))
  {
    var w' := Uninstall(inst, config, w, f).0;
    UninstallSuccessMeansAbsent(inst, config, w, f);
    UninstallSuccessKeepsHidden(inst, config, w, f);
    TracelessIff(inst, w');
  }

  /** A removal that breaks off and leaves the release uninstalling: asked again, a healthy Helm answers that
      the release is gone, and leaves it there, exactly if the lookup does not show such releases. */
  lemma BrokenRemovalIsForgottenIff(chart: Installable, config: Config, w: World, message: string, f: Faults, again: Faults)
    requires chart.HelmChart? && chart.name in w.releases && w.releases[chart.name].status.Deployed?
    requires f.helm.lookup.None? && f.helm.config.None? && f.helm.removal == H.BrokeOff(message, Some(Uninstalling))
    requires Clean(again)
    ensures var w1 := Uninstall(chart, config, w, f).0;
            var (w2, a) := Uninstall(chart, config, w1, again);
            && w2 == w1 && chart.name in w2.releases
            && (a.Succeeded() <==> Uninstalling !in H.SHOWN)
  {
  }

  lemma NoneAmongNone(small: set<string>, big: set<string>)
    requires small <= big && |big| == 0
    ensures |small| == 0
  {
  }

  lemma AbsentStays(inst: Installable, w: World, w': World)
    requires Absent(inst, w) && Shrunk(w, w')
    ensures Absent(inst, w')
  {
    if HandlesOrgs(inst) {
      assert |OrgMap(w).Keys| == 0;
      NoneAmongNone(OrgMap(w').Keys, OrgMap(w).Keys);
      assert |OrgMap(w').Keys| == 0;
    }
  }

  // ----- installing anything -----

  /** Two worlds agree on everything a component owns. */
  ghost predicate SameFor(inst: Installable, w: World, w': World) {
    && (forall k :: k in ObjectKeys(inst) ==>
          (k in w.objects <==> k in w'.objects) && (k in w.objects ==> w.objects[k].body == w'.objects[k].body))
    && (forall n :: n in ReleaseNames(inst) ==>
          (n in w.releases <==> n in w'.releases) && (n in w.releases ==> w.releases[n] == w'.releases[n]))
    && OrgMap(w) == OrgMap(w')
  }

  lemma {:induction false} SameForKeepsInPlace(inst: Installable, config: Config, w: World, w': World)
    requires SameFor(inst, w, w')
    ensures InPlace(inst, config, w) <==> InPlace(inst, config, w')
    ensures Absent(inst, w) <==> Absent(inst, w')
  {
    if inst.Conditional? {
      SameForKeepsInPlace(inst.delegate, config, w, w');
    }
  }

  /** Objects and releases that are not the component's are as they were, and so are the orgs. */
  ghost predicate OnlyOwnTouched(inst: Installable, w: World, w': World) {
    && (forall k :: k !in ObjectKeys(inst) ==>
          (k in w.objects <==> k in w'.objects) && (k in w.objects ==> w.objects[k] == w'.objects[k]))
    && (forall n :: n !in ReleaseNames(inst) ==>
          (n in w.releases <==> n in w'.releases) && (n in w.releases ==> w.releases[n] == w'.releases[n]))
    && OrgMap(w) == OrgMap(w')
  }

  lemma DisjointSeesNothing(other: Installable, inst: Installable, w: World, w': World)
    requires Disjoint(other, inst) && OnlyOwnTouched(inst, w, w')
    ensures SameFor(other, w, w')
  {
  }

  lemma YamlUninstallTouchesOwn(docs: seq<Doc>, w: World, f: Faults)
    ensures OnlyOwnTouched(Yaml(docs), w, YamlUninstall(docs, w, f).0)
  {
    if f.load.None? {
      YamlUninstallPurges(docs, w, f);
      var n := FirstFault(docs, f.docs, 0);
      assert KeysOf(docs[..n]) <= KeysOf(docs);
    }
  }

  ghost predicate OthersKept(rs: Releases, rs': Releases, name: string) {
    forall n :: n != name ==> (n in rs <==> n in rs') && (n in rs ==> rs[n] == rs'[n])
  }

  lemma ApplyKeepsOthers(rs: Releases, name: string, version: string, values: Values, f: H.HelmFaults)
    ensures OthersKept(rs, H.Apply(rs, name, version, values, f).0, name)
  {
  }

  lemma RemovalKeepsOthers(rs: Releases, name: string, f: H.HelmFaults)
    ensures OthersKept(rs, H.Uninstall(rs, name, f).0, name)
  {
  }

  lemma HelmTouchesOwn(chart: Installable, w: World, rs: Releases)
    requires chart.HelmChart? && OthersKept(w.releases, rs, chart.name)
    ensures OnlyOwnTouched(chart, w, w.(releases := rs))
  {
  }

  lemma {:induction false} UninstallTouchesOwn(inst: Installable, config: Config, w: World, f: Faults)
    requires !HandlesOrgs(inst)
    ensures OnlyOwnTouched(inst, w, Uninstall(inst, config, w, f).0)
  {
    match inst
    case Yaml(docs) => YamlUninstallTouchesOwn(docs, w, f);
    case Conditional(_, d) => UninstallTouchesOwn(d, config, w, f);
    case HelmChart(name, _, _) =>
      RemovalKeepsOthers(w.releases, name, f.helm);
      HelmTouchesOwn(inst, w, H.Uninstall(w.releases, name, f.helm).0);
  }

  lemma YamlInstallTouchesOwn(docs: seq<Doc>, w: World, f: Faults)
    ensures var w' := YamlInstall(docs, w, f).0;
            && w' == w.(objects := w'.objects)
            && (forall k :: k !in KeysOf(docs) ==>
                  (k in w.objects <==> k in w'.objects) && (k in w.objects ==> w.objects[k] == w'.objects[k]))
  {
    if f.load.None? {
      YamlInstallApplies(docs, w, f);
      var w' := YamlInstall(docs, w, f).0;
      var n := FirstFault(docs, f.docs, 0);
      forall k | k !in KeysOf(docs) ensures k in w.objects <==> k in w'.objects {
        assert k !in KeysOf(docs[..n]);
        assert k in Bodies(w'.objects) <==> k in Bodies(w.objects);
      }
    }
  }

  lemma {:induction false} AnyInstallTouchesOwn(inst: Installable, config: Config, w: World, f: Faults)
    requires CanInstall(inst)
    ensures OnlyOwnTouched(inst, w, Install(inst, config, w, f).0)
  {
    CanInstallNoOrgs(inst);
    match inst
    case Yaml(docs) => YamlInstallTouchesOwn(docs, w, f);
    case Conditional(enabled, d) =>
      if enabled(config) { AnyInstallTouchesOwn(d, config, w, f); } else { UninstallTouchesOwn(d, config, w, f); }
    case HelmChart(name, version, values) =>
      if f.values.None? {
        ApplyKeepsOthers(w.releases, name, version, values(config), f.helm);
        HelmTouchesOwn(inst, w, H.Apply(w.releases, name, version, values(config), f.helm).0);
      }
  }

  /** Installing one component leaves everything a disjoint one owns as it was. */
  lemma InstallTouchesOwn(other: Installable, inst: Installable, config: Config, w: World, f: Faults)
    requires CanInstall(inst) && Disjoint(other, inst)
    ensures SameFor(other, w, Install(inst, config, w, f).0)
  {
    AnyInstallTouchesOwn(inst, config, w, f);
    DisjointSeesNothing(other, inst, w, Install(inst, config, w, f).0);
  }

  lemma {:induction false} CanInstallNoOrgs(inst: Installable)
    requires CanInstall(inst)
    ensures !HandlesOrgs(inst)
  {
    if inst.Conditional? { CanInstallNoOrgs(inst.delegate); }
  }

  /** Success means the component is in place, or, where the configuration rules it out, gone. */
  lemma {:induction false} InstallSuccessMeansInPlace(inst: Installable, config: Config, w: World, f: Faults)
    requires CanInstall(inst) && Install(inst, config, w, f).1.Succeeded()
    ensures InPlace(inst, config, Install(inst, config, w, f).0)
  {
    match inst
    case Yaml(docs) =>
      YamlInstallApplies(docs, w, f);
      var w' := YamlInstall(docs, w, f).0;
      assert docs[..|docs|] == docs;
      forall k | k in KeysOf(docs) ensures k in w'.objects && w'.objects[k].body == LastBody(docs, k) {
        assert k in Bodies(w'.objects) && Bodies(w'.objects)[k] == Manifest(docs)[k];
      }
    case HelmChart(name, version, values) =>
    case Conditional(enabled, d) =>
      if enabled(config) {
        InstallSuccessMeansInPlace(d, config, w, f);
      } else {
        UninstallSuccessMeansAbsent(d, config, w, f);
      }
  }
}
