/** What one reconcile of the CFAPI object achieves, for every world, every fault and every answer. */
module ControllerFacts {
  import opened Prelude
  import opened Types
  import opened Cluster
  import opened Installables
  import opened InstallableFacts
  import opened Controller
  import H = Helm

  // ----- the compiled configuration -----

  /** A lookup matters exactly if the spec leaves open what it would answer: where the spec decides, the
      answer may be anything, an error too; where it does not, an error is one that shows. */
  lemma LookupMattersIff(spec: Spec, l: Lookups)
    requires Compile(spec, l).Ok?
    ensures (forall x :: Compile(spec, l.(uaaURL := x)) == Compile(spec, l)) <==> spec.uaa != ""
    ensures (forall x :: Compile(spec, l.(clusterAdmins := x)) == Compile(spec, l)) <==> spec.cfAdmins != []
    ensures (forall x :: Compile(spec, l.(alphaGatewayAPI := x)) == Compile(spec, l)) <==> spec.gatewayType != ISTIO
    ensures (forall x, y :: Compile(spec, l.(customSecret := x, registryURLs := y)) == Compile(spec, l)) <==>
              spec.containerRegistrySecret == ""
    ensures (forall x, y :: Compile(spec, l.(kymaSecretName := x, kymaRegistryURL := y)) == Compile(spec, l)) <==>
              spec.containerRegistrySecret != ""
    ensures !forall x :: Compile(spec, l.(kymaDomain := x)) == Compile(spec, l)
  {
    var no := "no";
    assert spec.uaa == "" ==> Compile(spec, l.(uaaURL := Err(no))).Err?;
    assert spec.cfAdmins == [] ==> Compile(spec, l.(clusterAdmins := Err(no))).Err?;
    assert spec.gatewayType == ISTIO ==> Compile(spec, l.(alphaGatewayAPI := Err(no))).Err?;
    assert spec.containerRegistrySecret != "" ==> Compile(spec, l.(customSecret := Some(no), registryURLs := Err(no))).Err?;
    assert spec.containerRegistrySecret == "" ==> Compile(spec, l.(kymaSecretName := Err(no), kymaRegistryURL := Err(no))).Err?;
    assert Compile(spec, l.(kymaDomain := Err(no))).Err?;
  }

  /** The spec that gives explicitly what was compiled. */
  function Pinned(spec: Spec, c: Config): Spec {
    spec.(rootNamespace := c.rootNamespace, containerRepositoryPrefix := c.repositoryPrefix,
          builderRepository := c.builderRepository, uaa := c.uaaURL, cfAdmins := c.cfAdmins, gatewayType := c.gatewayType)
  }

  /** The same domain, gateway feature and registry; everything else may be answered anyhow. */
  predicate SameSurroundings(l: Lookups, l': Lookups) {
    && l'.kymaDomain == l.kymaDomain && l'.alphaGatewayAPI == l.alphaGatewayAPI
    && l'.customSecret == l.customSecret && l'.registryURLs == l.registryURLs
    && l'.kymaSecretName == l.kymaSecretName && l'.kymaRegistryURL == l.kymaRegistryURL
  }

  /** Writing the compiled configuration back into the spec compiles to the same configuration, with no
      further lookup of users or UAA, exactly if it has an administrator and a UAA. */
  lemma PinnedSpecIff(spec: Spec, l: Lookups)
    requires Compile(spec, l).Ok?
    ensures var c := Compile(spec, l).value;
            (forall l' :: SameSurroundings(l, l') ==> Compile(Pinned(spec, c), l') == Ok(c)) <==>
              c.uaaURL != "" && c.cfAdmins != []
  {
    var c := Compile(spec, l).value;
    if c.uaaURL != "" && c.cfAdmins != [] {
      forall l' | SameSurroundings(l, l') ensures Compile(Pinned(spec, c), l') == Ok(c) {
        PinnedCompiles(spec, l, l');
      }
    } else {
      var l' := l.(uaaURL := Err("no"), clusterAdmins := Err("no"));
      assert SameSurroundings(l, l') && Compile(Pinned(spec, c), l').Err?;
    }
  }

  lemma PinnedCompiles(spec: Spec, l: Lookups, l': Lookups)
    requires Compile(spec, l).Ok? && SameSurroundings(l, l')
    requires Compile(spec, l).value.uaaURL != "" && Compile(spec, l).value.cfAdmins != []
    ensures Compile(Pinned(spec, Compile(spec, l).value), l') == Compile(spec, l)
  {
    var c := Compile(spec, l).value;
    assert c.repositoryPrefix != "" && c.builderRepository != "";
  }

  ghost predicate SameWhateverTheOrder(spec: Spec, l: Lookups)
    requires l.registryURLs.Ok?
  {
    forall urls :: multiset(urls) == multiset(l.registryURLs.value) ==>
      Compile(spec, l.(registryURLs := Ok(urls))) == Compile(spec, l)
  }

  lemma OneOrder(other: seq<string>, urls: seq<string>)
    requires |urls| == 1 && multiset(other) == multiset(urls)
    ensures other == urls
  {
    assert |other| == |multiset(other)| == 1;
    assert other[0] in multiset(other);
  }

  /** Go iterates the registries of a custom secret in no fixed order. The compiled configuration does not
      depend on it exactly if the secret has one registry. */
  lemma OneRegistryIff(spec: Spec, l: Lookups)
    requires spec.containerRegistrySecret != "" && l.registryURLs.Ok? && Compile(spec, l).Ok?
    requires var urls := l.registryURLs.value; forall i, j :: 0 <= i < j < |urls| ==> urls[i] != urls[j]
    ensures SameWhateverTheOrder(spec, l) <==> |l.registryURLs.value| == 1
  {
    var urls := l.registryURLs.value;
    assert urls != [];
    if |urls| == 1 {
      forall other | multiset(other) == multiset(urls)
        ensures Compile(spec, l.(registryURLs := Ok(other))) == Compile(spec, l)
      {
        OneOrder(other, urls);
      }
    } else {
      var swapped := [urls[1], urls[0]] + urls[2..];
      assert urls == [urls[0], urls[1]] + urls[2..];
      assert multiset(swapped) == multiset(urls);
      assert Compile(spec, l.(registryURLs := Ok(swapped))).value.registryURL == urls[1];
      assert Compile(spec, l).value.registryURL == urls[0];
    }
  }

  // ----- which installables a pass calls -----

  /** The world after the first `n` components of the order were installed. */
  function WorldAfter(order: seq<Installable>, config: Config, w: World, faults: nat -> Faults, n: nat): World
    requires n <= |order| && forall inst :: inst in order ==> CanInstall(inst)
  {
    if n == 0 then w
    else Install(order[n - 1], config, WorldAfter(order, config, w, faults, n - 1), faults(n - 1)).0
  }

  /** What the i-th component answers when its turn comes. */
  function AnswerAt(order: seq<Installable>, config: Config, w: World, faults: nat -> Faults, i: nat): Answer
    requires i < |order| && forall inst :: inst in order ==> CanInstall(inst)
  {
    Install(order[i], config, WorldAfter(order, config, w, faults, i), faults(i)).1
  }

  ghost predicate FirstError(order: seq<Installable>, config: Config, w: World, faults: nat -> Faults, n: nat)
    requires forall inst :: inst in order ==> CanInstall(inst)
  {
    && n <= |order|
    && (forall i :: 0 <= i < n ==> AnswerAt(order, config, w, faults, i).Done?)
    && (n < |order| ==> AnswerAt(order, config, w, faults, n).Errored?)
  }

  lemma {:induction false} InstallFromPrefix(order: seq<Installable>, config: Config, w: World, faults: nat -> Faults,
                                             results: seq<Report>) returns (n: nat)
    requires forall inst :: inst in order ==> CanInstall(inst)
    requires |results| <= |order|
    requires forall i :: 0 <= i < |results| ==> AnswerAt(order, config, w, faults, i) == Done(results[i])
    ensures FirstError(order, config, w, faults, n) && |results| <= n
    ensures var (w', r) := InstallFrom(order, config, WorldAfter(order, config, w, faults, |results|), faults, results);
            && (n < |order| ==>
                  && w' == WorldAfter(order, config, w, faults, n + 1)
                  && r == Err(AnswerAt(order, config, w, faults, n).message))
            && (n == |order| ==>
                  && w' == WorldAfter(order, config, w, faults, n)
                  && r.Ok? && |r.value| == n
                  && forall i :: 0 <= i < n ==> AnswerAt(order, config, w, faults, i) == Done(r.value[i]))
    decreases |order| - |results|
  {
    var i := |results|;
    if i == |order| {
      n := i;
    } else {
      var a := AnswerAt(order, config, w, faults, i);
      if a.Errored? {
        n := i;
      } else {
        n := InstallFromPrefix(order, config, w, faults, results + [a.result]);
      }
    }
  }

  /** An install pass calls the components in order, each once, up to and including the first that
      returns an error; without an error it calls all and returns all their results. */
  lemma InstallPassIsPrefix(order: seq<Installable>, config: Config, w: World, faults: nat -> Faults) returns (n: nat)
    requires forall inst :: inst in order ==> CanInstall(inst)
    ensures FirstError(order, config, w, faults, n)
    ensures var (w', r) := InstallFrom(order, config, w, faults, []);
            && (n < |order| ==>
                  && w' == WorldAfter(order, config, w, faults, n + 1)
                  && r == Err(AnswerAt(order, config, w, faults, n).message))
            && (n == |order| ==>
                  && w' == WorldAfter(order, config, w, faults, n)
                  && r.Ok? && |r.value| == n
                  && forall i :: 0 <= i < n ==> AnswerAt(order, config, w, faults, i) == Done(r.value[i]))
  {
    n := InstallFromPrefix(order, config, w, faults, []);
  }

  // ----- success of a whole pass -----

  predicate DisjointPair(order: seq<Installable>, i: nat, j: nat)
    requires i < |order| && j < |order|
  {
    Disjoint(order[i], order[j])
  }

  predicate PairwiseDisjoint(order: seq<Installable>) {
    forall i: nat, j: nat :: i < j < |order| ==> DisjointPair(order, i, j)
  }

  /** Any two different positions, in either order. */
  lemma DisjointAt(order: seq<Installable>, i: nat, j: nat)
    requires PairwiseDisjoint(order) && i < |order| && j < |order| && i != j
    ensures Disjoint(order[i], order[j])
  {
    assert if i < j then DisjointPair(order, i, j) else DisjointPair(order, j, i);
  }

  ghost predicate InPlaceAt(order: seq<Installable>, i: nat, config: Config, w: World)
    requires i < |order|
  {
    InPlace(order[i], config, w)
  }

  ghost predicate AllInPlace(order: seq<Installable>, config: Config, w: World) {
    forall i: nat :: i < |order| ==> InPlaceAt(order, i, config, w)
  }

  lemma NextKeepsInPlace(inst: Installable, next: Installable, config: Config, w: World, f: Faults)
    requires CanInstall(next) && Disjoint(inst, next) && InPlace(inst, config, w)
    ensures InPlace(inst, config, Install(next, config, w, f).0)
  {
    InstallTouchesOwn(inst, next, config, w, f);
    SameForKeepsInPlace(inst, config, w, Install(next, config, w, f).0);
  }

  /** Later components do not disturb what earlier ones put in place. */
  lemma {:induction false} PassPutsInPlace(order: seq<Installable>, config: Config, w: World, faults: nat -> Faults, n: nat)
    requires n <= |order| && PairwiseDisjoint(order) && forall inst :: inst in order ==> CanInstall(inst)
    requires forall i :: 0 <= i < n ==> AnswerAt(order, config, w, faults, i).Succeeded()
    ensures forall i: nat :: i < n ==> InPlaceAt(order, i, config, WorldAfter(order, config, w, faults, n))
  {
    if n > 0 {
      var before := WorldAfter(order, config, w, faults, n - 1);
      PassPutsInPlace(order, config, w, faults, n - 1);
      assert AnswerAt(order, config, w, faults, n - 1).Succeeded();
      InstallSuccessMeansInPlace(order[n - 1], config, before, faults(n - 1));
      forall i: nat | i < n ensures InPlaceAt(order, i, config, WorldAfter(order, config, w, faults, n)) {
        if i < n - 1 {
          assert InPlaceAt(order, i, config, before);
          DisjointAt(order, i, n - 1);
          NextKeepsInPlace(order[i], order[n - 1], config, before, faults(n - 1));
        }
      }
    }
  }

  /** What a Ready status promises about itself. */
  ghost predicate ReadyStatus(s: Status) {
    && s.url == "https://cfapi." + s.config.cfDomain
    && (var c := FindCondition(s.conditions, CONFIGURATION);
        c.Some? && c.value.status.True? && c.value.observedGeneration == s.observedGeneration)
    && (var c := FindCondition(s.conditions, INSTALLATION);
        c.Some? && c.value.status.True? && c.value.observedGeneration == s.observedGeneration)
    && s.config != ZERO_CONFIG
    && LegalGateway(s.config)
  }

  lemma ReadyAfterResult(o: Object, config: Config, r: Report, accepted: int, now: int)
    requires config != ZERO_CONFIG && LegalGateway(config)
    ensures var s := ApplyInstallResult(Accepted(Begin(o), config, accepted), r, now).status;
            && s.config == config
            && (s.state.Ready? <==> r.state.Success?)
            && (s.state.Ready? ==> ReadyStatus(s))
  {
    var o2 := Accepted(Begin(o), config, accepted);
    var c1 := Condition(CONFIGURATION, True, o.generation, accepted, "ValidConiguration", "");
    SetThenFind(Begin(o).status.conditions, c1, CONFIGURATION);
    var c2 := Condition(INSTALLATION, True, o.generation, now, "InstallationSuccess", "");
    SetThenFind(o2.status.conditions, c2, CONFIGURATION);
    SetThenFind(o2.status.conditions, c2, INSTALLATION);
  }

  ghost predicate AllSucceed(p: Params, o: Object, w: World, l: Lookups, faults: nat -> Faults)
    requires ValidOrder(p.installOrder)
  {
    && !o.deleting
    && Compile(o.spec, l).Ok?
    && forall i :: 0 <= i < |p.installOrder| ==>
         AnswerAt(p.installOrder, Compile(o.spec, l).value, w, faults, i).Succeeded()
  }

  /** If a reconcile ends Ready, every component of the install order is in place for exactly the
      configuration in the status, and the status says so consistently; conversely a pass in which
      every component succeeds ends Ready. */
  lemma ReadyMeansInstalled(p: Params, o: Object, w: World, l: Lookups, now: int, faults: nat -> Faults)
    requires ValidOrder(p.installOrder) && PairwiseDisjoint(p.installOrder)
    ensures var end := Body(p, o, w, l, now, faults);
            && (end.obj.status.state.Ready? <==> AllSucceed(p, o, w, l, faults))
            && (end.obj.status.state.Ready? ==>
                  && Compile(o.spec, l) == Ok(end.obj.status.config)
                  && ReadyStatus(end.obj.status)
                  && end.obj.status.observedGeneration == o.generation
                  && AllInPlace(p.installOrder, end.obj.status.config, end.world))
  {
    if !o.deleting && Compile(o.spec, l).Ok? {
      CompiledIsLegal(o.spec, l);
      var config := Compile(o.spec, l).value;
      var n := InstallPassIsPrefix(p.installOrder, config, w, faults);
      var (w', r) := InstallFrom(p.installOrder, config, w, faults, []);
      if r.Ok? {
        var i := AggregateIsEarliestWorst(r.value);
        ReadyAfterResult(o, config, Aggregate(r.value), now, now);
        if Aggregate(r.value).state.Success? {
          PassPutsInPlace(p.installOrder, config, w, faults, n);
        } else {
          assert !AnswerAt(p.installOrder, config, w, faults, i).Succeeded();
        }
      } else {
        assert !AnswerAt(p.installOrder, config, w, faults, n).Succeeded();
      }
    }
  }

  // ----- an uninstall pass -----

  /** A complete pass leaves none of its components behind. */
  lemma {:induction false} UninstallPassLeavesNothing(order: seq<Installable>, config: Config, w: World, faults: nat -> Faults,
                                                      done: seq<Report>)
    requires |done| <= |order|
    requires forall i :: 0 <= i < |done| ==> Absent(order[i], w)
    ensures var (w', end) := UninstallFrom(order, config, w, faults, done);
            && Shrunk(w, w')
            && (end.Complete? ==> forall inst :: inst in order ==> Absent(inst, w'))
    decreases |order| - |done|
  {
    var i := |done|;
    if i < |order| {
      var (w1, a) := Uninstall(order[i], config, w, faults(i));
      UninstallShrinks(order[i], config, w, faults(i));
      if a.Succeeded() {
        UninstallSuccessMeansAbsent(order[i], config, w, faults(i));
        forall j | 0 <= j < i { AbsentStays(order[j], w, w1); }
        UninstallPassLeavesNothing(order, config, w1, faults, done + [a.result]);
        var w' := UninstallFrom(order, config, w1, faults, done + [a.result]).0;
        assert OrgMap(w').Keys <= OrgMap(w).Keys;
      }
    }
  }

  lemma {:induction false} CompletePassKeepsHidden(order: seq<Installable>, config: Config, w: World, faults: nat -> Faults,
                                                   done: seq<Report>)
    requires |done| <= |order| && UninstallFrom(order, config, w, faults, done).1.Complete?
    ensures SameHidden(w, UninstallFrom(order, config, w, faults, done).0)
    decreases |order| - |done|
  {
    var i := |done|;
    if i < |order| {
      var (w1, a) := Uninstall(order[i], config, w, faults(i));
      UninstallSuccessKeepsHidden(order[i], config, w, faults(i));
      CompletePassKeepsHidden(order, config, w1, faults, done + [a.result]);
    }
  }

  /** Nothing at all is left behind by a complete pass exactly if the Helm lookup hid none of its releases. */
  lemma CleanPassIff(order: seq<Installable>, config: Config, w: World, faults: nat -> Faults)
    requires UninstallFrom(order, config, w, faults, []).1.Complete?
    ensures var w' := UninstallFrom(order, config, w, faults, []).0;
            (forall inst :: inst in order ==> Traceless(inst, w')) <==> (forall inst :: inst in order ==> !Hides(inst, w))
  {
    var w' := UninstallFrom(order, config, w, faults, []).0;
    UninstallPassLeavesNothing(order, config, w, faults, []);
    CompletePassKeepsHidden(order, config, w, faults, []);
    forall inst | inst in order ensures Traceless(inst, w') <==> !Hides(inst, w) {
      TracelessIff(inst, w');
    }
  }

  // ----- reconciling what was just reconciled -----

  /** Setting a condition twice with the same content, whatever happens to other kinds in between. */
  lemma SetTwice(cs: seq<Condition>, c: Condition, later: int)
    ensures SetCondition(SetCondition(cs, c), c.(transition := later)) == SetCondition(cs, c)
  {
    SetThenFind(cs, c, c.kind);
    SetAgain(SetCondition(cs, c), c.(transition := later));
  }

  lemma InstallEndingAgain(o: Object, config: Config, r: Report, now: int, later: int)
    ensures var o1 := ApplyInstallResult(Accepted(Begin(o), config, now), r, now);
            ApplyInstallResult(Accepted(Begin(o1), config, later), r, later) == o1
  {
    var o0 := Accepted(Begin(o), config, now);
    var o1 := ApplyInstallResult(o0, r, now);
    var c1 := Condition(CONFIGURATION, True, o.generation, now, "ValidConiguration", "");
    var status, reason, message :=
      if r.state.Success? then True else if r.state.Failed? then False else Unknown,
      if r.state.Success? then "InstallationSuccess" else if r.state.Failed? then "InstallationFailed" else "InstallationInProgress",
      if r.state.Success? then "" else r.message;
    var c2 := Condition(INSTALLATION, status, o.generation, now, reason, message);
    var cs0 := SetCondition(o.status.conditions, c1);
    assert o1.status.conditions == SetCondition(cs0, c2);
    SetThenFind(o.status.conditions, c1, CONFIGURATION);
    SetThenFind(cs0, c2, CONFIGURATION);
    SetAgain(o1.status.conditions, c1.(transition := later));
    SetTwice(cs0, c2, later);
  }

  lemma AcceptedEndingAgain(o: Object, config: Config, now: int, later: int)
    ensures var o1 := Accepted(Begin(o), config, now);
            Accepted(Begin(o1), config, later) == o1
  {
    var c1 := Condition(CONFIGURATION, True, o.generation, now, "ValidConiguration", "");
    SetTwice(o.status.conditions, c1, later);
  }

  lemma RejectedEndingAgain(o: Object, message: string, now: int, later: int)
    ensures var o1 := Rejected(Begin(o), message, now);
            Rejected(Begin(o1), message, later) == o1
  {
    var c1 := Condition(CONFIGURATION, False, o.generation, now, "InvalidConfiguration", message);
    SetTwice(o.status.conditions, c1, later);
  }

  /** The installables answer the same as the last time, whatever the world is now. */
  ghost predicate SameAnswers(p: Params, o: Object, l: Lookups, w: World, faults: nat -> Faults, w': World, faults': nat -> Faults)
    requires ValidOrder(p.installOrder)
  {
    if o.deleting then
      UninstallFrom(p.uninstallOrder, o.status.config, w, faults, []).1 ==
      UninstallFrom(p.uninstallOrder, o.status.config, w', faults', []).1
    else
      Compile(o.spec, l).Ok? ==>
        InstallFrom(p.installOrder, Compile(o.spec, l).value, w, faults, []).1 ==
        InstallFrom(p.installOrder, Compile(o.spec, l).value, w', faults', []).1
  }

  /** Reconciling the object that the last reconcile committed, with the same answers from
      everybody, changes nothing in it, transition times included, whatever the ending was. The
      compilation has no other input than the spec and the lookups, registry order included. */
  lemma ReconcileIsFixpoint(p: Params, o: Object, l: Lookups, w: World, now: int, faults: nat -> Faults,
                            w': World, later: int, faults': nat -> Faults)
    requires ValidOrder(p.installOrder)
    requires SameAnswers(p, o, l, w, faults, w', faults')
    ensures var first := Body(p, o, w, l, now, faults);
            var second := Body(p, first.obj, w', l, later, faults');
            && second.obj == first.obj
            && second.result == first.result && second.error == first.error
  {
    if o.deleting {
      FinalizeAgain(p, o, l, w, now, faults, w', later, faults');
    } else if Compile(o.spec, l).Err? {
      RejectedEndingAgain(o, Compile(o.spec, l).message, now, later);
    } else {
      var config := Compile(o.spec, l).value;
      var r := InstallFrom(p.installOrder, config, w, faults, []).1;
      AcceptedEndingAgain(o, config, now, later);
      if r.Ok? {
        InstallFromLength(p.installOrder, config, w, faults, []);
        InstallEndingAgain(o, config, Aggregate(r.value), now, later);
      }
    }
  }

  lemma FinalizeAgain(p: Params, o: Object, l: Lookups, w: World, now: int, faults: nat -> Faults,
                      w': World, later: int, faults': nat -> Faults)
    requires ValidOrder(p.installOrder) && o.deleting
    requires SameAnswers(p, o, l, w, faults, w', faults')
    ensures var first := Body(p, o, w, l, now, faults);
            var second := Body(p, first.obj, w', l, later, faults');
            && second.obj == first.obj
            && second.result == first.result && second.error == first.error
  {
    var o1 := MarkDeleting(Begin(o));
    AddThenRemove(o.finalizers, FINALIZER);
    var end := UninstallFrom(p.uninstallOrder, o.status.config, w, faults, []).1;
    var rest := RemoveFinalizer(o1.finalizers, FINALIZER);
    AddThenRemove(rest, FINALIZER);
    assert RemoveFinalizer(AddFinalizer(rest, FINALIZER), FINALIZER) == rest;
    if o.status.config != ZERO_CONFIG && end.Pending? {
      SetTwice(o.status.conditions, Condition(DELETION, False, o.generation, now, "DeletionInProgress", end.report.message), later);
    }
  }

  // ----- the orders of main.go -----

  /** What is on the operator's disk: manifests, chart versions, and the values each chart gets. */
  datatype ModuleData = ModuleData(
    systemNs: seq<Doc>, cfRootNs: seq<Doc>, certIssuers: seq<Doc>, gwAPI: seq<Doc>, kpack: seq<Doc>,
    version: string -> string, values: string -> Config -> Values)

  function Chart(m: ModuleData, name: string): Installable {
    HelmChart(name, m.version(name), m.values(name))
  }

  function Contour(m: ModuleData): Installable {
    Conditional((c: Config) => c.gatewayType == CONTOUR, Chart(m, "contour"))
  }

  function MainInstallOrder(m: ModuleData): seq<Installable> {
    [Yaml(m.systemNs), Yaml(m.cfRootNs), Yaml(m.certIssuers), Yaml(m.gwAPI), Contour(m), Yaml(m.kpack),
     Chart(m, "korifi-prerequisites"), Chart(m, "korifi"), Chart(m, "cfapi-config"), Chart(m, "btp-service-broker")]
  }

  function MainUninstallOrder(m: ModuleData): seq<Installable> {
    [Orgs, Yaml(m.cfRootNs), Chart(m, "btp-service-broker"), Chart(m, "cfapi-config"), Chart(m, "korifi"),
     Chart(m, "korifi-prerequisites"), Yaml(m.kpack), Contour(m), Yaml(m.gwAPI), Yaml(m.certIssuers), Yaml(m.systemNs)]
  }

  ghost predicate Covers(uninstallOrder: seq<Installable>, installOrder: seq<Installable>) {
    Orgs in uninstallOrder && forall inst :: inst in installOrder ==> inst in uninstallOrder
  }

  ghost predicate DisjointManifests(m: ModuleData) {
    && KeysOf(m.systemNs) !! KeysOf(m.cfRootNs) !! KeysOf(m.certIssuers) !! KeysOf(m.gwAPI) !! KeysOf(m.kpack)
  }

  /** The wiring meets what the theorems ask of the two orders. */
  lemma MainOrdersAreSound(m: ModuleData)
    ensures ValidOrder(MainInstallOrder(m))
    ensures Covers(MainUninstallOrder(m), MainInstallOrder(m))
    ensures DisjointManifests(m) ==> PairwiseDisjoint(MainInstallOrder(m))
  {
    var ins, un := MainInstallOrder(m), MainUninstallOrder(m);
    forall i | 0 <= i < |ins| ensures CanInstall(ins[i]) && ins[i] in un {
      assert ins[i] == un[[10, 1, 9, 8, 7, 6, 5, 4, 3, 2][i]];
    }
    if DisjointManifests(m) {
      MainInstallOrderDisjoint(m);
    }
  }

  function Reversed(order: seq<Installable>): seq<Installable> {
    if order == [] then [] else Reversed(order[1..]) + [order[0]]
  }

  /** What is installed last is uninstalled first, but for the root namespace, which goes right after its orgs. */
  lemma MainOrdersMirror(m: ModuleData)
    ensures var ins := MainInstallOrder(m);
            MainUninstallOrder(m) == [Orgs, ins[1]] + Reversed([ins[0]] + ins[2..])
  {
    var ins := MainInstallOrder(m);
    var rest := [ins[0]] + ins[2..];
    assert rest == [Yaml(m.systemNs), Yaml(m.certIssuers), Yaml(m.gwAPI), Contour(m), Yaml(m.kpack),
                    Chart(m, "korifi-prerequisites"), Chart(m, "korifi"), Chart(m, "cfapi-config"), Chart(m, "btp-service-broker")];
    ReversedAt(rest);
    assert forall i :: 0 <= i < 9 ==> Reversed(rest)[i] == MainUninstallOrder(m)[i + 2];
  }

  lemma {:induction false} ReversedAt(order: seq<Installable>)
    ensures |Reversed(order)| == |order| && forall i :: 0 <= i < |order| ==> Reversed(order)[i] == order[|order| - 1 - i]
  {
    if order != [] { ReversedAt(order[1..]); }
  }

  lemma MainInstallOrderDisjoint(m: ModuleData)
    requires DisjointManifests(m)
    ensures PairwiseDisjoint(MainInstallOrder(m))
  {
    var ins := MainInstallOrder(m);
    var names: seq<string> := ["", "", "", "", "contour", "", "korifi-prerequisites", "korifi", "cfapi-config", "btp-service-broker"];
    var keys: seq<set<Key>> := [KeysOf(m.systemNs), KeysOf(m.cfRootNs), KeysOf(m.certIssuers), KeysOf(m.gwAPI), {}, KeysOf(m.kpack), {}, {}, {}, {}];
    forall i | 0 <= i < |ins|
      ensures ObjectKeys(ins[i]) == keys[i] && ReleaseNames(ins[i]) == (if names[i] == "" then {} else {names[i]})
    {
    }
    forall i: nat, j: nat | i < j < |ins| ensures DisjointPair(ins, i, j) {
      assert keys[i] !! keys[j];
      assert names[i] != names[j] || names[i] == "";
    }
  }

  lemma ContourInPlace(m: ModuleData, config: Config, w: World)
    requires InPlace(Contour(m), config, w)
    ensures config.gatewayType == CONTOUR <==> "contour" in H.ShownNames(w.releases)
    ensures "contour" in H.ShownNames(w.releases) ==> w.releases["contour"].status.Deployed?
  {
    if config.gatewayType == CONTOUR {
      assert InPlace(Chart(m, "contour"), config, w);
    } else {
      assert Absent(Chart(m, "contour"), w);
      assert "contour" in ReleaseNames(Chart(m, "contour"));
    }
  }

  /** At every Ready ending, for whatever gateway type the spec asked before, Contour is deployed
      exactly if the committed configuration wants it, and the lookup shows no Contour release otherwise. */
  lemma ContourFollowsGateway(m: ModuleData, uninstallOrder: seq<Installable>, interval: int,
                              o: Object, w: World, l: Lookups, now: int, faults: nat -> Faults)
    requires DisjointManifests(m)
    requires ValidOrder(MainInstallOrder(m))
    ensures var end := Body(Params(MainInstallOrder(m), uninstallOrder, interval), o, w, l, now, faults);
            end.obj.status.state.Ready? ==>
              var config := end.obj.status.config;
              && LegalGateway(config)
              && (config.gatewayType == CONTOUR <==> "contour" in H.ShownNames(end.world.releases))
              && ("contour" in H.ShownNames(end.world.releases) ==> end.world.releases["contour"].status.Deployed?)
  {
    var p := Params(MainInstallOrder(m), uninstallOrder, interval);
    MainOrdersAreSound(m);
    ReadyMeansInstalled(p, o, w, l, now, faults);
    var end := Body(p, o, w, l, now, faults);
    if end.obj.status.state.Ready? {
      assert MainInstallOrder(m)[4] == Contour(m);
      assert InPlaceAt(MainInstallOrder(m), 4, end.obj.status.config, end.world);
      ContourInPlace(m, end.obj.status.config, end.world);
    }
  }
}
