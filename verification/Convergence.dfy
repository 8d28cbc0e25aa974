/** Installing comes to an end: when a CFAPI object becomes Ready, what Ready leaves standing, and when
    reconciling it once more changes nothing in the world. */
module Convergence {
  import opened Prelude
  import opened Types
  import opened Cluster
  import opened Installables
  import opened InstallableFacts
  import opened Controller
  import opened ControllerFacts
  import H = Helm
  import R = Reconcile
  import T = Termination

  // ----- a component sees only what it owns -----

  ghost predicate SameOwn(inst: Installable, w: World, w': World) {
    && (forall k :: k in ObjectKeys(inst) ==>
          (k in w.objects <==> k in w'.objects) && (k in w.objects ==> w.objects[k] == w'.objects[k]))
    && (forall n :: n in ReleaseNames(inst) ==>
          (n in w.releases <==> n in w'.releases) && (n in w.releases ==> w.releases[n] == w'.releases[n]))
  }

  lemma OthersUnseen(other: Installable, inst: Installable, config: Config, w: World, f: Faults)
    requires CanInstall(inst) && Disjoint(other, inst)
    ensures SameOwn(other, w, Install(inst, config, w, f).0)
  {
    AnyInstallTouchesOwn(inst, config, w, f);
  }

  ghost predicate GoodOrder(order: seq<Installable>) {
    ValidOrder(order) && PairwiseDisjoint(order)
  }

  // ----- what Ready leaves standing -----

  /** No object of an enabled component is on its way out. */
  ghost predicate Standing(inst: Installable, config: Config, w: World) {
    match inst
    case Yaml(docs) => forall k :: k in KeysOf(docs) && k in w.objects ==> !w.objects[k].terminating
    case Conditional(enabled, d) => enabled(config) ==> Standing(d, config, w)
    case _ => true
  }

  lemma {:induction false} StandingIsOwn(inst: Installable, config: Config, w: World, w': World)
    requires SameOwn(inst, w, w')
    ensures Standing(inst, config, w) <==> Standing(inst, config, w')
  {
    if inst.Conditional? {
      assert SameOwn(inst.delegate, w, w');
      StandingIsOwn(inst.delegate, config, w, w');
    }
  }

  /** An update keeps a deletion mark, and a new object has none. */
  lemma {:induction false} InstallKeepsStanding(inst: Installable, config: Config, w: World, f: Faults)
    requires CanInstall(inst)
    ensures Standing(inst, config, w) ==> Standing(inst, config, Install(inst, config, w, f).0)
    ensures Install(inst, config, w, f).1.Succeeded() && Standing(inst, config, Install(inst, config, w, f).0) ==>
              Standing(inst, config, w)
  {
    match inst
    case Yaml(docs) => InstalledNotHeld(w.objects, docs, f.docs, 0);
    case Conditional(enabled, d) => if enabled(config) { InstallKeepsStanding(d, config, w, f); }
    case _ =>
  }

  lemma {:induction false} PassKeepsStanding(order: seq<Installable>, config: Config, w: World, faults: nat -> Faults, n: nat)
    requires GoodOrder(order) && n <= |order|
    requires forall i :: 0 <= i < n ==> AnswerAt(order, config, w, faults, i).Succeeded()
    ensures forall i :: 0 <= i < |order| ==>
              (Standing(order[i], config, WorldAfter(order, config, w, faults, n)) <==> Standing(order[i], config, w))
  {
    if n > 0 {
      var before := WorldAfter(order, config, w, faults, n - 1);
      PassKeepsStanding(order, config, w, faults, n - 1);
      assert AnswerAt(order, config, w, faults, n - 1).Succeeded();
      forall i | 0 <= i < |order|
        ensures Standing(order[i], config, WorldAfter(order, config, w, faults, n)) <==> Standing(order[i], config, before)
      {
        if i == n - 1 {
          InstallKeepsStanding(order[i], config, before, faults(i));
        } else {
          DisjointAt(order, i, n - 1);
          OthersUnseen(order[i], order[n - 1], config, before, faults(n - 1));
          StandingIsOwn(order[i], config, before, WorldAfter(order, config, w, faults, n));
        }
      }
    }
  }

  lemma ReadyWorld(p: Params, o: Object, w: World, l: Lookups, now: int, faults: nat -> Faults)
    requires GoodOrder(p.installOrder)
    requires Body(p, o, w, l, now, faults).obj.status.state.Ready?
    ensures AllSucceed(p, o, w, l, faults)
    ensures var end := Body(p, o, w, l, now, faults);
            && Compile(o.spec, l) == Ok(end.obj.status.config)
            && end.world == WorldAfter(p.installOrder, end.obj.status.config, w, faults, |p.installOrder|)
            && AllInPlace(p.installOrder, end.obj.status.config, end.world)
  {
    ReadyMeansInstalled(p, o, w, l, now, faults);
    var config := Compile(o.spec, l).value;
    var n := InstallPassIsPrefix(p.installOrder, config, w, faults);
    if n < |p.installOrder| {
      assert false;
    }
  }

  /** A Ready ending over an object that is being deleted is possible: Ready leaves all enabled components
      standing exactly if none of their objects was being deleted when the reconcile began. */
  lemma ReadyStandsIff(p: Params, o: Object, w: World, l: Lookups, now: int, faults: nat -> Faults)
    requires GoodOrder(p.installOrder)
    requires Body(p, o, w, l, now, faults).obj.status.state.Ready?
    ensures var end := Body(p, o, w, l, now, faults);
            (forall i :: 0 <= i < |p.installOrder| ==> Standing(p.installOrder[i], end.obj.status.config, end.world)) <==>
            (forall i :: 0 <= i < |p.installOrder| ==> Standing(p.installOrder[i], end.obj.status.config, w))
  {
    ReadyWorld(p, o, w, l, now, faults);
    var config := Compile(o.spec, l).value;
    PassKeepsStanding(p.installOrder, config, w, faults, |p.installOrder|);
  }

  // ----- how a healthy component answers -----

  /** The component answers Success at once. */
  ghost predicate Settled(inst: Installable, config: Config, w: World) {
    match inst
    case Yaml(_) => true
    case HelmChart(name, version, values) => Deployable(w, name, version, values(config))
    case Conditional(enabled, d) => if enabled(config) then Settled(d, config, w) else Absent(d, w)
    case Orgs => false
  }

  /** The component can be brought to Success: an enabled chart is not blocked, and of a disabled component
      nothing stays for ever. */
  ghost predicate CanSettle(inst: Installable, config: Config, w: World) {
    match inst
    case Yaml(_) => true
    case HelmChart(name, version, values) => Deployable(w, name, version, values(config))
    case Conditional(enabled, d) => if enabled(config) then CanSettle(d, config, w) else T.Drainable(d, config, w)
    case Orgs => false
  }

  lemma {:induction false} SettledIsOwn(inst: Installable, config: Config, w: World, w': World)
    requires CanInstall(inst) && SameOwn(inst, w, w')
    ensures Settled(inst, config, w) <==> Settled(inst, config, w')
    ensures CanSettle(inst, config, w) <==> CanSettle(inst, config, w')
  {
    if inst.Conditional? {
      var d := inst.delegate;
      assert SameOwn(d, w, w');
      CanInstallNoOrgs(d);
      if inst.enabled(config) { SettledIsOwn(d, config, w, w'); } else { DrainableIsOwn(d, config, w, w'); }
    }
  }

  lemma DrainableIsOwn(d: Installable, config: Config, w: World, w': World)
    requires !HandlesOrgs(d) && SameOwn(d, w, w')
    ensures T.Drainable(d, config, w) <==> T.Drainable(d, config, w')
    ensures Absent(d, w) <==> Absent(d, w')
  {
    forall k | k in ObjectKeys(d) ensures T.BlockedObject(w, k) <==> T.BlockedObject(w', k) { }
    forall n | n in ReleaseNames(d) ensures T.BlockedRelease(w, n) <==> T.BlockedRelease(w', n) { }
  }

  lemma SettledCanSettle(inst: Installable, config: Config, w: World)
    requires CanInstall(inst) && Settled(inst, config, w)
    ensures CanSettle(inst, config, w)
  {
    if inst.Conditional? {
      CanInstallNoOrgs(inst.delegate);
      if inst.enabled(config) { SettledCanSettle(inst.delegate, config, w); } else { T.AbsentIsDrainable(inst.delegate, config, w); }
    }
  }

  ghost predicate HealthyAnswer(a: Answer) {
    a.Done? && !a.result.state.Failed?
  }

  lemma {:induction false} CleanUninstallAnswers(d: Installable, config: Config, w: World, f: Faults)
    requires Clean(f) && !HandlesOrgs(d)
    ensures var (w', a) := Uninstall(d, config, w, f);
            && HealthyAnswer(a)
            && (a.Succeeded() <==> Absent(d, w))
            && (T.Drainable(d, config, w') <==> T.Drainable(d, config, w))
            && (T.Drainable(d, config, w) ==> Absent(d, w'))
  {
    T.CleanUninstallBlocks(d, config, w, f);
    var w' := Uninstall(d, config, w, f).0;
    T.SameBlocksSameDrainable([d], config, w, w');
    assert d in [d];
    assert T.AllDrainable([d], config, w) <==> T.Drainable(d, config, w);
    assert T.AllDrainable([d], config, w') <==> T.Drainable(d, config, w');
    if T.Drainable(d, config, w) { T.CleanUninstallDrains(d, config, w, f); }
    UninstallAnswer(d, config, w, f);
  }

  lemma {:induction false} UninstallAnswer(d: Installable, config: Config, w: World, f: Faults)
    requires Clean(f) && !HandlesOrgs(d)
    ensures var a := Uninstall(d, config, w, f).1;
            HealthyAnswer(a) && (a.Succeeded() <==> Absent(d, w))
  {
    match d
    case Yaml(docs) => YamlUninstallPurges(docs, w, f);
    case Conditional(_, e) =>
      UninstallAnswer(e, config, w, f);
      assert Absent(d, w) <==> Absent(e, w);
    case HelmChart(_, _, _) =>
  }

  lemma {:induction false} HealthyInstall(inst: Installable, config: Config, w: World, f: Faults)
    requires CanInstall(inst) && Healthy(f)
    ensures var (w', a) := Install(inst, config, w, f);
            && HealthyAnswer(a)
            && (a.Succeeded() <==> Settled(inst, config, w))
            && (CanSettle(inst, config, w') <==> CanSettle(inst, config, w))
            && (CanSettle(inst, config, w) ==> Settled(inst, config, w'))
  {
    match inst
    case Yaml(docs) => YamlInstallApplies(docs, w, f);
    case HelmChart(name, version, values) => HelmInstallStep(name, version, values(config), w, f);
    case Conditional(enabled, d) =>
      if enabled(config) {
        HealthyInstall(d, config, w, f);
      } else {
        CanInstallNoOrgs(d);
        CleanUninstallAnswers(d, config, w, f);
      }
  }

  // ----- one healthy pass -----

  ghost predicate AllHealthy(faults: nat -> Faults) {
    forall i :: Healthy(faults(i))
  }

  /** Where each component stands after the first `n` were installed. */
  ghost predicate Progress(inst: Installable, config: Config, w: World, wn: World, visited: bool) {
    && (CanSettle(inst, config, wn) <==> CanSettle(inst, config, w))
    && (visited && CanSettle(inst, config, w) ==> Settled(inst, config, wn))
    && (!visited ==> (Settled(inst, config, wn) <==> Settled(inst, config, w)))
  }

  lemma ProgressStep(inst: Installable, next: Installable, same: bool, config: Config, w: World, before: World, f: Faults, visited: bool)
    requires CanInstall(inst) && CanInstall(next) && Healthy(f) && Progress(inst, config, w, before, visited)
    requires if same then inst == next && !visited else Disjoint(inst, next)
    ensures Progress(inst, config, w, Install(next, config, before, f).0, visited || same)
  {
    if same {
      HealthyInstall(inst, config, before, f);
    } else {
      OthersUnseen(inst, next, config, before, f);
      SettledIsOwn(inst, config, before, Install(next, config, before, f).0);
    }
  }

  lemma {:induction false} HealthyPass(order: seq<Installable>, config: Config, w: World, faults: nat -> Faults, n: nat)
    requires GoodOrder(order) && AllHealthy(faults) && n <= |order|
    ensures forall i :: 0 <= i < |order| ==> Progress(order[i], config, w, WorldAfter(order, config, w, faults, n), i < n)
  {
    if n > 0 {
      var before := WorldAfter(order, config, w, faults, n - 1);
      HealthyPass(order, config, w, faults, n - 1);
      forall i | 0 <= i < |order|
        ensures Progress(order[i], config, w, WorldAfter(order, config, w, faults, n), i < n)
      {
        assert Progress(order[i], config, w, before, i < n - 1);
        if i != n - 1 { DisjointAt(order, i, n - 1); }
        ProgressStep(order[i], order[n - 1], i == n - 1, config, w, before, faults(n - 1), i < n - 1);
      }
    }
  }

  ghost predicate AllSettled(order: seq<Installable>, config: Config, w: World) {
    forall i :: 0 <= i < |order| ==> Settled(order[i], config, w)
  }

  ghost predicate AllCanSettle(order: seq<Installable>, config: Config, w: World) {
    forall i :: 0 <= i < |order| ==> CanSettle(order[i], config, w)
  }

  lemma HealthyAnswers(order: seq<Installable>, config: Config, w: World, faults: nat -> Faults, i: nat)
    requires GoodOrder(order) && AllHealthy(faults) && i < |order|
    ensures HealthyAnswer(AnswerAt(order, config, w, faults, i))
    ensures AnswerAt(order, config, w, faults, i).Succeeded() <==> Settled(order[i], config, w)
  {
    HealthyPass(order, config, w, faults, i);
    var before := WorldAfter(order, config, w, faults, i);
    assert Progress(order[i], config, w, before, false);
    HealthyInstall(order[i], config, before, faults(i));
  }

  ghost predicate AllAnswered(order: seq<Installable>, config: Config, w: World, faults: nat -> Faults)
    requires ValidOrder(order)
  {
    forall i :: 0 <= i < |order| ==> HealthyAnswer(AnswerAt(order, config, w, faults, i))
  }

  lemma HealthyPassAnswers(order: seq<Installable>, config: Config, w: World, faults: nat -> Faults)
    requires GoodOrder(order) && AllHealthy(faults)
    ensures AllAnswered(order, config, w, faults)
    ensures (forall i :: 0 <= i < |order| ==> AnswerAt(order, config, w, faults, i).Succeeded()) <==> AllSettled(order, config, w)
  {
    forall i | 0 <= i < |order| { HealthyAnswers(order, config, w, faults, i); }
  }

  lemma AnsweredPassEnds(order: seq<Installable>, config: Config, w: World, faults: nat -> Faults)
    requires ValidOrder(order) && AllAnswered(order, config, w, faults)
    ensures var (w', r) := InstallFrom(order, config, w, faults, []);
            && w' == WorldAfter(order, config, w, faults, |order|)
            && r.Ok? && r.value != []
            && (Aggregate(r.value).state.Success? <==>
                  forall i :: 0 <= i < |order| ==> AnswerAt(order, config, w, faults, i).Succeeded())
            && !Aggregate(r.value).state.Failed?
  {
    var n := InstallPassIsPrefix(order, config, w, faults);
    if n < |order| {
      assert false;
    } else {
      var rs := InstallFrom(order, config, w, faults, []).1.value;
      var k := AggregateIsEarliestWorst(rs);
      assert AnswerAt(order, config, w, faults, k) == Done(rs[k]);
    }
  }

  lemma HealthyPassEnds(order: seq<Installable>, config: Config, w: World, faults: nat -> Faults)
    requires GoodOrder(order) && AllHealthy(faults)
    ensures var (w', r) := InstallFrom(order, config, w, faults, []);
            && w' == WorldAfter(order, config, w, faults, |order|)
            && r.Ok? && r.value != []
            && (Aggregate(r.value).state.Success? <==> AllSettled(order, config, w))
            && !Aggregate(r.value).state.Failed?
            && (AllCanSettle(order, config, w') <==> AllCanSettle(order, config, w))
            && (AllCanSettle(order, config, w) ==> AllSettled(order, config, w'))
  {
    HealthyPassAnswers(order, config, w, faults);
    AnsweredPassEnds(order, config, w, faults);
    HealthyPass(order, config, w, faults, |order|);
    ProgressOfAll(order, config, w, WorldAfter(order, config, w, faults, |order|));
  }

  lemma ProgressOfAll(order: seq<Installable>, config: Config, w: World, w': World)
    requires forall i :: 0 <= i < |order| ==> Progress(order[i], config, w, w', true)
    ensures AllCanSettle(order, config, w') <==> AllCanSettle(order, config, w)
    ensures AllCanSettle(order, config, w) ==> AllSettled(order, config, w')
  {
    forall i | 0 <= i < |order|
      ensures CanSettle(order[i], config, w') <==> CanSettle(order[i], config, w)
      ensures CanSettle(order[i], config, w) ==> Settled(order[i], config, w')
    {
      assert Progress(order[i], config, w, w', true);
    }
  }

  // ----- reconcile after reconcile -----

  ghost predicate HealthyEnv(p: Params, o: Object, config: Config, e: R.Env) {
    R.Undisturbed(e) && AllHealthy(e.faults) && Compile(o.spec, e.lookups) == Ok(config)
  }

  /** Nobody else acts on the world. */
  ghost predicate HealthyCall(p: Params, o: Object, config: Config, c: T.Call) {
    HealthyEnv(p, o, config, c.env) && forall w :: c.others(w) == w
  }

  /** The object as it was asked for, whatever its status. */
  predicate SameRequest(o: Object, o': Object) {
    o'.spec == o.spec && !o'.deleting
  }

  /** One call: Ready exactly if every component is settled, and otherwise asks to be repeated. */
  lemma InstallCall(p: Params, o: Object, config: Config, w: World, e: R.Env)
    requires GoodOrder(p.installOrder) && HealthyEnv(p, o, config, e) && !o.deleting
    ensures var r := R.ReconcileOnce(p, Some(o), w, e);
            && r.server.Some? && SameRequest(o, r.server.value) && r.error.None?
            && (r.server.value.status.state.Ready? <==> AllSettled(p.installOrder, config, w))
            && r.result == (if AllSettled(p.installOrder, config, w) then EMPTY else After(p.interval))
            && (AllCanSettle(p.installOrder, config, r.world) <==> AllCanSettle(p.installOrder, config, w))
            && (AllCanSettle(p.installOrder, config, w) ==> AllSettled(p.installOrder, config, r.world))
  {
    var end := Body(p, o, w, e.lookups, e.now, e.faults);
    HealthyPassEnds(p.installOrder, config, w, e.faults);
    R.BodyKeepsIdentity(p, o, w, e.lookups, e.now, e.faults);
    R.UndisturbedCommit(o, end.obj, e);
  }

  predicate ReadyAt(p: Params, o: Object, w: World, calls: nat -> T.Call, n: nat)
    requires ValidOrder(p.installOrder)
  {
    var r := T.ReplyAt(p, o, w, calls, n);
    r.server.Some? && r.server.value.status.state.Ready? && r.error.None? && r.result == EMPTY
  }

  predicate AsksAgainAt(p: Params, o: Object, w: World, calls: nat -> T.Call, n: nat)
    requires ValidOrder(p.installOrder)
  {
    var r := T.ReplyAt(p, o, w, calls, n);
    r.server.Some? && !r.server.value.status.state.Ready? && r.error.None? && r.result == After(p.interval)
  }

  ghost predicate ServedWell(p: Params, o: Object, config: Config, w: World, server: Option<Object>, world: World, n: nat)
  {
    && server.Some? && SameRequest(o, server.value)
    && (AllCanSettle(p.installOrder, config, world) <==> AllCanSettle(p.installOrder, config, w))
    && (n > 0 && AllCanSettle(p.installOrder, config, w) ==> AllSettled(p.installOrder, config, world))
  }

  lemma ServedWellAtFirst(p: Params, o: Object, config: Config, w: World)
    requires !o.deleting
    ensures ServedWell(p, o, config, w, Some(o), w, 0)
  {
  }

  lemma ServedWellNext(p: Params, o: Object, config: Config, w: World, server: Option<Object>, world: World, e: R.Env, n: nat)
    requires GoodOrder(p.installOrder) && HealthyEnv(p, o, config, e)
    requires ServedWell(p, o, config, w, server, world, n)
    ensures var r := R.ReconcileOnce(p, server, world, e); ServedWell(p, o, config, w, r.server, r.world, n + 1)
  {
    InstallCall(p, server.value, config, world, e);
  }

  lemma InstallServed(p: Params, o: Object, config: Config, w: World, calls: nat -> T.Call, n: nat)
    requires GoodOrder(p.installOrder) && !o.deleting && forall i :: HealthyCall(p, o, config, calls(i))
    ensures WellAt(p, o, config, w, calls, n)
  {
    var q := (i: nat) => WellAt(p, o, config, w, calls, i);
    WellAtFirst(p, o, config, w, calls);
    forall i: nat | i < n && q(i) ensures q(i + 1) {
      assert HealthyCall(p, o, config, calls(i));
      WellAtNext(p, o, config, w, calls, i);
    }
    StepByStep(q, n);
  }

  ghost predicate WellAt(p: Params, o: Object, config: Config, w: World, calls: nat -> T.Call, n: nat)
    requires ValidOrder(p.installOrder)
  {
    var served := T.Served(p, o, w, calls, n);
    ServedWell(p, o, config, w, served.0, served.1, n)
  }

  lemma WellAtFirst(p: Params, o: Object, config: Config, w: World, calls: nat -> T.Call)
    requires ValidOrder(p.installOrder) && !o.deleting
    ensures WellAt(p, o, config, w, calls, 0)
  {
    ServedWellAtFirst(p, o, config, w);
  }

  lemma WellAtNext(p: Params, o: Object, config: Config, w: World, calls: nat -> T.Call, n: nat)
    requires GoodOrder(p.installOrder) && HealthyCall(p, o, config, calls(n)) && WellAt(p, o, config, w, calls, n)
    ensures WellAt(p, o, config, w, calls, n + 1)
  {
    var served := T.Served(p, o, w, calls, n);
    ServedWellNext(p, o, config, w, served.0, served.1, calls(n).env, n);
    T.ServedNext(p, o, w, calls, n);
  }

  lemma AllSettledCanSettle(order: seq<Installable>, config: Config, w: World)
    requires ValidOrder(order) && AllSettled(order, config, w)
    ensures AllCanSettle(order, config, w)
  {
    forall i | 0 <= i < |order| ensures CanSettle(order[i], config, w) { SettledCanSettle(order[i], config, w); }
  }

  lemma InstallReply(p: Params, o: Object, config: Config, w: World, calls: nat -> T.Call, n: nat)
    requires GoodOrder(p.installOrder) && !o.deleting && forall i :: HealthyCall(p, o, config, calls(i))
    ensures ReadyAt(p, o, w, calls, n) || AsksAgainAt(p, o, w, calls, n)
    ensures n > 0 && AllCanSettle(p.installOrder, config, w) ==> ReadyAt(p, o, w, calls, n)
    ensures !AllCanSettle(p.installOrder, config, w) ==> AsksAgainAt(p, o, w, calls, n)
  {
    InstallServed(p, o, config, w, calls, n);
    var (server, world) := T.Served(p, o, w, calls, n);
    assert HealthyCall(p, o, config, calls(n));
    InstallCall(p, server.value, config, world, calls(n).env);
    if AllSettled(p.installOrder, config, world) { AllSettledCanSettle(p.installOrder, config, world); }
  }

  /** Left alone with a healthy cluster and a spec that compiles to the same configuration, an object becomes
      Ready if and only if every enabled chart can be deployed and nothing of a disabled component is
      blocked; then it is Ready after the second call at the latest and stays so, and otherwise every
      call there will ever be asks for another. */
  lemma ReadyReachedIff(p: Params, o: Object, config: Config, w: World, calls: nat -> T.Call)
    requires GoodOrder(p.installOrder) && !o.deleting && forall i :: HealthyCall(p, o, config, calls(i))
    ensures AllCanSettle(p.installOrder, config, w) ==> forall n: nat :: n >= 1 ==> ReadyAt(p, o, w, calls, n)
    ensures !AllCanSettle(p.installOrder, config, w) ==> forall n: nat :: AsksAgainAt(p, o, w, calls, n)
  {
    forall n: nat
      ensures n >= 1 && AllCanSettle(p.installOrder, config, w) ==> ReadyAt(p, o, w, calls, n)
      ensures !AllCanSettle(p.installOrder, config, w) ==> AsksAgainAt(p, o, w, calls, n)
    {
      InstallReply(p, o, config, w, calls, n);
    }
  }

  // ----- once more after Ready -----

  /** No key is listed with two different bodies. */
  predicate Consistent(docs: seq<Doc>) {
    forall i, j :: 0 <= i < |docs| && 0 <= j < |docs| && docs[i].key == docs[j].key ==> docs[i].body == docs[j].body
  }

  /** Installing the component over itself changes nothing: its manifest does not contradict itself, its chart
      holds the values that are asked for. */
  ghost predicate Repeatable(inst: Installable, config: Config, w: World) {
    match inst
    case Yaml(docs) => Consistent(docs)
    case HelmChart(name, _, values) => name in w.releases && H.EqualValues(w.releases[name].values, values(config))
    case Conditional(enabled, d) => enabled(config) ==> Repeatable(d, config, w)
    case Orgs => true
  }

  /** Nothing is lost, and no version or revision goes back. */
  ghost predicate Grown(w: World, w': World) {
    && (forall k :: k in w.objects ==> k in w'.objects && w.objects[k].version <= w'.objects[k].version)
    && (forall n :: n in w.releases ==> n in w'.releases && w.releases[n].revision <= w'.releases[n].revision)
  }

  ghost predicate MovedOn(w: World, w': World) {
    || (exists k :: k in w.objects && k in w'.objects && w.objects[k].version < w'.objects[k].version)
    || (exists n :: n in w.releases && n in w'.releases && w.releases[n].revision < w'.releases[n].revision)
  }

  lemma MovedOnStays(w0: World, w1: World, w2: World)
    requires Grown(w1, w2) && MovedOn(w0, w1)
    ensures MovedOn(w0, w2)
  {
    if k :| k in w0.objects && k in w1.objects && w0.objects[k].version < w1.objects[k].version {
      assert k in w2.objects && w0.objects[k].version < w2.objects[k].version;
    } else {
      var n :| n in w0.releases && n in w1.releases && w0.releases[n].revision < w1.releases[n].revision;
      assert n in w2.releases && w0.releases[n].revision < w2.releases[n].revision;
    }
  }

  lemma {:induction false} ApplyDocsGrow(objs: Objects, docs: seq<Doc>, faults: nat -> DocFault, i: nat, k: Key)
    requires i <= |docs| && k in objs && forall j :: faults(j) == Fine
    ensures var objs' := ApplyDocs(objs, docs, faults, i).0;
            && k in objs' && objs[k].version <= objs'[k].version
            && ((exists j :: i <= j < |docs| && docs[j].key == k && docs[j].body != objs[k].body) ==>
                  objs[k].version < objs'[k].version)
    decreases |docs| - i
  {
    if i < |docs| {
      var next := ApplyDoc(objs, docs[i], faults(i)).value;
      ApplyDocsGrow(next, docs, faults, i + 1, k);
      if j :| i <= j < |docs| && docs[j].key == k && docs[j].body != objs[k].body {
        if docs[i].key != k || docs[i].body == objs[k].body {
          assert next[k] == objs[k] && j > i;
        }
      }
    }
  }

  lemma {:induction false} ApplyDocsAgain(objs: Objects, docs: seq<Doc>, faults: nat -> DocFault, i: nat)
    requires i <= |docs| && forall j :: faults(j) == Fine
    requires forall j :: i <= j < |docs| ==> docs[j].key in objs && objs[docs[j].key].body == docs[j].body
    ensures ApplyDocs(objs, docs, faults, i).0 == objs
    decreases |docs| - i
  {
    if i < |docs| {
      assert Updated(objs, docs[i].key, docs[i].body) == objs;
      ApplyDocsAgain(objs, docs, faults, i + 1);
    }
  }

  /** In a consistent manifest every listing is the last one. */
  lemma {:induction false} LastBodyIsListed(docs: seq<Doc>, k: Key) returns (j: nat)
    requires k in KeysOf(docs)
    ensures j < |docs| && docs[j].key == k && docs[j].body == LastBody(docs, k)
  {
    var last := |docs| - 1;
    if docs[last].key == k {
      j := last;
    } else {
      assert k in KeysOf(docs[..last]) by { var d :| d in docs && d.key == k; assert d in docs[..last]; }
      j := LastBodyIsListed(docs[..last], k);
    }
  }

  lemma YamlAgain(docs: seq<Doc>, config: Config, w: World, f: Faults)
    requires InPlace(Yaml(docs), config, w) && Healthy(f)
    ensures var w' := YamlInstall(docs, w, f).0;
            && Grown(w, w')
            && (Consistent(docs) ==> w' == w)
            && (!Consistent(docs) ==> MovedOn(w, w'))
  {
    var w' := YamlInstall(docs, w, f).0;
    forall k | k in w.objects { ApplyDocsGrow(w.objects, docs, f.docs, 0, k); }
    if Consistent(docs) {
      forall j | 0 <= j < |docs| ensures docs[j].key in w.objects && w.objects[docs[j].key].body == docs[j].body {
        assert docs[j] in docs;
        var last := LastBodyIsListed(docs, docs[j].key);
      }
      ApplyDocsAgain(w.objects, docs, f.docs, 0);
    } else {
      var i, j :| 0 <= i < |docs| && 0 <= j < |docs| && docs[i].key == docs[j].key && docs[i].body != docs[j].body;
      var k := docs[i].key;
      assert docs[i] in docs && k in KeysOf(docs);
      ApplyDocsGrow(w.objects, docs, f.docs, 0, k);
      var other := if docs[i].body != w.objects[k].body then i else j;
      assert docs[other].key == k && docs[other].body != w.objects[k].body;
      assert w.objects[k].version < w'.objects[k].version;
    }
  }

  lemma ChartAgain(chart: Installable, config: Config, w: World, f: Faults)
    requires chart.HelmChart? && InPlace(chart, config, w) && Healthy(f)
    ensures var w' := Install(chart, config, w, f).0;
            && Grown(w, w')
            && (Repeatable(chart, config, w) ==> w' == w)
            && (!Repeatable(chart, config, w) ==> MovedOn(w, w'))
  {
    var HelmChart(name, version, values) := chart;
    var w' := Install(chart, config, w, f).0;
    ApplyKeepsOthers(w.releases, name, version, values(config), f.helm);
    if !Repeatable(chart, config, w) {
      assert w'.releases[name].revision == w.releases[name].revision + 1;
    }
  }

  lemma {:induction false} AbsentAgain(d: Installable, config: Config, w: World, f: Faults)
    requires Absent(d, w) && Clean(f) && !HandlesOrgs(d)
    ensures Uninstall(d, config, w, f).0 == w
  {
    match d
    case Yaml(docs) =>
      YamlUninstallPurges(docs, w, f);
      assert Purged(w.objects, KeysOf(docs)) == w.objects;
      assert docs[..FirstFault(docs, f.docs, 0)] == docs;
    case Conditional(_, e) =>
      assert Absent(e, w);
      AbsentAgain(e, config, w, f);
    case HelmChart(name, _, _) => assert name in ReleaseNames(d);
  }

  lemma {:induction false} InstallAgain(inst: Installable, config: Config, w: World, f: Faults)
    requires CanInstall(inst) && InPlace(inst, config, w) && Healthy(f)
    ensures Settled(inst, config, w)
    ensures var w' := Install(inst, config, w, f).0;
            && Grown(w, w')
            && (Repeatable(inst, config, w) ==> w' == w)
            && (!Repeatable(inst, config, w) ==> MovedOn(w, w'))
  {
    match inst
    case Yaml(docs) => YamlAgain(docs, config, w, f);
    case HelmChart(_, _, _) => ChartAgain(inst, config, w, f);
    case Conditional(enabled, d) =>
      if enabled(config) {
        InstallAgain(d, config, w, f);
      } else {
        CanInstallNoOrgs(d);
        AbsentAgain(d, config, w, f);
      }
  }

  ghost predicate AllRepeatable(order: seq<Installable>, config: Config, w: World) {
    forall i :: 0 <= i < |order| ==> Repeatable(order[i], config, w)
  }

  lemma StaysAllInPlace(order: seq<Installable>, config: Config, w: World, f: Faults, k: nat)
    requires GoodOrder(order) && k < |order| && AllInPlace(order, config, w) && Healthy(f)
    ensures AllInPlace(order, config, Install(order[k], config, w, f).0)
  {
    var w' := Install(order[k], config, w, f).0;
    assert InPlaceAt(order, k, config, w);
    InstallAgain(order[k], config, w, f);
    HealthyInstall(order[k], config, w, f);
    forall i: nat | i < |order| ensures InPlaceAt(order, i, config, w') {
      assert InPlaceAt(order, i, config, w);
      if i == k {
        InstallSuccessMeansInPlace(order[k], config, w, f);
      } else {
        DisjointAt(order, i, k);
        NextKeepsInPlace(order[i], order[k], config, w, f);
      }
    }
  }

  lemma WorldAfterNext(order: seq<Installable>, config: Config, w: World, faults: nat -> Faults, n: nat)
    requires ValidOrder(order) && n < |order|
    ensures WorldAfter(order, config, w, faults, n + 1) ==
            Install(order[n], config, WorldAfter(order, config, w, faults, n), faults(n)).0
  {
  }

  lemma {:induction false} PassKeepsAllInPlace(order: seq<Installable>, config: Config, w: World, faults: nat -> Faults, n: nat)
    requires GoodOrder(order) && AllInPlace(order, config, w) && AllHealthy(faults) && n <= |order|
    ensures AllInPlace(order, config, WorldAfter(order, config, w, faults, n))
  {
    if n > 0 {
      PassKeepsAllInPlace(order, config, w, faults, n - 1);
      StaysAllInPlace(order, config, WorldAfter(order, config, w, faults, n - 1), faults(n - 1), n - 1);
      WorldAfterNext(order, config, w, faults, n - 1);
    }
  }

  /** The outcome so far: the same world, or one that has moved on for good. */
  ghost predicate MovedUnless(same: bool, w: World, wn: World) {
    if same then wn == w else MovedOn(w, wn)
  }

  /** Step `i` of a sequence of worlds loses nothing, and moves on from the first of them unless it repeats. */
  ghost predicate MovesAt(ws: nat -> World, repeats: nat -> bool, i: nat) {
    && Grown(ws(i), ws(i + 1))
    && (ws(i) == ws(0) ==> MovedUnless(repeats(i), ws(0), ws(i + 1)))
  }

  predicate RepeatsUpTo(repeats: nat -> bool, n: nat) {
    forall i: nat :: i < n ==> repeats(i)
  }

  lemma {:induction false} MovesAlong(ws: nat -> World, repeats: nat -> bool, n: nat)
    requires forall i: nat :: i < n ==> MovesAt(ws, repeats, i)
    ensures MovedUnless(RepeatsUpTo(repeats, n), ws(0), ws(n))
  {
    if n > 0 {
      MovesAlong(ws, repeats, n - 1);
      assert MovesAt(ws, repeats, n - 1);
      if !RepeatsUpTo(repeats, n - 1) { MovedOnStays(ws(0), ws(n - 1), ws(n)); }
    }
  }

  lemma MovesNext(order: seq<Installable>, config: Config, w: World, faults: nat -> Faults, n: nat)
    requires GoodOrder(order) && AllInPlace(order, config, w) && AllHealthy(faults) && n < |order|
    ensures var before, after := WorldAfter(order, config, w, faults, n), WorldAfter(order, config, w, faults, n + 1);
            && Grown(before, after)
            && (before == w ==> MovedUnless(Repeatable(order[n], config, w), w, after))
  {
    PassKeepsAllInPlace(order, config, w, faults, n);
    assert InPlaceAt(order, n, config, WorldAfter(order, config, w, faults, n));
    InstallAgain(order[n], config, WorldAfter(order, config, w, faults, n), faults(n));
    WorldAfterNext(order, config, w, faults, n);
  }

  lemma PassAgain(order: seq<Installable>, config: Config, w: World, faults: nat -> Faults)
    requires GoodOrder(order) && AllInPlace(order, config, w) && AllHealthy(faults)
    ensures MovedUnless(AllRepeatable(order, config, w), w, WorldAfter(order, config, w, faults, |order|))
  {
    var ws := (i: nat) => if i <= |order| then WorldAfter(order, config, w, faults, i) else w;
    ghost var repeats := (i: nat) => i < |order| ==> Repeatable(order[i], config, w);
    forall i: nat | i < |order| ensures MovesAt(ws, repeats, i) {
      MovesNext(order, config, w, faults, i);
      assert ws(0) == w && ws(i) == WorldAfter(order, config, w, faults, i) && ws(i + 1) == WorldAfter(order, config, w, faults, i + 1);
    }
    MovesAlong(ws, repeats, |order|);
    RepeatsAll(order, config, w, repeats);
  }

  lemma RepeatsAll(order: seq<Installable>, config: Config, w: World, repeats: nat -> bool)
    requires forall i: nat :: i < |order| ==> (repeats(i) <==> Repeatable(order[i], config, w))
    ensures RepeatsUpTo(repeats, |order|) <==> AllRepeatable(order, config, w)
  {
    forall i: nat | i < |order| && !Repeatable(order[i], config, w) ensures !repeats(i) { }
  }

  lemma MovedOnIsChanged(w: World, w': World)
    requires MovedOn(w, w')
    ensures w != w'
  {
  }

  /** Two passes that both end in success leave the same object. */
  lemma SameReadyObject(p: Params, o: Object, l: Lookups, w: World, now: int, faults: nat -> Faults,
                        w': World, later: int, faults': nat -> Faults)
    requires ValidOrder(p.installOrder) && Body(p, o, w, l, now, faults).obj.status.state.Ready?
    requires var first := Body(p, o, w, l, now, faults).obj; AllSucceed(p, first, w', l, faults')
    ensures var first := Body(p, o, w, l, now, faults).obj;
            Body(p, first, w', l, later, faults').obj == first
  {
    var first := Body(p, o, w, l, now, faults).obj;
    var config := Compile(o.spec, l).value;
    var rs := InstallFrom(p.installOrder, config, w, faults, []).1;
    InstallFromLength(p.installOrder, config, w, faults, []);
    var r := Aggregate(rs.value);
    var n := InstallPassIsPrefix(p.installOrder, config, w', faults');
    if n < |p.installOrder| {
      assert false;
    } else {
      var rs' := InstallFrom(p.installOrder, config, w', faults', []).1.value;
      var i := AggregateIsEarliestWorst(rs');
      assert AnswerAt(p.installOrder, config, w', faults', i).Succeeded();
      InstallEndingAgain(o, config, r, now, later);
      SuccessHasNoMessage(Accepted(Begin(first), config, later), r, Aggregate(rs'), later);
    }
  }

  lemma SuccessHasNoMessage(o: Object, r: Report, r': Report, now: int)
    requires r.state.Success? && r'.state.Success?
    ensures ApplyInstallResult(o, r, now) == ApplyInstallResult(o, r', now)
  {
  }

  /** After a Ready ending, a second body over a healthy cluster leaves the object as it is, transition times
      included. It leaves the world as it is exactly if no enabled manifest lists a key with two different
      bodies and every enabled chart holds the values that are asked for. */
  lemma SecondBodyChangesNothingIff(p: Params, o: Object, w: World, l: Lookups, now: int, faults: nat -> Faults,
                                    later: int, faults': nat -> Faults)
    requires GoodOrder(p.installOrder) && AllHealthy(faults')
    requires Body(p, o, w, l, now, faults).obj.status.state.Ready?
    ensures var first := Body(p, o, w, l, now, faults);
            var second := Body(p, first.obj, first.world, l, later, faults');
            && second.obj == first.obj
            && (second.world == first.world <==>
                  AllRepeatable(p.installOrder, first.obj.status.config, first.world))
  {
    var first := Body(p, o, w, l, now, faults);
    var order, config, n := p.installOrder, first.obj.status.config, |p.installOrder|;
    ReadyWorld(p, o, w, l, now, faults);
    R.BodyKeepsIdentity(p, o, w, l, now, faults);
    forall i | 0 <= i < n ensures AnswerAt(order, config, first.world, faults', i).Succeeded() {
      assert InPlaceAt(order, i, config, first.world);
      InstallAgain(order[i], config, first.world, faults'(i));
      HealthyAnswers(order, config, first.world, faults', i);
    }
    SameReadyObject(p, o, l, w, now, faults, first.world, later, faults');
    HealthyPassEnds(order, config, first.world, faults');
    PassAgain(order, config, first.world, faults');
    var second := Body(p, first.obj, first.world, l, later, faults');
    assert second.world == WorldAfter(order, config, first.world, faults', n);
    if !AllRepeatable(order, config, first.world) { MovedOnIsChanged(first.world, second.world); }
  }

  // ----- for one -----

  lemma YamlOrder(docs: seq<Doc>)
    ensures GoodOrder([Yaml(docs)])
  {
    assert forall inst :: inst in [Yaml(docs)] ==> inst == Yaml(docs);
  }

  /** A manifest alone is installed by every healthy body. */
  lemma YamlAloneIsReady(docs: seq<Doc>, interval: int, o: Object, w: World, l: Lookups, now: int, faults: nat -> Faults)
    requires !o.deleting && Compile(o.spec, l).Ok? && AllHealthy(faults)
    ensures GoodOrder([Yaml(docs)])
    ensures var end := Body(Params([Yaml(docs)], [], interval), o, w, l, now, faults);
            end.obj.status.state.Ready? && Compile(o.spec, l) == Ok(end.obj.status.config)
  {
    var p := Params([Yaml(docs)], [], interval);
    YamlOrder(docs);
    HealthyPassEnds(p.installOrder, Compile(o.spec, l).value, w, faults);
    ReadyMeansInstalled(p, o, w, l, now, faults);
  }

  /** A manifest object that is being deleted and that something holds: the reconcile ends Ready over it. */
  lemma ReadyOverDeletedObject(d: Doc, interval: int, o: Object, l: Lookups, now: int, faults: nat -> Faults)
    requires !o.deleting && Compile(o.spec, l).Ok? && AllHealthy(faults)
    ensures GoodOrder([Yaml([d])])
    ensures var w := World(map[d.key := Stored(d.body, 1, true, true)], map[], None);
            var end := Body(Params([Yaml([d])], [], interval), o, w, l, now, faults);
            end.obj.status.state.Ready? && !Standing(Yaml([d]), end.obj.status.config, end.world)
  {
    var w := World(map[d.key := Stored(d.body, 1, true, true)], map[], None);
    var p := Params([Yaml([d])], [], interval);
    YamlAloneIsReady([d], interval, o, w, l, now, faults);
    ReadyStandsIff(p, o, w, l, now, faults);
    var config := Compile(o.spec, l).value;
    assert d in [d] && d.key in KeysOf([d]);
    assert !Standing(p.installOrder[0], config, w);
    var end := Body(p, o, w, l, now, faults);
    assert exists i :: 0 <= i < |p.installOrder| && !Standing(p.installOrder[i], config, end.world);
  }

  /** A manifest that lists a key with two bodies: reconciling the Ready object again writes to the world. */
  lemma ContradictoryManifestIsRewritten(key: Key, a: string, b: string, interval: int, o: Object, w: World, l: Lookups,
                                         now: int, faults: nat -> Faults, later: int, faults': nat -> Faults)
    requires a != b && !o.deleting && Compile(o.spec, l).Ok? && AllHealthy(faults) && AllHealthy(faults')
    ensures GoodOrder([Yaml([Doc(key, a), Doc(key, b)])])
    ensures var p := Params([Yaml([Doc(key, a), Doc(key, b)])], [], interval);
            var first := Body(p, o, w, l, now, faults);
            first.obj.status.state.Ready? && Body(p, first.obj, first.world, l, later, faults').world != first.world
  {
    var docs := [Doc(key, a), Doc(key, b)];
    var p := Params([Yaml(docs)], [], interval);
    YamlAloneIsReady(docs, interval, o, w, l, now, faults);
    SecondBodyChangesNothingIff(p, o, w, l, now, faults, later, faults');
    assert docs[0].key == docs[1].key && docs[0].body != docs[1].body;
    assert !Repeatable(p.installOrder[0], Compile(o.spec, l).value, Body(p, o, w, l, now, faults).world);
  }
}
