/** Runs of the protocol in which something promised does not hold, for any wiring of the controller. */
module Runs {
  import opened Prelude
  import opened Types
  import opened Cluster
  import opened Installables
  import opened InstallableFacts
  import opened Protocol
  import opened Solo
  import C = Controller
  import CF = ControllerFacts
  import A = ApiServer
  import S = Safety
  import H = Helm
  import T = Termination

  lemma ExecThree(p: C.Params, s: Sys, a: Step, b: Step, c: Step)
    requires C.ValidOrder(p.installOrder)
    ensures Exec(p, s, [a, b, c]) == Next(p, Next(p, Next(p, s, a), b), c)
  {
    assert [a, b, c] == [a] + ([b] + ([c] + []));
    ExecCons(p, s, a, [b] + ([c] + []));
    ExecCons(p, Next(p, s, a), b, [c] + []);
    ExecCons(p, Next(p, Next(p, s, a), b), c, []);
  }

  /** The steps of a whole install pass and of what follows it. */
  function Installs(p: C.Params, faults: nat -> Faults): seq<Step> {
    InstallSteps(faults, 0, |p.installOrder|) + [InstallDone(0)]
  }

  // ----- components left behind -----

  /** Created, installed, the main patch, a crash before the status patch, deleted, finalized. */
  function LeakRun(p: C.Params, spec: Spec, l: C.Lookups, faults: nat -> Faults): seq<Step> {
    [UserCreate(spec, []), Read, Begin(l, 0)] + (Installs(p, faults)
      + ([PatchMain(false), Crash, UserDelete(false)] + [Read, Begin(l, 1), PatchMain(false)]))
  }

  lemma LeakBegins(p: C.Params, w: World, spec: Spec, l: C.Lookups)
    requires C.ValidOrder(p.installOrder) && C.Compile(spec, l).Ok?
    ensures var o := Object(0, 1, false, [], spec, NEW_STATUS);
            var local := C.Accepted(C.Begin(o), C.Compile(spec, l).value, 0);
            && Exec(p, Init(w), [UserCreate(spec, []), Read, Begin(l, 0)]) ==
               Sys(Some(o), Installing(o, local, []), w, 1, map[], map[])
            && local.finalizers == [FINALIZER]
  {
    ExecThree(p, Init(w), UserCreate(spec, []), Read, Begin(l, 0));
  }

  lemma LeakInstalls(p: C.Params, s: Sys, faults: nat -> Faults)
    requires C.ValidOrder(p.installOrder) && s.ctl.Installing? && s.ctl.results == []
    ensures var t := Exec(p, s, Installs(p, faults));
            && InstallsAs(p, s, t, faults, 0)
            && t.ctl.local.finalizers == s.ctl.local.finalizers
  {
    InstallRun(p, s, faults, 0);
    var r := C.InstallFrom(p.installOrder, Cfg(s.ctl.local), s.world, faults, []).1;
    if r.Ok? { ResultKeepsFinalizers(s.ctl.local, C.Aggregate(r.value)); }
  }

  lemma ResultKeepsFinalizers(o: Object, r: Report)
    ensures C.ApplyInstallResult(o, r, 0).finalizers == o.finalizers
  {
  }

  lemma LeakCrashes(p: C.Params, s: Sys)
    requires C.ValidOrder(p.installOrder)
    requires s.ctl.Committing? && s.server == Some(s.ctl.original)
    requires s.ctl.original.finalizers == [] && s.ctl.local.finalizers == [FINALIZER] && !s.ctl.original.deleting
    ensures var t := Exec(p, s, [PatchMain(false), Crash, UserDelete(false)]);
            && t.server == Some(s.ctl.original.(finalizers := [FINALIZER], deleting := true))
            && t == s.(server := t.server, ctl := Idle)
  {
    ExecThree(p, s, PatchMain(false), Crash, UserDelete(false));
  }

  lemma LeakFinalizes(p: C.Params, s: Sys, l: C.Lookups)
    requires C.ValidOrder(p.installOrder)
    requires s.ctl.Idle? && s.server.Some? && s.server.value.deleting
    requires s.server.value.finalizers == [FINALIZER] && Cfg(s.server.value) == ZERO_CONFIG
    ensures var t := Exec(p, s, [Read, Begin(l, 1), PatchMain(false)]);
            t.server.None? && t.world == s.world && t.passes == s.passes && t.nextUid == s.nextUid
  {
    ExecThree(p, s, Read, Begin(l, 1), PatchMain(false));
    assert AddFinalizer([FINALIZER], FINALIZER) == [FINALIZER];
    assert RemoveFinalizer([FINALIZER], FINALIZER) == RemoveFinalizer([], FINALIZER) == [];
  }

  /** "An object that is gone has left nothing behind" is false for every wiring, world, configuration and
      fault: install effects come before the first status commit, and finalize trusts the committed
      configuration alone, so the object goes and everything the pass has installed stays. */
  lemma LeakHappens(p: C.Params, w: World, spec: Spec, l: C.Lookups, faults: nat -> Faults)
    requires C.ValidOrder(p.installOrder) && C.Compile(spec, l).Ok?
    ensures var s := Exec(p, Init(w), LeakRun(p, spec, l, faults));
            && s.server.None? && s.nextUid == 1 && s.passes == map[]
            && s.world == C.InstallFrom(p.installOrder, C.Compile(spec, l).value, w, faults, []).0
  {
    var begin, install := [UserCreate(spec, []), Read, Begin(l, 0)], Installs(p, faults);
    var crash, finalize := [PatchMain(false), Crash, UserDelete(false)], [Read, Begin(l, 1), PatchMain(false)];
    var s1 := Exec(p, Init(w), begin);
    var s2 := Exec(p, s1, install);
    var s3 := Exec(p, s2, crash);
    LeakBegins(p, w, spec, l);
    LeakInstalls(p, s1, faults);
    LeakCrashes(p, s2);
    LeakFinalizes(p, s3, l);
    ExecAppend(p, Init(w), begin, install + (crash + finalize));
    ExecAppend(p, s1, install, crash + finalize);
    ExecAppend(p, s2, crash, finalize);
  }

  lemma {:induction false} FirstStaysInPlace(order: seq<Installable>, config: Config, w: World, faults: nat -> Faults, n: nat)
    requires 0 < n <= |order| && CF.PairwiseDisjoint(order) && forall inst :: inst in order ==> CanInstall(inst)
    requires CF.AnswerAt(order, config, w, faults, 0).Succeeded()
    ensures InPlace(order[0], config, CF.WorldAfter(order, config, w, faults, n))
  {
    if n == 1 {
      assert CF.WorldAfter(order, config, w, faults, 0) == w;
      InstallSuccessMeansInPlace(order[0], config, w, faults(0));
    } else {
      FirstStaysInPlace(order, config, w, faults, n - 1);
      CF.DisjointAt(order, 0, n - 1);
      CF.NextKeepsInPlace(order[0], order[n - 1], config, CF.WorldAfter(order, config, w, faults, n - 1), faults(n - 1));
    }
  }

  /** With the orders of the operator: at least the system namespaces stay. */
  lemma LeakHappensAsWired(m: CF.ModuleData, interval: int, w: World, spec: Spec, l: C.Lookups, faults: nat -> Faults)
    requires C.Compile(spec, l).Ok? && CF.DisjointManifests(m) && m.systemNs != [] && Clean(faults(0))
    ensures C.ValidOrder(CF.MainInstallOrder(m))
    ensures var p := C.Params(CF.MainInstallOrder(m), CF.MainUninstallOrder(m), interval);
            var s := Exec(p, Init(w), LeakRun(p, spec, l, faults));
            s.server.None? && s.passes == map[] && !Absent(Yaml(m.systemNs), s.world)
  {
    CF.MainOrdersAreSound(m);
    var order, config := CF.MainInstallOrder(m), C.Compile(spec, l).value;
    var p := C.Params(order, CF.MainUninstallOrder(m), interval);
    LeakHappens(p, w, spec, l, faults);
    var n := CF.InstallPassIsPrefix(order, config, w, faults);
    var last := if n < |order| then n + 1 else n;
    YamlInstallApplies(m.systemNs, w, faults(0));
    assert CF.AnswerAt(order, config, w, faults, 0).Succeeded();
    FirstStaysInPlace(order, config, w, faults, last);
    assert m.systemNs[0] in m.systemNs && m.systemNs[0].key in KeysOf(m.systemNs);
  }

  /** Exactly then: a finalize that finds no committed configuration calls no installable, so what an
      interrupted reconcile installed stays; one that finds a configuration and drops the finalizer
      leaves nothing of its order but what the Helm lookup hides. */
  lemma FinalizeLeavesNothingIff(p: C.Params, o: Object, w: World, l: C.Lookups, now: int, faults: nat -> Faults)
    requires C.ValidOrder(p.installOrder) && o.deleting
    requires var end := C.Body(p, o, w, l, now, faults); !HasOurs(end.obj)
    ensures var end := C.Body(p, o, w, l, now, faults);
            && (S.AllAbsent(p.uninstallOrder, end.world) <==> Cfg(o) != ZERO_CONFIG || S.AllAbsent(p.uninstallOrder, w))
            && (S.AllTraceless(p.uninstallOrder, end.world) <==>
                  && (Cfg(o) != ZERO_CONFIG || S.AllAbsent(p.uninstallOrder, w))
                  && S.NoneHides(p.uninstallOrder, w))
  {
    if Cfg(o) != ZERO_CONFIG {
      CF.UninstallPassLeavesNothing(p.uninstallOrder, Cfg(o), w, faults, []);
      CF.CleanPassIff(p.uninstallOrder, Cfg(o), w, faults);
    } else {
      TracelessEach(p.uninstallOrder, w);
    }
  }

  lemma TracelessEach(order: seq<Installable>, w: World)
    ensures S.AllTraceless(order, w) <==> S.AllAbsent(order, w) && S.NoneHides(order, w)
  {
    forall inst | inst in order ensures Traceless(inst, w) <==> Absent(inst, w) && !Hides(inst, w) { TracelessIff(inst, w); }
  }

  // ----- a life that ends as it should -----

  /** Created, installed, committed, deleted. */
  function Youth(p: C.Params, spec: Spec, l: C.Lookups, faults: nat -> Faults): seq<Step> {
    [UserCreate(spec, []), Read, Begin(l, 0)] + (Installs(p, faults)
      + [PatchMain(false), PatchStatus(false), UserDelete(false)])
  }

  function Uninstalls(p: C.Params, faults: nat -> Faults): seq<Step> {
    UninstallSteps(faults, 1, 0, |p.uninstallOrder|) + [UninstallDone]
  }

  /** A whole reconcile of the deleted object up to its commit. */
  function Attempt(p: C.Params, l: C.Lookups, faults: nat -> Faults): seq<Step> {
    [Read, Begin(l, 1)] + Uninstalls(p, faults)
  }

  /** `n` reconciles that commit and leave the object, each followed by what others do to the world. */
  function Attempts(p: C.Params, config: Config, w: World, l: C.Lookups, rounds: nat -> T.Round, n: nat): seq<Step> {
    if n == 0 then [] else
    Attempts(p, config, w, l, rounds, n - 1) + (Attempt(p, l, rounds(n - 1).faults)
      + [PatchMain(false), PatchStatus(false), OthersWorld(T.WorldBefore(p.uninstallOrder, config, w, rounds, n))])
  }

  function Installed(p: C.Params, config: Config, w: World, faults: nat -> Faults): World
    requires C.ValidOrder(p.installOrder)
  {
    C.InstallFrom(p.installOrder, config, w, faults, []).0
  }

  /** Created, installed, committed, deleted, uninstalled in vain `n` times: the last attempt is next. */
  function Life(p: C.Params, config: Config, w: World, spec: Spec, l: C.Lookups, faults: nat -> Faults,
                rounds: nat -> T.Round, n: nat): seq<Step>
    requires C.ValidOrder(p.installOrder)
  {
    Youth(p, spec, l, faults) + Attempts(p, config, Installed(p, config, w, faults), l, rounds, n)
  }

  lemma LifeInstalls(p: C.Params, s: Sys, faults: nat -> Faults)
    requires C.ValidOrder(p.installOrder) && s.ctl.Installing? && s.ctl.results == []
    ensures var t := Exec(p, s, Installs(p, faults));
            && InstallsAs(p, s, t, faults, 0)
            && t.ctl.local.finalizers == s.ctl.local.finalizers && Cfg(t.ctl.local) == Cfg(s.ctl.local)
  {
    LeakInstalls(p, s, faults);
    var r := C.InstallFrom(p.installOrder, Cfg(s.ctl.local), s.world, faults, []).1;
    if r.Ok? { ResultKeepsConfig(s.ctl.local, C.Aggregate(r.value)); }
  }

  lemma ResultKeepsConfig(o: Object, r: Report)
    ensures Cfg(C.ApplyInstallResult(o, r, 0)) == Cfg(o)
  {
  }

  lemma LifeCommits(p: C.Params, s: Sys)
    requires C.ValidOrder(p.installOrder)
    requires s.ctl.Committing? && s.server == Some(s.ctl.original)
    requires s.ctl.original.finalizers == [] && s.ctl.local.finalizers == [FINALIZER] && !s.ctl.original.deleting
    ensures var t := Exec(p, s, [PatchMain(false), PatchStatus(false), UserDelete(false)]);
            && t.server == Some(s.ctl.original.(finalizers := [FINALIZER], deleting := true, status := s.ctl.local.status))
            && t.ctl.Idle? && t.world == s.world
  {
    ExecThree(p, s, PatchMain(false), PatchStatus(false), UserDelete(false));
    A.MergeFromRead(s.ctl.original.status, s.ctl.local.status);
  }

  lemma LifeFinalizes(p: C.Params, s: Sys, l: C.Lookups)
    requires C.ValidOrder(p.installOrder)
    requires s.ctl.Idle? && s.server.Some? && s.server.value.deleting
    requires s.server.value.finalizers == [FINALIZER] && Cfg(s.server.value) != ZERO_CONFIG
    ensures var t := Exec(p, s, [Read, Begin(l, 1)]);
            && t.ctl.Finalizing? && t.ctl.done == [] && t.ctl.original == s.server.value
            && Cfg(t.ctl.local) == Cfg(s.server.value) && t.ctl.local.finalizers == [FINALIZER]
            && t.server == s.server && t.world == s.world
  {
    assert [Read, Begin(l, 1)] == [Read] + [Begin(l, 1)];
    ExecCons(p, s, Read, [Begin(l, 1)]);
    ExecWork(p, Next(p, s, Read), Begin(l, 1), []);
    assert AddFinalizer([FINALIZER], FINALIZER) == [FINALIZER];
  }

  lemma LifeDrops(p: C.Params, s: Sys, faults: nat -> Faults)
    requires C.ValidOrder(p.installOrder) && s.ctl.Finalizing? && s.ctl.done == []
    requires s.ctl.local.finalizers == [FINALIZER] && s.server == Some(s.ctl.original)
    requires s.ctl.original.finalizers == [FINALIZER] && s.ctl.original.deleting
    requires C.UninstallFrom(p.uninstallOrder, Cfg(s.ctl.local), s.world, faults, []).1.Complete?
    ensures var t := Exec(p, s, Uninstalls(p, faults));
            && t.server == s.server && S.DropsOurs(t, Next(p, t, PatchMain(false)), s.ctl.original.uid)
            && Next(p, t, PatchMain(false)).world == t.world
            && t.world == C.UninstallFrom(p.uninstallOrder, Cfg(s.ctl.local), s.world, faults, []).0
  {
    UninstallRun(p, s, faults, 1);
    var t := Exec(p, s, Uninstalls(p, faults));
    assert RemoveFinalizer([FINALIZER], FINALIZER) == RemoveFinalizer([], FINALIZER) == [];
    DropIsGone(t);
    assert Next(p, t, PatchMain(false)) == PatchMainStep(t, false);
  }

  lemma DropIsGone(t: Sys)
    requires t.ctl.Committing? && t.server == Some(t.ctl.original) && t.ctl.original.deleting
    requires t.ctl.original.finalizers == [FINALIZER] && t.ctl.local.finalizers == []
    ensures PatchMainStep(t, false).server.None?
  {
  }

  /** Between two attempts: the deleted object with nothing but our finalizer. */
  predicate Dying(s: Sys, config: Config) {
    && s.ctl.Idle? && s.server.Some? && s.server.value.uid == 0 && s.server.value.deleting
    && s.server.value.finalizers == [FINALIZER] && Cfg(s.server.value) == config
  }

  lemma LifeBegins(p: C.Params, w: World, spec: Spec, l: C.Lookups, faults: nat -> Faults)
    requires C.ValidOrder(p.installOrder) && C.Compile(spec, l).Ok?
    ensures var config := C.Compile(spec, l).value;
            var s := Exec(p, Init(w), Youth(p, spec, l, faults));
            Dying(s, config) && s.world == Installed(p, config, w, faults)
  {
    var a, b, c := [UserCreate(spec, []), Read, Begin(l, 0)], Installs(p, faults), [PatchMain(false), PatchStatus(false), UserDelete(false)];
    var s1 := Exec(p, Init(w), a);
    var s2 := Exec(p, s1, b);
    LeakBegins(p, w, spec, l);
    LifeInstalls(p, s1, faults);
    LifeCommits(p, s2);
    ExecAppend(p, Init(w), a, b + c);
    ExecAppend(p, s1, b, c);
  }

  /** An attempt in vain. */
  lemma LifeWaits(p: C.Params, s: Sys, l: C.Lookups, faults: nat -> Faults, config: Config, w': World)
    requires C.ValidOrder(p.installOrder) && Dying(s, config) && config != ZERO_CONFIG
    requires !C.UninstallFrom(p.uninstallOrder, config, s.world, faults, []).1.Complete?
    ensures var t := Exec(p, s, Attempt(p, l, faults) + [PatchMain(false), PatchStatus(false), OthersWorld(w')]);
            Dying(t, config) && t.world == w'
  {
    var s1 := Exec(p, s, [Read, Begin(l, 1)]);
    LifeFinalizes(p, s, l);
    UninstallRun(p, s1, faults, 1);
    ExecAppend(p, s, [Read, Begin(l, 1)], Uninstalls(p, faults));
    ExecAppend(p, s, Attempt(p, l, faults), [PatchMain(false), PatchStatus(false), OthersWorld(w')]);
    LifeKeeps(p, Exec(p, s1, Uninstalls(p, faults)), config, w');
  }

  lemma LifeKeeps(p: C.Params, s: Sys, config: Config, w': World)
    requires C.ValidOrder(p.installOrder) && s.ctl.Committing? && s.server == Some(s.ctl.original)
    requires Dying(s.(ctl := Idle), config)
    requires s.ctl.local.finalizers == [FINALIZER] && Cfg(s.ctl.local) == config
    ensures var t := Exec(p, s, [PatchMain(false), PatchStatus(false), OthersWorld(w')]);
            Dying(t, config) && t.world == w'
  {
    ExecThree(p, s, PatchMain(false), PatchStatus(false), OthersWorld(w'));
    A.MergeFromRead(s.ctl.original.status, s.ctl.local.status);
  }

  ghost predicate NoneComplete(order: seq<Installable>, config: Config, w: World, rounds: nat -> T.Round, n: nat) {
    forall i: nat :: i < n ==> !T.CompleteAt(order, config, w, rounds, i)
  }

  lemma LifeGoesOn(p: C.Params, s: Sys, config: Config, l: C.Lookups, rounds: nat -> T.Round, n: nat)
    requires C.ValidOrder(p.installOrder) && Dying(s, config) && config != ZERO_CONFIG
    requires NoneComplete(p.uninstallOrder, config, s.world, rounds, n)
    ensures StillDying(p, s, config, l, rounds, n)
  {
    var q := (i: nat) => StillDying(p, s, config, l, rounds, i);
    LifeAtFirst(p, s, config, l, rounds);
    forall i: nat | i < n && q(i) ensures q(i + 1) {
      LifeGoesOnOnce(p, s, config, l, rounds, i);
    }
    StepByStep(q, n);
  }

  predicate StillDying(p: C.Params, s: Sys, config: Config, l: C.Lookups, rounds: nat -> T.Round, n: nat)
    requires C.ValidOrder(p.installOrder)
  {
    var t := Exec(p, s, Attempts(p, config, s.world, l, rounds, n));
    Dying(t, config) && t.world == T.WorldBefore(p.uninstallOrder, config, s.world, rounds, n)
  }

  lemma LifeAtFirst(p: C.Params, s: Sys, config: Config, l: C.Lookups, rounds: nat -> T.Round)
    requires C.ValidOrder(p.installOrder) && Dying(s, config)
    ensures StillDying(p, s, config, l, rounds, 0)
  {
  }

  lemma LifeGoesOnOnce(p: C.Params, s: Sys, config: Config, l: C.Lookups, rounds: nat -> T.Round, n: nat)
    requires C.ValidOrder(p.installOrder) && Dying(s, config) && config != ZERO_CONFIG
    requires !T.CompleteAt(p.uninstallOrder, config, s.world, rounds, n) && StillDying(p, s, config, l, rounds, n)
    ensures StillDying(p, s, config, l, rounds, n + 1)
  {
    var w' := T.WorldBefore(p.uninstallOrder, config, s.world, rounds, n + 1);
    var before, last := Attempts(p, config, s.world, l, rounds, n), Attempt(p, l, rounds(n).faults);
    LifeWaits(p, Exec(p, s, before), l, rounds(n).faults, config, w');
    ExecAppend(p, s, before, last + [PatchMain(false), PatchStatus(false), OthersWorld(w')]);
  }

  /** The last attempt. */
  lemma LifeEnds(p: C.Params, s: Sys, l: C.Lookups, faults: nat -> Faults, config: Config)
    requires C.ValidOrder(p.installOrder)
    requires Dying(s, config) && config != ZERO_CONFIG
    requires C.UninstallFrom(p.uninstallOrder, config, s.world, faults, []).1.Complete?
    ensures var t := Exec(p, s, Attempt(p, l, faults));
            && t.server == s.server && S.DropsOurs(t, Next(p, t, PatchMain(false)), 0)
            && Next(p, t, PatchMain(false)).world == t.world
            && t.world == C.UninstallFrom(p.uninstallOrder, config, s.world, faults, []).0
  {
    LifeFinalizes(p, s, l);
    LifeDrops(p, Exec(p, s, [Read, Begin(l, 1)]), faults);
    ExecAppend(p, s, [Read, Begin(l, 1)], Uninstalls(p, faults));
  }

  lemma {:induction false} OursAlone(p: C.Params, s: Sys, steps: seq<Step>)
    requires C.ValidOrder(p.installOrder) && forall step :: step in steps ==> !step.OthersWorld?
    ensures S.NobodyRevives(p, s, steps)
    decreases |steps|
  {
    if steps != [] {
      OursAlone(p, s, steps[..|steps| - 1]);
      assert steps[|steps| - 1] in steps;
    }
  }

  /** Whatever was installed, however many passes are incomplete or break, and whatever others do between them:
      the pass that is complete at last is followed by the main patch that drops our finalizer. The run meets
      what the safety of finalizing asks, and so ends with the whole order absent. */
  lemma FinalizerIsDropped(p: C.Params, w: World, spec: Spec, l: C.Lookups, faults: nat -> Faults, rounds: nat -> T.Round, n: nat)
    requires C.ValidOrder(p.installOrder) && C.Compile(spec, l).Ok?
    requires var config := C.Compile(spec, l).value;
             T.FirstComplete(p.uninstallOrder, config, Installed(p, config, w, faults), rounds, n)
    ensures var config, last := C.Compile(spec, l).value, Attempt(p, l, rounds(n).faults);
            var r := Exec(p, Init(w), Life(p, config, w, spec, l, faults, rounds, n));
            var s := Exec(p, r, last);
            var s' := Next(p, s, PatchMain(false));
            && Reachable(p, r) && AtRest(r) && S.NobodyRevives(p, r, last)
            && s.server.Some? && Cfg(s.server.value) == config != ZERO_CONFIG
            && S.DropsOurs(s, s', 0) && S.AllAbsent(p.uninstallOrder, s'.world)
            && s'.world == T.WorldAfterPass(p.uninstallOrder, config, Installed(p, config, w, faults), rounds, n)
  {
    var config := C.Compile(spec, l).value;
    var r := Exec(p, Init(w), Life(p, config, w, spec, l, faults, rounds, n));
    assert T.CompleteAt(p.uninstallOrder, config, Installed(p, config, w, faults), rounds, n);
    LifeBeforeLast(p, w, spec, l, faults, rounds, n);
    DyingIsDropped(p, r, l, rounds(n).faults, config);
  }

  lemma DyingIsDropped(p: C.Params, r: Sys, l: C.Lookups, faults: nat -> Faults, config: Config)
    requires C.ValidOrder(p.installOrder) && Reachable(p, r) && Dying(r, config) && config != ZERO_CONFIG
    requires C.UninstallFrom(p.uninstallOrder, config, r.world, faults, []).1.Complete?
    ensures var s := Exec(p, r, Attempt(p, l, faults));
            var s' := Next(p, s, PatchMain(false));
            && S.NobodyRevives(p, r, Attempt(p, l, faults))
            && s.server == r.server && S.DropsOurs(s, s', 0) && S.AllAbsent(p.uninstallOrder, s'.world)
            && s'.world == C.UninstallFrom(p.uninstallOrder, config, r.world, faults, []).0
  {
    LifeEnds(p, r, l, faults, config);
    OursAlone(p, r, Attempt(p, l, faults));
    S.FinalizerGoneMeansClean(p, r, Attempt(p, l, faults), PatchMain(false), 0);
  }

  lemma LifeBeforeLast(p: C.Params, w: World, spec: Spec, l: C.Lookups, faults: nat -> Faults, rounds: nat -> T.Round, n: nat)
    requires C.ValidOrder(p.installOrder) && C.Compile(spec, l).Ok?
    requires var config := C.Compile(spec, l).value;
             NoneComplete(p.uninstallOrder, config, Installed(p, config, w, faults), rounds, n)
    ensures var config := C.Compile(spec, l).value;
            var s := Exec(p, Init(w), Life(p, config, w, spec, l, faults, rounds, n));
            && config != ZERO_CONFIG && Dying(s, config)
            && s.world == T.WorldBefore(p.uninstallOrder, config, Installed(p, config, w, faults), rounds, n)
  {
    var config := C.Compile(spec, l).value;
    var youth := Youth(p, spec, l, faults);
    C.CompiledIsLegal(spec, l);
    LifeBegins(p, w, spec, l, faults);
    LifeGoesOn(p, Exec(p, Init(w), youth), config, l, rounds, n);
    ExecAppend(p, Init(w), youth, Attempts(p, config, Installed(p, config, w, faults), l, rounds, n));
  }

  /** So every life ends within as many passes as there were live resources after the installation, plus one,
      if the component at which a pass stops has lost something in it and others add nothing. */
  lemma EveryLifeEnds(p: C.Params, w: World, spec: Spec, l: C.Lookups, faults: nat -> Faults, rounds: nat -> T.Round)
    returns (n: nat)
    requires C.ValidOrder(p.installOrder) && C.Compile(spec, l).Ok?
    requires var config := C.Compile(spec, l).value;
             var w1 := Installed(p, config, w, faults);
             forall i: nat :: i <= T.Live(p.uninstallOrder, w1) ==>
               && T.DrainsAt(p.uninstallOrder, config, w1, rounds, i)
               && T.OthersAddNothingAt(p.uninstallOrder, config, w1, rounds, i)
    ensures var config := C.Compile(spec, l).value;
            var s := Exec(p, Exec(p, Init(w), Life(p, config, w, spec, l, faults, rounds, n)), Attempt(p, l, rounds(n).faults));
            var s' := Next(p, s, PatchMain(false));
            && n <= T.Live(p.uninstallOrder, Installed(p, config, w, faults))
            && S.DropsOurs(s, s', 0) && S.AllAbsent(p.uninstallOrder, s'.world)
  {
    var config := C.Compile(spec, l).value;
    n := T.UninstallTerminates(p.uninstallOrder, config, Installed(p, config, w, faults), rounds);
    FinalizerIsDropped(p, w, spec, l, faults, rounds, n);
  }

  /** What others bring back after the pass outlives the object. */
  lemma RevivedOutlivesItsObject(p: C.Params, w: World, run: seq<Step>, u: nat, w': World)
    requires C.ValidOrder(p.installOrder)
    requires var s := Exec(p, Init(w), run); S.DropsOurs(s, Next(p, s, PatchMain(false)), u)
    ensures var s := Exec(p, Init(w), run + [OthersWorld(w')]);
            var s' := Next(p, s, PatchMain(false));
            S.DropsOurs(s, s', u) && s'.world == w'
  {
    ExecNext(p, Init(w), run, OthersWorld(w'));
    var s := Exec(p, Init(w), run);
    ReachableInv(p, w, run);
    S.OnlyMainPatchDrops(p, s, PatchMain(false), u);
  }

  // ----- two of them -----

  /** A manifest object that is installed, deleted by a first attempt, and found gone by a second. */
  lemma FinalizerIsDroppedOnce(d: Doc, interval: int, spec: Spec, l: C.Lookups, faults: nat -> Faults, rounds: nat -> T.Round)
    requires C.Compile(spec, l).Ok? && T.CleanRounds(rounds) && forall i :: Clean(faults(i))
    ensures var p, w, config := C.Params([Yaml([d])], [Orgs, Yaml([d])], interval), World(map[], map[], None), C.Compile(spec, l).value;
            && C.ValidOrder(p.installOrder) && CF.Covers(p.uninstallOrder, p.installOrder)
            && d.key in Installed(p, config, w, faults).objects
            && (var s := Exec(p, Exec(p, Init(w), Life(p, config, w, spec, l, faults, rounds, 1)), Attempt(p, l, rounds(1).faults));
                var s' := Next(p, s, PatchMain(false));
                && s.server.Some? && Cfg(s.server.value) != ZERO_CONFIG
                && S.DropsOurs(s, s', 0) && d.key !in s'.world.objects)
  {
    var p, w, config := C.Params([Yaml([d])], [Orgs, Yaml([d])], interval), World(map[], map[], None), C.Compile(spec, l).value;
    OrdersOfOne(p, Yaml([d]));
    ManifestInstalled(p, d, config, w, faults);
    ManifestGoneAtSecond(p, d, config, Installed(p, config, w, faults), rounds);
    ManifestIsDropped(p, d, w, spec, l, faults, rounds, 1);
  }

  lemma OrdersOfOne(p: C.Params, inst: Installable)
    requires p.installOrder == [inst] && p.uninstallOrder == [Orgs, inst] && CanInstall(inst)
    ensures C.ValidOrder(p.installOrder) && CF.Covers(p.uninstallOrder, p.installOrder)
  {
    assert forall i :: i in p.installOrder ==> i == inst;
    assert p.uninstallOrder[0] == Orgs && p.uninstallOrder[1] == inst;
  }

  lemma ManifestIsDropped(p: C.Params, d: Doc, w: World, spec: Spec, l: C.Lookups, faults: nat -> Faults,
                          rounds: nat -> T.Round, n: nat)
    requires C.ValidOrder(p.installOrder) && Yaml([d]) in p.uninstallOrder && C.Compile(spec, l).Ok?
    requires var config := C.Compile(spec, l).value;
             T.FirstComplete(p.uninstallOrder, config, Installed(p, config, w, faults), rounds, n)
    ensures var config := C.Compile(spec, l).value;
            var s := Exec(p, Exec(p, Init(w), Life(p, config, w, spec, l, faults, rounds, n)), Attempt(p, l, rounds(n).faults));
            var s' := Next(p, s, PatchMain(false));
            && s.server.Some? && Cfg(s.server.value) != ZERO_CONFIG
            && S.DropsOurs(s, s', 0) && d.key !in s'.world.objects
  {
    FinalizerIsDropped(p, w, spec, l, faults, rounds, n);
    assert d in [d] && d.key in ObjectKeys(Yaml([d]));
  }

  lemma ManifestInstalled(p: C.Params, d: Doc, config: Config, w: World, faults: nat -> Faults)
    requires p.installOrder == [Yaml([d])] && C.ValidOrder(p.installOrder) && Clean(faults(0)) && w == World(map[], map[], None)
    ensures Installed(p, config, w, faults) == World(map[d.key := Stored(d.body, 1, false, false)], map[], None)
  {
    var w1 := Install(p.installOrder[0], config, w, faults(0)).0;
    assert ApplyDocs(map[d.key := Stored(d.body, 1, false, false)], [d], faults(0).docs, 1).1.None?;
    assert w1 == World(map[d.key := Stored(d.body, 1, false, false)], map[], None);
    assert [] + [Report(Success, "")] == [Report(Success, "")];
    assert C.InstallFrom(p.installOrder, config, w1, faults, [Report(Success, "")]).0 == w1;
  }

  lemma ManifestGoneAtSecond(p: C.Params, d: Doc, config: Config, w: World, rounds: nat -> T.Round)
    requires p.uninstallOrder == [Orgs, Yaml([d])] && T.CleanRounds(rounds)
    requires w == World(map[d.key := Stored(d.body, 1, false, false)], map[], None)
    ensures T.FirstComplete(p.uninstallOrder, config, w, rounds, 1)
  {
    var empty := World(map[], map[], None);
    var fs, gs := rounds(0).faults, rounds(1).faults;
    var r := Report(Success, "");
    assert Clean(fs(0)) && Clean(fs(1)) && Clean(gs(0)) && Clean(gs(1));
    assert [] + [r] == [r];
    ManifestDeleted(d, config, w, fs(1));
    assert Uninstall(p.uninstallOrder[0], config, w, fs(0)) == (w, Done(r));
    assert C.UninstallFrom(p.uninstallOrder, config, w, fs, [r]) == (empty, C.Pending(Report(InProgress, "")));
    assert C.UninstallFrom(p.uninstallOrder, config, w, fs, []) == (empty, C.Pending(Report(InProgress, "")));
    assert T.WorldBefore(p.uninstallOrder, config, w, rounds, 0) == w;
    T.WorldBeforeNext(p.uninstallOrder, config, w, rounds, 0);
    ManifestGone(d, config, empty, gs(1));
    assert Uninstall(p.uninstallOrder[0], config, empty, gs(0)) == (empty, Done(r));
    assert forall i :: 0 <= i < 2 ==> Uninstall(p.uninstallOrder[i], config, empty, gs(i)) == (empty, Done(r));
    TwoUninstalled(p, config, empty, gs);
  }

  lemma ManifestDeleted(d: Doc, config: Config, w: World, f: Faults)
    requires Clean(f) && w == World(map[d.key := Stored(d.body, 1, false, false)], map[], None)
    ensures Uninstall(Yaml([d]), config, w, f) == (World(map[], map[], None), Done(Report(InProgress, "")))
  {
    assert DeleteDocs(map[], [d], f.docs, 1, false) == (map[], Ok(false));
    assert Deleted(w.objects, d.key) == map[];
  }

  lemma ManifestGone(d: Doc, config: Config, w: World, f: Faults)
    requires Clean(f) && w == World(map[], map[], None)
    ensures Uninstall(Yaml([d]), config, w, f) == (w, Done(Report(Success, "")))
  {
    assert DeleteDocs(w.objects, [d], f.docs, 1, true) == (w.objects, Ok(true));
  }

  /** A release that the Helm lookup does not show outlives its object: installing over it fails, uninstalling
      finds nothing, and the finalizer goes while it is still there as it was. */
  lemma HiddenReleaseOutlivesItsObject(chart: Installable, held: Release, interval: int, spec: Spec, l: C.Lookups,
                                       faults: nat -> Faults, rounds: nat -> T.Round)
    requires chart.HelmChart? && held.status !in H.SHOWN
    requires C.Compile(spec, l).Ok? && T.CleanRounds(rounds) && forall i :: Clean(faults(i))
    ensures var p, w := C.Params([chart], [Orgs, chart], interval), World(map[], map[chart.name := held], None);
            && C.ValidOrder(p.installOrder) && CF.Covers(p.uninstallOrder, p.installOrder)
            && (var r := Exec(p, Init(w), Life(p, C.Compile(spec, l).value, w, spec, l, faults, rounds, 0));
                var s := Exec(p, r, Attempt(p, l, rounds(0).faults));
                var s' := Next(p, s, PatchMain(false));
                && s.server.Some? && Cfg(s.server.value) != ZERO_CONFIG && S.DropsOurs(s, s', 0) && s'.world == w)
  {
    var p, w := C.Params([chart], [Orgs, chart], interval), World(map[], map[chart.name := held], None);
    var config := C.Compile(spec, l).value;
    OrdersOfOne(p, chart);
    OneInstalled(p, config, w, faults);
    HiddenIsComplete(p, chart, config, w, rounds);
    FinalizerIsDropped(p, w, spec, l, faults, rounds, 0);
  }

  lemma HiddenIsComplete(p: C.Params, chart: Installable, config: Config, w: World, rounds: nat -> T.Round)
    requires chart.HelmChart? && p.uninstallOrder == [Orgs, chart] && T.CleanRounds(rounds)
    requires chart.name !in H.ShownNames(w.releases) && w.orgs.None?
    ensures T.FirstComplete(p.uninstallOrder, config, w, rounds, 0)
    ensures T.WorldAfterPass(p.uninstallOrder, config, w, rounds, 0) == w
  {
    var fs := rounds(0).faults;
    assert Clean(fs(0)) && Clean(fs(1));
    assert forall i :: 0 <= i < 2 ==> Uninstall(p.uninstallOrder[i], config, w, fs(i)) == (w, Done(Report(Success, "")));
    TwoUninstalled(p, config, w, fs);
    assert T.WorldBefore(p.uninstallOrder, config, w, rounds, 0) == w;
  }

  lemma OneInstalled(p: C.Params, config: Config, w: World, faults: nat -> Faults)
    requires |p.installOrder| == 1 && C.ValidOrder(p.installOrder)
    requires Install(p.installOrder[0], config, w, faults(0)).0 == w
    ensures C.InstallFrom(p.installOrder, config, w, faults, []).0 == w
  {
    var a := Install(p.installOrder[0], config, w, faults(0)).1;
    if a.Done? {
      assert C.InstallFrom(p.installOrder, config, w, faults, [a.result]).0 == w;
      assert [] + [a.result] == [a.result];
    }
  }

  lemma TwoUninstalled(p: C.Params, config: Config, w: World, faults: nat -> Faults)
    requires |p.uninstallOrder| == 2
    requires forall i :: 0 <= i < 2 ==> Uninstall(p.uninstallOrder[i], config, w, faults(i)) == (w, Done(Report(Success, "")))
    ensures var (w', end) := C.UninstallFrom(p.uninstallOrder, config, w, faults, []); w' == w && end.Complete?
  {
    var r := Report(Success, "");
    assert [] + [r] == [r] && [r] + [r] == [r, r];
    assert C.UninstallFrom(p.uninstallOrder, config, w, faults, [r, r]) == (w, C.Complete([r, r]));
    assert C.UninstallFrom(p.uninstallOrder, config, w, faults, [r]) == (w, C.Complete([r, r]));
  }

  // ----- an observed generation that is lost -----

  const OTHERS := ["example.org/finalizer"]

  /** An object is finalized while another takes its place twice: the first time the successor is told
      that it was observed, the second time the news is no news and is not sent. */
  function LostRun(p: C.Params, spec: Spec, l: C.Lookups, faults: nat -> Faults): seq<Step> {
    [UserCreate(spec, OTHERS), UserDelete(false), Read] + ([Begin(l, 0), PatchMain(false), OthersFinalizers([])]
      + ([UserCreate(spec, []), PatchStatus(false), Read] + ([Begin(l, 0)] + (Installs(p, faults)
      + ([UserDelete(false), UserCreate(spec, []), PatchMain(false)] + [PatchStatus(false)])))))
  }

  const SEEN := NEW_STATUS.(state := Deleting, observedGeneration := 1)

  lemma LostReads(p: C.Params, w: World, spec: Spec)
    requires C.ValidOrder(p.installOrder)
    ensures var o := Object(0, 1, true, OTHERS, spec, NEW_STATUS);
            Exec(p, Init(w), [UserCreate(spec, OTHERS), UserDelete(false), Read]) ==
            Sys(Some(o), Started(o), w, 1, map[], map[])
  {
    ExecThree(p, Init(w), UserCreate(spec, OTHERS), UserDelete(false), Read);
  }

  lemma LostFinalizes(p: C.Params, s: Sys, spec: Spec, l: C.Lookups)
    requires C.ValidOrder(p.installOrder)
    requires var o := Object(0, 1, true, OTHERS, spec, NEW_STATUS); s == Sys(Some(o), Started(o), s.world, 1, map[], map[])
    ensures var o := s.server.value;
            Exec(p, s, [Begin(l, 0), PatchMain(false), OthersFinalizers([])]) ==
            s.(server := None, ctl := CommittingStatus(o, o.(status := SEEN), []))
  {
    ExecThree(p, s, Begin(l, 0), PatchMain(false), OthersFinalizers([]));
    AddThenRemove(OTHERS, FINALIZER);
    assert RemoveFinalizer(OTHERS, FINALIZER) == OTHERS;
  }

  lemma LostSeen(p: C.Params, s: Sys, o: Object, spec: Spec)
    requires C.ValidOrder(p.installOrder) && o.status == NEW_STATUS && o.uid != 1
    requires s.server.None? && s.nextUid == 1 && s.ctl == CommittingStatus(o, o.(status := SEEN), [])
    ensures var o1 := Object(1, 1, false, [], spec, SEEN);
            var t := Exec(p, s, [UserCreate(spec, []), PatchStatus(false), Read]);
            t == s.(server := Some(o1), ctl := Started(o1), nextUid := 2, evidence := t.evidence)
  {
    ExecThree(p, s, UserCreate(spec, []), PatchStatus(false), Read);
  }

  lemma LostBegins(p: C.Params, s: Sys, spec: Spec, l: C.Lookups)
    requires C.ValidOrder(p.installOrder) && C.Compile(spec, l).Ok?
    requires s.ctl == Started(Object(1, 1, false, [], spec, SEEN))
    ensures var o := s.ctl.original;
            Exec(p, s, [Begin(l, 0)]) == s.(ctl := Installing(o, C.Accepted(C.Begin(o), C.Compile(spec, l).value, 0), []))
  {
    ExecWork(p, s, Begin(l, 0), []);
  }

  lemma LostReplaced(p: C.Params, s: Sys, spec: Spec)
    requires C.ValidOrder(p.installOrder) && s.nextUid == 2
    requires s.ctl.Committing? && s.server == Some(s.ctl.original) && s.ctl.original.finalizers == []
    requires s.ctl.local.finalizers == [FINALIZER] && s.ctl.original.uid == 1
    ensures var t := Exec(p, s, [UserDelete(false), UserCreate(spec, []), PatchMain(false)]);
            && t.server == Some(Object(2, 1, false, [FINALIZER], spec, NEW_STATUS))
            && t.ctl == CommittingStatus(s.ctl.original, s.ctl.local, s.ctl.results)
  {
    ExecThree(p, s, UserDelete(false), UserCreate(spec, []), PatchMain(false));
  }

  lemma ExecOne(p: C.Params, s: Sys, step: Step)
    requires C.ValidOrder(p.installOrder)
    ensures Exec(p, s, [step]) == Next(p, s, step)
  {
    ExecCons(p, s, step, []);
    assert [step] + [] == [step];
  }

  lemma LostCommits(p: C.Params, s: Sys)
    requires C.ValidOrder(p.installOrder)
    requires s.server.Some? && s.server.value.status == NEW_STATUS && s.ctl.CommittingStatus?
    requires s.ctl.original.status == SEEN && s.ctl.local.status.observedGeneration == 1 && s.ctl.local.status.state.Ready?
    ensures var t := Exec(p, s, [PatchStatus(false)]);
            t.server.Some? && t.server.value.status.state.Ready? && t.server.value.status.observedGeneration == 0
  {
    ExecOne(p, s, PatchStatus(false));
  }

  lemma LostInstalls(p: C.Params, s: Sys, spec: Spec, l: C.Lookups, faults: nat -> Faults)
    requires C.ValidOrder(p.installOrder) && C.Compile(spec, l).Ok?
    requires var o := Object(1, 1, false, [], spec, SEEN);
             s.ctl == Installing(o, C.Accepted(C.Begin(o), C.Compile(spec, l).value, 0), [])
    requires var r := C.InstallFrom(p.installOrder, C.Compile(spec, l).value, s.world, faults, []).1;
             r.Ok? && r.value != [] && C.Aggregate(r.value).state.Success?
    ensures var t := Exec(p, s, Installs(p, faults));
            && t.ctl.Committing? && t.ctl.original == s.ctl.original && t.server == s.server && t.nextUid == s.nextUid
            && t.ctl.local.finalizers == [FINALIZER]
            && t.ctl.local.status.state.Ready? && t.ctl.local.status.observedGeneration == 1
  {
    InstallRun(p, s, faults, 0);
    assert s.ctl.local.finalizers == [FINALIZER];
  }

  /** "A stored Ready observes the generation that its conditions observe" is false for every wiring: after
      this run the stored object is Ready, with observed generation 0. */
  lemma ObservedGenerationIsLost(p: C.Params, w: World, spec: Spec, l: C.Lookups, faults: nat -> Faults)
    requires C.ValidOrder(p.installOrder) && C.Compile(spec, l).Ok?
    requires var r := C.InstallFrom(p.installOrder, C.Compile(spec, l).value, w, faults, []).1;
             r.Ok? && r.value != [] && C.Aggregate(r.value).state.Success?
    ensures var s := Exec(p, Init(w), LostRun(p, spec, l, faults));
            s.server.Some? && s.server.value.status.state.Ready? && s.server.value.status.observedGeneration == 0
  {
    var a, b := [UserCreate(spec, OTHERS), UserDelete(false), Read], [Begin(l, 0), PatchMain(false), OthersFinalizers([])];
    var c, d := [UserCreate(spec, []), PatchStatus(false), Read], [Begin(l, 0)];
    var e, f, g := Installs(p, faults), [UserDelete(false), UserCreate(spec, []), PatchMain(false)], [PatchStatus(false)];
    var s1 := Exec(p, Init(w), a);
    var s2 := Exec(p, s1, b);
    var s3 := Exec(p, s2, c);
    LostReads(p, w, spec);
    LostFinalizes(p, s1, spec, l);
    LostSeen(p, s2, s1.server.value, spec);
    LostEnds(p, s3, spec, l, faults);
    ExecAppend(p, Init(w), a, b + (c + (d + (e + (f + g)))));
    ExecAppend(p, s1, b, c + (d + (e + (f + g))));
    ExecAppend(p, s2, c, d + (e + (f + g)));
  }

  lemma LostEnds(p: C.Params, s: Sys, spec: Spec, l: C.Lookups, faults: nat -> Faults)
    requires C.ValidOrder(p.installOrder) && C.Compile(spec, l).Ok?
    requires var o := Object(1, 1, false, [], spec, SEEN); s.ctl == Started(o) && s.server == Some(o) && s.nextUid == 2
    requires var r := C.InstallFrom(p.installOrder, C.Compile(spec, l).value, s.world, faults, []).1;
             r.Ok? && r.value != [] && C.Aggregate(r.value).state.Success?
    ensures var t := Exec(p, s, [Begin(l, 0)] + (Installs(p, faults)
                       + ([UserDelete(false), UserCreate(spec, []), PatchMain(false)] + [PatchStatus(false)])));
            t.server.Some? && t.server.value.status.state.Ready? && t.server.value.status.observedGeneration == 0
  {
    var d, e := [Begin(l, 0)], Installs(p, faults);
    var f, g := [UserDelete(false), UserCreate(spec, []), PatchMain(false)], [PatchStatus(false)];
    var s4 := Exec(p, s, d);
    var s5 := Exec(p, s4, e);
    var s6 := Exec(p, s5, f);
    LostBegins(p, s, spec, l);
    LostInstalls(p, s4, spec, l, faults);
    LostReplaced(p, s5, spec);
    LostCommits(p, s6);
    ExecAppend(p, s, d, e + (f + g));
    ExecAppend(p, s4, e, f + g);
    ExecAppend(p, s5, f, g);
  }
}
