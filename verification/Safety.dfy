/** What holds over every run of the protocol. */
module Safety {
  import opened Prelude
  import opened Types
  import opened Cluster
  import opened Installables
  import opened InstallableFacts
  import opened Protocol
  import C = Controller
  import CF = ControllerFacts
  import A = ApiServer

  predicate Stored(s: Sys, u: nat) {
    s.server.Some? && s.server.value.uid == u
  }

  // ----- a committed configuration -----

  /** Object `u` has had a configuration committed: it still stands with one, or a full pass happened. */
  predicate Installed(s: Sys, u: nat) {
    && (Stored(s, u) || u in s.passes)
    && (Stored(s, u) ==> Cfg(s.server.value) != ZERO_CONFIG)
    && u < s.nextUid
  }

  lemma InstalledByPatch(p: C.Params, s: Sys, u: nat, fails: bool)
    requires Inv(p, s) && Installed(s, u) && s.ctl.Committing?
    ensures Installed(PatchMainStep(s, fails), u)
  {
    if !fails && s.server.Some? {
      PatchMainGuards(p, s);
    }
  }

  lemma InstalledByStatusPatch(p: C.Params, s: Sys, u: nat, fails: bool)
    requires Inv(p, s) && Installed(s, u) && s.ctl.CommittingStatus?
    ensures Installed(PatchStatusStep(s, fails), u)
  {
    if !fails && s.server.Some? {
      A.MergeNoChange(s.server.value.status, s.ctl.original.status, s.ctl.local.status);
    }
  }

  lemma InstalledByPass(p: C.Params, s: Sys, u: nat)
    requires Inv(p, s) && Installed(s, u) && s.ctl.Finalizing?
    ensures Installed(s.(passes := s.passes[s.ctl.original.uid := s.ctl.done]), u)
  {
  }

  lemma InstalledByUser(p: C.Params, s: Sys, u: nat, step: Step)
    requires Inv(p, s) && Installed(s, u)
    ensures Installed(UserStep(s, step), u)
  {
    if s.server.Some? {
      UserStepIsEdit(s, step);
    }
  }

  lemma InstalledByWork(p: C.Params, s: Sys, u: nat, step: Step)
    requires C.ValidOrder(p.installOrder) && Inv(p, s) && Installed(s, u) && IsWork(step)
    ensures Installed(WorkStep(p, s, step), u)
  {
    if step.UninstallDone? && s.ctl.Finalizing? { InstalledByPass(p, s, u); }
  }

  lemma InstalledStays(p: C.Params, s: Sys, u: nat, step: Step)
    requires C.ValidOrder(p.installOrder) && Inv(p, s) && Installed(s, u)
    ensures Installed(Next(p, s, step), u)
  {
    if IsWork(step) {
      InstalledByWork(p, s, u, step);
    } else if IsCommit(step) {
      match step
      case PatchMain(fails) => if s.ctl.Committing? { InstalledByPatch(p, s, u, fails); }
      case PatchStatus(fails) => if s.ctl.CommittingStatus? { InstalledByStatusPatch(p, s, u, fails); }
      case _ =>
    } else {
      InstalledByUser(p, s, u, step);
    }
  }

  lemma ExecPrefix(p: C.Params, s: Sys, steps: seq<Step>, j: nat)
    requires C.ValidOrder(p.installOrder) && 0 < j <= |steps|
    ensures Exec(p, s, steps[..j]) == Next(p, Exec(p, s, steps[..j - 1]), steps[j - 1])
  {
    assert steps[..j][..j - 1] == steps[..j - 1];
  }

  lemma {:induction false} InstalledForever(p: C.Params, w: World, steps: seq<Step>, i: nat, j: nat, u: nat)
    requires C.ValidOrder(p.installOrder) && i <= j <= |steps|
    requires Installed(Exec(p, Init(w), steps[..i]), u)
    ensures Installed(Exec(p, Init(w), steps[..j]), u)
    decreases j - i
  {
    if i < j {
      InstalledForever(p, w, steps, i, j - 1, u);
      ReachableInv(p, w, steps[..j - 1]);
      InstalledStays(p, Exec(p, Init(w), steps[..j - 1]), u, steps[j - 1]);
      ExecPrefix(p, Init(w), steps, j);
    }
  }

  /** Once a configuration is committed, the object can disappear only after a finalize pass in which
      every element of the uninstall order reported success; and while it stands the configuration
      is never reset. */
  lemma GoneOnlyAfterFullPass(p: C.Params, w: World, steps: seq<Step>, i: nat, j: nat, u: nat)
    requires C.ValidOrder(p.installOrder) && i <= j <= |steps|
    requires var s := Exec(p, Init(w), steps[..i]); Stored(s, u) && Cfg(s.server.value) != ZERO_CONFIG
    ensures var s' := Exec(p, Init(w), steps[..j]);
            && (!Stored(s', u) ==> u in s'.passes && FullPass(p.uninstallOrder, s'.passes[u]))
            && (Stored(s', u) ==> Cfg(s'.server.value) != ZERO_CONFIG)
            && (Stored(s', u) && !HasOurs(s'.server.value) ==> u in s'.passes && FullPass(p.uninstallOrder, s'.passes[u]))
  {
    ReachableInv(p, w, steps[..i]);
    InstalledForever(p, w, steps, i, j, u);
    ReachableInv(p, w, steps[..j]);
  }

  /** "Installation has not started" is concluded exactly for objects that never had a configuration
      committed. */
  lemma ZeroTestIsExact(p: C.Params, w: World, steps: seq<Step>)
    requires C.ValidOrder(p.installOrder)
    requires Exec(p, Init(w), steps).server.Some?
    ensures var o := Exec(p, Init(w), steps).server.value;
            Cfg(o) == ZERO_CONFIG <==>
              forall i :: 0 <= i <= |steps| && Stored(Exec(p, Init(w), steps[..i]), o.uid) ==>
                Cfg(Exec(p, Init(w), steps[..i]).server.value) == ZERO_CONFIG
  {
    var o := Exec(p, Init(w), steps).server.value;
    assert steps[..|steps|] == steps;
    forall i | 0 <= i <= |steps| && Stored(Exec(p, Init(w), steps[..i]), o.uid) && Cfg(o) == ZERO_CONFIG
      ensures Cfg(Exec(p, Init(w), steps[..i]).server.value) == ZERO_CONFIG
    {
      if Cfg(Exec(p, Init(w), steps[..i]).server.value) != ZERO_CONFIG {
        GoneOnlyAfterFullPass(p, w, steps, i, |steps|, o.uid);
      }
    }
  }

  // ----- the world when the finalizer goes -----

  ghost predicate AllAbsent(order: seq<Installable>, w: World) {
    forall inst :: inst in order ==> Absent(inst, w)
  }

  ghost predicate AllTraceless(order: seq<Installable>, w: World) {
    forall inst :: inst in order ==> Traceless(inst, w)
  }

  ghost predicate NoneHides(order: seq<Installable>, w: World) {
    forall inst :: inst in order ==> !Hides(inst, w)
  }

  lemma AllTracelessIff(order: seq<Installable>, w: World)
    requires AllAbsent(order, w)
    ensures AllTraceless(order, w) <==> NoneHides(order, w)
  {
    forall inst | inst in order ensures Traceless(inst, w) <==> !Hides(inst, w) { TracelessIff(inst, w); }
  }

  /** What the uninstall pass has achieved so far is still true. */
  ghost predicate CleanSoFar(p: C.Params, s: Sys) {
    match s.ctl
    case Finalizing(_, _, done) =>
      |done| <= |p.uninstallOrder| && forall i :: 0 <= i < |done| ==> Absent(p.uninstallOrder[i], s.world)
    case Committing(o, local, _) => !HasOurs(local) && Cfg(o) != ZERO_CONFIG ==> AllAbsent(p.uninstallOrder, s.world)
    case _ => true
  }

  /** The components that the uninstall pass in progress has found gone. */
  predicate FoundGone(p: C.Params, s: Sys, i: nat) {
    i < |p.uninstallOrder| &&
    match s.ctl
    case Finalizing(_, _, done) => i < |done|
    case Committing(o, local, _) => !HasOurs(local) && Cfg(o) != ZERO_CONFIG
    case _ => false
  }

  /** Nothing that the pass in progress has found gone is brought back. */
  ghost predicate RevivesNothing(p: C.Params, s: Sys, w': World) {
    forall i: nat :: FoundGone(p, s, i) && Absent(p.uninstallOrder[i], s.world) ==> Absent(p.uninstallOrder[i], w')
  }

  /** Nobody brings back what the controller has just found gone. */
  ghost predicate NobodyRevives(p: C.Params, s: Sys, steps: seq<Step>)
    requires C.ValidOrder(p.installOrder)
    decreases |steps|
  {
    steps != [] ==>
      var before, last := steps[..|steps| - 1], steps[|steps| - 1];
      && NobodyRevives(p, s, before)
      && (last.OthersWorld? ==> RevivesNothing(p, Exec(p, s, before), last.world))
  }

  lemma CleanAfterUninstall(p: C.Params, s: Sys, f: Faults, now: int)
    requires C.ValidOrder(p.installOrder) && Inv(p, s) && CleanSoFar(p, s)
    requires s.ctl.Finalizing? && |s.ctl.done| < |p.uninstallOrder|
    ensures CleanSoFar(p, UninstallOneStep(p, s, f, now))
  {
    var i := |s.ctl.done|;
    var (w', a) := Uninstall(p.uninstallOrder[i], Cfg(s.ctl.local), s.world, f);
    if a.Succeeded() {
      UninstallSuccessMeansAbsent(p.uninstallOrder[i], Cfg(s.ctl.local), s.world, f);
      UninstallShrinks(p.uninstallOrder[i], Cfg(s.ctl.local), s.world, f);
      forall j | 0 <= j < i { AbsentStays(p.uninstallOrder[j], s.world, w'); }
    }
  }

  lemma CleanAfterOthers(p: C.Params, s: Sys, w': World)
    requires CleanSoFar(p, s) && RevivesNothing(p, s, w')
    ensures CleanSoFar(p, s.(world := w'))
  {
    forall i: nat | FoundGone(p, s, i) ensures Absent(p.uninstallOrder[i], w') {
      assert Absent(p.uninstallOrder[i], s.world);
    }
  }

  lemma CleanAfterWork(p: C.Params, s: Sys, step: Step)
    requires C.ValidOrder(p.installOrder) && Inv(p, s) && CleanSoFar(p, s) && IsWork(step)
    ensures CleanSoFar(p, WorkStep(p, s, step))
  {
    match step
    case UninstallOne(f, now) =>
      if s.ctl.Finalizing? && |s.ctl.done| < |p.uninstallOrder| { CleanAfterUninstall(p, s, f, now); }
    case UninstallDone =>
      if s.ctl.Finalizing? && |s.ctl.done| == |p.uninstallOrder| { CleanAfterPass(p, s); }
    case Begin(l, now) => if s.ctl.Started? { CleanAfterBegin(p, s, l, now); }
    case InstallOne(f) => if s.ctl.Installing? && |s.ctl.results| < |p.installOrder| { CleanAfterInstall(p, s, f); }
    case InstallDone(now) =>
  }

  lemma CleanAfterInstall(p: C.Params, s: Sys, f: Faults)
    requires C.ValidOrder(p.installOrder) && Inv(p, s) && s.ctl.Installing? && |s.ctl.results| < |p.installOrder|
    ensures CleanSoFar(p, InstallOneStep(p, s, f))
  {
  }

  lemma CleanKept(p: C.Params, s: Sys, step: Step)
    requires C.ValidOrder(p.installOrder) && Inv(p, s) && CleanSoFar(p, s)
    requires step.OthersWorld? ==> RevivesNothing(p, s, step.world)
    ensures CleanSoFar(p, Next(p, s, step))
  {
    if IsWork(step) {
      CleanAfterWork(p, s, step);
    } else if IsCommit(step) {
      if step.PatchMain? && s.ctl.Committing? { CleanAfterMainPatch(p, s, step.fails); }
    } else {
      CleanAfterUser(p, s, step);
    }
  }

  lemma CleanAfterPass(p: C.Params, s: Sys)
    requires CleanSoFar(p, s) && s.ctl.Finalizing? && |s.ctl.done| == |p.uninstallOrder|
    ensures AllAbsent(p.uninstallOrder, s.world)
  {
  }

  lemma CleanAfterMainPatch(p: C.Params, s: Sys, fails: bool)
    requires CleanSoFar(p, s) && s.ctl.Committing?
    ensures CleanSoFar(p, PatchMainStep(s, fails))
  {
  }

  lemma CleanAfterBegin(p: C.Params, s: Sys, l: C.Lookups, now: int)
    requires s.ctl.Started?
    ensures CleanSoFar(p, s.(ctl := BeginCtl(s.ctl.original, l, now)))
  {
  }

  lemma CleanAfterUser(p: C.Params, s: Sys, step: Step)
    requires CleanSoFar(p, s)
    requires step.OthersWorld? ==> RevivesNothing(p, s, step.world)
    ensures CleanSoFar(p, UserStep(s, step))
  {
    if step.OthersWorld? {
      CleanAfterOthers(p, s, step.world);
    }
  }

  lemma ReachableHasInv(p: C.Params, s: Sys)
    requires C.ValidOrder(p.installOrder) && Reachable(p, s)
    ensures Inv(p, s)
  {
    var w, steps :| s == Exec(p, Init(w), steps);
    ReachableInv(p, w, steps);
  }

  lemma {:induction false} CleanReachable(p: C.Params, s: Sys, steps: seq<Step>)
    requires C.ValidOrder(p.installOrder) && Inv(p, s) && AtRest(s) && NobodyRevives(p, s, steps)
    ensures Inv(p, Exec(p, s, steps)) && CleanSoFar(p, Exec(p, s, steps))
    decreases |steps|
  {
    if steps != [] {
      var before := steps[..|steps| - 1];
      CleanReachable(p, s, before);
      CleanKept(p, Exec(p, s, before), steps[|steps| - 1]);
      NextKeepsInv(p, Exec(p, s, before), steps[|steps| - 1]);
    }
  }

  /** The step takes our finalizer off object `u`, whether or not the object goes with it. */
  predicate DropsOurs(s: Sys, s': Sys, u: nat) {
    && Stored(s, u) && HasOurs(s.server.value)
    && !(Stored(s', u) && HasOurs(s'.server.value))
  }

  lemma AbsentOrderIsClean(p: C.Params, w: World)
    requires AllAbsent(p.uninstallOrder, w)
    ensures AllTraceless(p.uninstallOrder, w) <==> NoneHides(p.uninstallOrder, w)
    ensures CF.Covers(p.uninstallOrder, p.installOrder) ==> AllAbsent(p.installOrder, w) && NoOrgs(w)
  {
    AllTracelessIff(p.uninstallOrder, w);
    if CF.Covers(p.uninstallOrder, p.installOrder) {
      assert Absent(Orgs, w);
    }
  }

  /** Nothing of the orders is left but what the lookup hides, after a full pass for object `u`. */
  ghost predicate LeftClean(p: C.Params, s: Sys, u: nat) {
    && u in s.passes && FullPass(p.uninstallOrder, s.passes[u])
    && AllAbsent(p.uninstallOrder, s.world)
    && (AllTraceless(p.uninstallOrder, s.world) <==> NoneHides(p.uninstallOrder, s.world))
    && (CF.Covers(p.uninstallOrder, p.installOrder) ==> AllAbsent(p.installOrder, s.world) && NoOrgs(s.world))
  }

  lemma DropLeavesClean(p: C.Params, s: Sys, step: Step, u: nat)
    requires C.ValidOrder(p.installOrder) && Inv(p, s) && CleanSoFar(p, s) && DropsOurs(s, Next(p, s, step), u)
    ensures step.PatchMain? && s.ctl.Committing? && s.ctl.original.uid == u
    ensures Cfg(s.server.value) != ZERO_CONFIG ==> LeftClean(p, Next(p, s, step), u)
  {
    OnlyMainPatchDrops(p, s, step, u);
    if Cfg(s.server.value) != ZERO_CONFIG { AbsentOrderIsClean(p, s.world); }
  }

  /** Only the controller's main patch takes our finalizer off. At that moment, if a configuration was
      ever committed, a full pass has just ended and, if in this pass nobody brings back what it has
      found gone, nothing of the uninstall order is left but releases that the Helm lookup hides, hence
      nothing of the install order and no org. Before the pass, and to anything that it has not got to,
      others may do what they like. */
  lemma FinalizerGoneMeansClean(p: C.Params, r: Sys, steps: seq<Step>, step: Step, u: nat)
    requires C.ValidOrder(p.installOrder) && Reachable(p, r) && AtRest(r) && NobodyRevives(p, r, steps)
    requires var s := Exec(p, r, steps); DropsOurs(s, Next(p, s, step), u)
    ensures var s := Exec(p, r, steps);
            && step.PatchMain? && s.ctl.Committing? && s.ctl.original.uid == u
            && (Cfg(s.server.value) != ZERO_CONFIG ==> LeftClean(p, Next(p, s, step), u))
  {
    ReachableHasInv(p, r);
    CleanReachable(p, r, steps);
    DropLeavesClean(p, Exec(p, r, steps), step, u);
  }

  lemma OnlyMainPatchDrops(p: C.Params, s: Sys, step: Step, u: nat)
    requires C.ValidOrder(p.installOrder) && Inv(p, s) && DropsOurs(s, Next(p, s, step), u)
    ensures step.PatchMain? && s.ctl.Committing? && s.ctl.original.uid == u
    ensures !HasOurs(s.ctl.local) && s.ctl.original.status == s.server.value.status
    ensures Next(p, s, step).world == s.world
  {
    if !IsWork(step) && !IsCommit(step) {
      UserStepIsEdit(s, step);
    }
  }
}
