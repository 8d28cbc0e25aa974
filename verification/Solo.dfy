/** One undisturbed reconcile of the protocol is the body of module Controller. */
module Solo {
  import opened Prelude
  import opened Types
  import opened Cluster
  import opened Installables
  import opened InstallableFacts
  import opened Protocol
  import C = Controller
  import R = Reconcile

  lemma ExecNext(p: C.Params, s: Sys, steps: seq<Step>, step: Step)
    requires C.ValidOrder(p.installOrder)
    ensures Exec(p, s, steps + [step]) == Next(p, Exec(p, s, steps), step)
  {
    assert (steps + [step])[..|steps|] == steps;
  }

  lemma {:induction false} ExecAppend(p: C.Params, s: Sys, first: seq<Step>, second: seq<Step>)
    requires C.ValidOrder(p.installOrder)
    ensures Exec(p, s, first + second) == Exec(p, Exec(p, s, first), second)
    decreases |second|
  {
    if second == [] {
      assert first + second == first;
    } else {
      var most, last := second[..|second| - 1], second[|second| - 1];
      ExecAppend(p, s, first, most);
      assert first + second == (first + most) + [last];
      ExecNext(p, s, first + most, last);
    }
  }

  lemma ExecCons(p: C.Params, s: Sys, step: Step, rest: seq<Step>)
    requires C.ValidOrder(p.installOrder)
    ensures Exec(p, s, [step] + rest) == Exec(p, Next(p, s, step), rest)
  {
    ExecAppend(p, s, [step], rest);
    ExecNext(p, s, [], step);
    assert [] + [step] == [step];
  }

  lemma ExecWork(p: C.Params, s: Sys, step: Step, rest: seq<Step>)
    requires C.ValidOrder(p.installOrder) && IsWork(step)
    ensures Exec(p, s, [step] + rest) == Exec(p, WorkStep(p, s, step), rest)
    ensures Exec(p, s, [step]) == WorkStep(p, s, step)
  {
    ExecCons(p, s, step, rest);
    ExecCons(p, s, step, []);
    assert [step] + [] == [step];
  }

  function InstallSteps(faults: nat -> Faults, from: nat, n: nat): seq<Step>
    requires from <= n
  {
    seq(n - from, i requires 0 <= i < n - from => InstallOne(faults(from + i)))
  }

  function UninstallSteps(faults: nat -> Faults, now: int, from: nat, n: nat): seq<Step>
    requires from <= n
  {
    seq(n - from, i requires 0 <= i < n - from => UninstallOne(faults(from + i), now))
  }

  /** What each ending of an uninstall pass makes of the local object. */
  function Finalized(local: Object, end: C.UninstallEnd, now: int): Object {
    match end
    case Broken(_) => local
    case Pending(r) => C.DeletionPending(local, r, now)
    case Complete(_) => C.DropFinalizer(local)
  }

  /** The passes of one body; the steps that do not apply do nothing. */
  function PassSteps(p: C.Params, now: int, faults: nat -> Faults): seq<Step> {
    InstallSteps(faults, 0, |p.installOrder|) + [InstallDone(now)]
      + (UninstallSteps(faults, now, 0, |p.uninstallOrder|) + [UninstallDone])
  }

  /** Outside their phase the steps of a pass do nothing. */
  lemma {:induction false} Skipped(p: C.Params, s: Sys, steps: seq<Step>)
    requires C.ValidOrder(p.installOrder)
    requires s.ctl.Committing?
    requires forall i :: 0 <= i < |steps| ==> IsWork(steps[i])
    ensures Exec(p, s, steps) == s
    decreases |steps|
  {
    if steps != [] { Skipped(p, s, steps[..|steps| - 1]); }
  }

  lemma {:induction false} InstallsSkipped(p: C.Params, s: Sys, steps: seq<Step>)
    requires C.ValidOrder(p.installOrder) && s.ctl.Finalizing?
    requires forall i :: 0 <= i < |steps| ==> steps[i].InstallOne?
    ensures Exec(p, s, steps) == s
    decreases |steps|
  {
    if steps != [] { InstallsSkipped(p, s, steps[..|steps| - 1]); }
  }

  /** What the steps of a pass, from state `s` to state `t`, have in common. */
  predicate PassEnds(s: Sys, t: Sys)
    requires s.ctl.Installing? || s.ctl.Finalizing?
  {
    t.ctl.Committing? && t.server == s.server && t.ctl.original == s.ctl.original
  }

  ghost predicate InstallsAs(p: C.Params, s: Sys, t: Sys, faults: nat -> Faults, now: int)
    requires C.ValidOrder(p.installOrder) && s.ctl.Installing? && |s.ctl.results| <= |p.installOrder|
  {
    var (w', r) := C.InstallFrom(p.installOrder, Cfg(s.ctl.local), s.world, faults, s.ctl.results);
    && PassEnds(s, t) && t == s.(ctl := t.ctl, world := w')
    && (r.Err? ==> t.ctl.local == s.ctl.local)
    && (r.Ok? ==> r.value != [] && t.ctl.local == C.ApplyInstallResult(s.ctl.local, C.Aggregate(r.value), now))
  }

  /** One more installable, and then the rest of the pass from there. */
  lemma InstallStep(p: C.Params, s: Sys, t: Sys, faults: nat -> Faults, now: int)
    requires C.ValidOrder(p.installOrder) && s.ctl.Installing? && |s.ctl.results| < |p.installOrder|
    requires var s1 := InstallOneStep(p, s, faults(|s.ctl.results|));
             if s1.ctl.Installing? then InstallsAs(p, s1, t, faults, now) else t == s1
    ensures InstallsAs(p, s, t, faults, now)
  {
  }

  lemma InstallStepsCons(faults: nat -> Faults, k: nat, n: nat, now: int)
    requires k < n
    ensures InstallSteps(faults, k, n) + [InstallDone(now)] ==
            [InstallOne(faults(k))] + (InstallSteps(faults, k + 1, n) + [InstallDone(now)])
  {
  }

  lemma UninstallStepsCons(faults: nat -> Faults, k: nat, n: nat, now: int)
    requires k < n
    ensures UninstallSteps(faults, now, k, n) + [UninstallDone] ==
            [UninstallOne(faults(k), now)] + (UninstallSteps(faults, now, k + 1, n) + [UninstallDone])
  {
  }

  lemma InstallLast(p: C.Params, s: Sys, faults: nat -> Faults, now: int)
    requires C.ValidOrder(p.installOrder) && s.ctl.Installing? && |s.ctl.results| == |p.installOrder|
    ensures InstallsAs(p, s, Exec(p, s, [InstallDone(now)]), faults, now)
  {
    ExecWork(p, s, InstallDone(now), []);
  }

  /** The install steps from result `|results|` on run the rest of the pass. */
  lemma {:induction false} InstallRun(p: C.Params, s: Sys, faults: nat -> Faults, now: int)
    requires C.ValidOrder(p.installOrder) && s.ctl.Installing? && |s.ctl.results| <= |p.installOrder|
    ensures var t := Exec(p, s, InstallSteps(faults, |s.ctl.results|, |p.installOrder|) + [InstallDone(now)]);
            InstallsAs(p, s, t, faults, now)
    decreases |p.installOrder| - |s.ctl.results|
  {
    var k, n := |s.ctl.results|, |p.installOrder|;
    if k == n {
      assert InstallSteps(faults, k, n) + [InstallDone(now)] == [InstallDone(now)];
      InstallLast(p, s, faults, now);
    } else {
      var rest := InstallSteps(faults, k + 1, n) + [InstallDone(now)];
      var s1 := InstallOneStep(p, s, faults(k));
      InstallStepsCons(faults, k, n, now);
      ExecWork(p, s, InstallOne(faults(k)), rest);
      if s1.ctl.Installing? { InstallRun(p, s1, faults, now); } else { Skipped(p, s1, rest); }
      InstallStep(p, s, Exec(p, s1, rest), faults, now);
    }
  }

  ghost predicate UninstallsAs(p: C.Params, s: Sys, t: Sys, faults: nat -> Faults, now: int)
    requires s.ctl.Finalizing? && |s.ctl.done| <= |p.uninstallOrder|
  {
    var (w', end) := C.UninstallFrom(p.uninstallOrder, Cfg(s.ctl.local), s.world, faults, s.ctl.done);
    PassEnds(s, t) && t.world == w' && t.ctl.local == Finalized(s.ctl.local, end, now)
  }

  lemma UninstallStep(p: C.Params, s: Sys, t: Sys, faults: nat -> Faults, now: int)
    requires s.ctl.Finalizing? && |s.ctl.done| < |p.uninstallOrder|
    requires var s1 := UninstallOneStep(p, s, faults(|s.ctl.done|), now);
             if s1.ctl.Finalizing? then UninstallsAs(p, s1, t, faults, now) else t == s1
    ensures UninstallsAs(p, s, t, faults, now)
  {
  }

  lemma UninstallLast(p: C.Params, s: Sys, faults: nat -> Faults, now: int)
    requires C.ValidOrder(p.installOrder) && s.ctl.Finalizing? && |s.ctl.done| == |p.uninstallOrder|
    ensures UninstallsAs(p, s, Exec(p, s, [UninstallDone]), faults, now)
  {
    ExecWork(p, s, UninstallDone, []);
  }

  lemma {:induction false} UninstallRun(p: C.Params, s: Sys, faults: nat -> Faults, now: int)
    requires C.ValidOrder(p.installOrder) && s.ctl.Finalizing? && |s.ctl.done| <= |p.uninstallOrder|
    ensures var t := Exec(p, s, UninstallSteps(faults, now, |s.ctl.done|, |p.uninstallOrder|) + [UninstallDone]);
            UninstallsAs(p, s, t, faults, now)
    decreases |p.uninstallOrder| - |s.ctl.done|
  {
    var k, n := |s.ctl.done|, |p.uninstallOrder|;
    if k == n {
      assert UninstallSteps(faults, now, k, n) + [UninstallDone] == [UninstallDone];
      UninstallLast(p, s, faults, now);
    } else {
      var rest := UninstallSteps(faults, now, k + 1, n) + [UninstallDone];
      var s1 := UninstallOneStep(p, s, faults(k), now);
      UninstallStepsCons(faults, k, n, now);
      ExecWork(p, s, UninstallOne(faults(k), now), rest);
      if s1.ctl.Finalizing? { UninstallRun(p, s1, faults, now); } else { Skipped(p, s1, rest); }
      UninstallStep(p, s, Exec(p, s1, rest), faults, now);
    }
  }

  lemma UninstallsSkipped(p: C.Params, s: Sys, faults: nat -> Faults, now: int)
    requires C.ValidOrder(p.installOrder) && s.ctl.Committing?
    ensures Exec(p, s, UninstallSteps(faults, now, 0, |p.uninstallOrder|) + [UninstallDone]) == s
  {
    Skipped(p, s, UninstallSteps(faults, now, 0, |p.uninstallOrder|) + [UninstallDone]);
  }

  lemma InstallPart(p: C.Params, s: Sys, faults: nat -> Faults, now: int)
    requires C.ValidOrder(p.installOrder) && s.ctl.Installing? && s.ctl.results == []
    ensures InstallsAs(p, s, Exec(p, s, PassSteps(p, now, faults)), faults, now)
  {
    var installs := InstallSteps(faults, 0, |p.installOrder|) + [InstallDone(now)];
    InstallRun(p, s, faults, now);
    UninstallsSkipped(p, Exec(p, s, installs), faults, now);
    ExecAppend(p, s, installs, UninstallSteps(faults, now, 0, |p.uninstallOrder|) + [UninstallDone]);
  }

  lemma InstallsAndDoneSkipped(p: C.Params, s: Sys, faults: nat -> Faults, now: int)
    requires C.ValidOrder(p.installOrder) && s.ctl.Finalizing?
    ensures Exec(p, s, InstallSteps(faults, 0, |p.installOrder|) + [InstallDone(now)]) == s
  {
    var installs := InstallSteps(faults, 0, |p.installOrder|);
    InstallsSkipped(p, s, installs);
    ExecNext(p, s, installs, InstallDone(now));
  }

  lemma UninstallPart(p: C.Params, s: Sys, faults: nat -> Faults, now: int)
    requires C.ValidOrder(p.installOrder) && s.ctl.Finalizing? && s.ctl.done == []
    ensures UninstallsAs(p, s, Exec(p, s, PassSteps(p, now, faults)), faults, now)
  {
    InstallsAndDoneSkipped(p, s, faults, now);
    ExecAppend(p, s, InstallSteps(faults, 0, |p.installOrder|) + [InstallDone(now)],
               UninstallSteps(faults, now, 0, |p.uninstallOrder|) + [UninstallDone]);
    UninstallRun(p, s, faults, now);
  }

  /** How the rest of a body ends, by where its beginning has led. */
  ghost predicate EndsAs(p: C.Params, ctl: Ctl, w: World, now: int, faults: nat -> Faults, obj: Object, w': World)
    requires C.ValidOrder(p.installOrder)
  {
    match ctl
    case Installing(_, local, _) =>
      var (end, r) := C.InstallFrom(p.installOrder, Cfg(local), w, faults, []);
      && w' == end
      && (r.Err? ==> obj == local)
      && (r.Ok? ==> r.value != [] && obj == C.ApplyInstallResult(local, C.Aggregate(r.value), now))
    case Finalizing(_, local, _) =>
      var (world, end) := C.UninstallFrom(p.uninstallOrder, Cfg(local), w, faults, []);
      w' == world && obj == Finalized(local, end, now)
    case Committing(_, local, _) => w' == w && obj == local
    case _ => false
  }

  lemma BodyEndsAs(p: C.Params, o: Object, w: World, l: C.Lookups, now: int, faults: nat -> Faults)
    requires C.ValidOrder(p.installOrder)
    ensures var end := C.Body(p, o, w, l, now, faults);
            EndsAs(p, BeginCtl(o, l, now), w, now, faults, end.obj, end.world)
  {
    if !o.deleting && C.Compile(o.spec, l).Ok? {
      C.InstallFromLength(p.installOrder, C.Compile(o.spec, l).value, w, faults, []);
    }
  }

  lemma StepsEndAs(p: C.Params, s: Sys, now: int, faults: nat -> Faults)
    requires C.ValidOrder(p.installOrder)
    requires (s.ctl.Installing? && s.ctl.results == []) || (s.ctl.Finalizing? && s.ctl.done == []) || s.ctl.Committing?
    ensures var t := Exec(p, s, PassSteps(p, now, faults));
            && t.ctl.Committing? && t.ctl.original == s.ctl.original && t.server == s.server
            && EndsAs(p, s.ctl, s.world, now, faults, t.ctl.local, t.world)
  {
    var installs := InstallSteps(faults, 0, |p.installOrder|) + [InstallDone(now)];
    var tail := UninstallSteps(faults, now, 0, |p.uninstallOrder|) + [UninstallDone];
    match s.ctl
    case Installing(_, _, _) => InstallPart(p, s, faults, now);
    case Finalizing(_, _, _) => UninstallPart(p, s, faults, now);
    case Committing(_, _, _) => Skipped(p, s, installs + tail);
  }

  /** With nobody interfering, the steps of one body take the read object to exactly the object and the
      world that ReconcileResource computes. */
  lemma SoloBody(p: C.Params, s: Sys, l: C.Lookups, now: int, faults: nat -> Faults)
    requires C.ValidOrder(p.installOrder) && s.ctl.Started?
    ensures var t := Exec(p, s, [Begin(l, now)] + PassSteps(p, now, faults));
            var end := C.Body(p, s.ctl.original, s.world, l, now, faults);
            && t.ctl.Committing? && t.ctl.original == s.ctl.original
            && t.ctl.local == end.obj && t.world == end.world && t.server == s.server
  {
    var s1 := s.(ctl := BeginCtl(s.ctl.original, l, now));
    var t := Exec(p, s1, PassSteps(p, now, faults));
    var end := C.Body(p, s.ctl.original, s.world, l, now, faults);
    SoloBegins(p, s, l, now, PassSteps(p, now, faults));
    StepsEndAs(p, s1, now, faults);
    BodyEndsAs(p, s.ctl.original, s.world, l, now, faults);
    EndsOneWay(p, s1.ctl, s.world, now, faults, t.ctl.local, t.world, end.obj, end.world);
  }

  lemma SoloBegins(p: C.Params, s: Sys, l: C.Lookups, now: int, rest: seq<Step>)
    requires C.ValidOrder(p.installOrder) && s.ctl.Started?
    ensures Exec(p, s, [Begin(l, now)] + rest) == Exec(p, s.(ctl := BeginCtl(s.ctl.original, l, now)), rest)
    ensures var ctl := BeginCtl(s.ctl.original, l, now);
            && ((ctl.Installing? && ctl.results == []) || (ctl.Finalizing? && ctl.done == []) || ctl.Committing?)
            && ctl.original == s.ctl.original
  {
    ExecCons(p, s, Begin(l, now), rest);
  }

  lemma EndsOneWay(p: C.Params, ctl: Ctl, w: World, now: int, faults: nat -> Faults,
                   obj: Object, w': World, obj2: Object, w2: World)
    requires C.ValidOrder(p.installOrder)
    requires EndsAs(p, ctl, w, now, faults, obj, w') && EndsAs(p, ctl, w, now, faults, obj2, w2)
    ensures obj == obj2 && w' == w2
  {
    if ctl.Installing? {
      var (end, r) := C.InstallFrom(p.installOrder, Cfg(ctl.local), w, faults, []);
      assert r.Ok? || r.Err?;
    }
  }

  // ----- the commit -----

  /** The two patch steps of the protocol, with whatever others do before each, store what Reconcile commits. */
  lemma SoloCommit(s: Sys, e: R.Env)
    requires s.ctl.Committing? && !e.convertFails
    ensures var o, local := s.ctl.original, s.ctl.local;
            var s1 := PatchMainStep(s.(server := e.beforeMain(s.server)), e.mainFails);
            var (committed, error) := R.Commit(s.server, o, local, e);
            && (s1.ctl.Idle? <==> error == Some(R.MAIN_FAILED))
            && (s1.ctl.Idle? ==> s1.server == committed)
            && (!s1.ctl.Idle? ==>
                  && s1.ctl.CommittingStatus? && s1.ctl.original == o && s1.ctl.local == local
                  && var s2 := PatchStatusStep(s1.(server := e.beforeStatus(s1.server)), e.statusFails);
                     s2.server == committed && s2.ctl.Idle?)
  {
  }
}
