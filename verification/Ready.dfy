/** What a committed Ready status means, over every run of the protocol. */
module Ready {
  import opened Prelude
  import opened Types
  import opened Cluster
  import opened Installables
  import opened InstallableFacts
  import opened Protocol
  import C = Controller
  import CF = ControllerFacts
  import A = ApiServer

  // ----- objects without our finalizer -----

  /** Without our finalizer nothing but state and observed generation can have been written: such an
      object got at most the status patch of a finalize of its predecessor. */
  predicate Pristine(o: Object) {
    !HasOurs(o) && !o.deleting ==>
      && o.status.conditions == [] && o.status.url == "" && Cfg(o) == ZERO_CONFIG
      && (o.status.state.Unset? || o.status.state.Deleting?)
  }

  predicate PlainOk(o: Object) {
    Pristine(o) && o.generation >= 1
  }

  /** Finalizing touches state and observed generation only, until it has something to report. */
  predicate OnlyMarked(o: Object, local: Object) {
    local.status == o.status.(state := Deleting, observedGeneration := local.status.observedGeneration)
  }

  predicate PlainInv(s: Sys) {
    && (s.server.Some? ==> PlainOk(s.server.value))
    && match s.ctl
       case Idle => true
       case Started(o) => PlainOk(o)
       case Installing(o, _, _) => PlainOk(o)
       case Finalizing(o, local, _) => PlainOk(o) && OnlyMarked(o, local)
       case Committing(o, local, _) => PlainOk(o) && (!HasOurs(local) ==> OnlyMarked(o, local))
       case CommittingStatus(o, local, _) =>
         && PlainOk(o) && (!HasOurs(local) ==> OnlyMarked(o, local))
         && (s.server.Some? && s.server.value.uid != o.uid && !o.deleting ==> !HasOurs(o))
  }

  lemma PlainAfterBegin(s: Sys, l: C.Lookups, now: int)
    requires PlainInv(s) && s.ctl.Started?
    ensures PlainInv(s.(ctl := BeginCtl(s.ctl.original, l, now)))
  {
  }

  lemma PlainAfterWork(p: C.Params, s: Sys, step: Step)
    requires C.ValidOrder(p.installOrder) && Inv(p, s) && PlainInv(s) && IsWork(step)
    ensures PlainInv(WorkStep(p, s, step))
  {
    match step
    case Begin(l, now) => if s.ctl.Started? { PlainAfterBegin(s, l, now); }
    case InstallOne(_) =>
    case InstallDone(_) =>
    case UninstallOne(_, _) =>
    case UninstallDone =>
  }

  lemma PlainAfterMainPatch(p: C.Params, s: Sys, fails: bool)
    requires Inv(p, s) && PlainInv(s) && s.ctl.Committing?
    ensures PlainInv(PatchMainStep(s, fails))
  {
    if !fails && s.server.Some? {
      PatchMainGuards(p, s);
    }
  }

  lemma PlainAfterStatusPatch(p: C.Params, s: Sys, fails: bool)
    requires Inv(p, s) && PlainInv(s) && s.ctl.CommittingStatus?
    ensures PlainInv(PatchStatusStep(s, fails))
  {
  }

  lemma PlainAfterUser(p: C.Params, s: Sys, step: Step)
    requires Inv(p, s) && PlainInv(s)
    ensures PlainInv(UserStep(s, step))
  {
    if s.server.Some? {
      UserStepIsEdit(s, step);
    }
  }

  lemma PlainKept(p: C.Params, s: Sys, step: Step)
    requires C.ValidOrder(p.installOrder) && Inv(p, s) && PlainInv(s)
    ensures PlainInv(Next(p, s, step))
  {
    if IsWork(step) {
      PlainAfterWork(p, s, step);
    } else if IsCommit(step) {
      match step
      case PatchMain(fails) => if s.ctl.Committing? { PlainAfterMainPatch(p, s, fails); }
      case PatchStatus(fails) => if s.ctl.CommittingStatus? { PlainAfterStatusPatch(p, s, fails); }
      case _ =>
    } else {
      PlainAfterUser(p, s, step);
    }
  }

  // ----- a committed Ready -----

  /** URL, conditions and configuration agree; the observed generation may be lost. */
  ghost predicate ReadyBacked(s: Status) {
    && s.url == "https://cfapi." + s.config.cfDomain
    && s.config != ZERO_CONFIG && C.LegalGateway(s.config)
    && IsTrue(s.conditions, CONFIGURATION) && IsTrue(s.conditions, INSTALLATION)
    && (var g := FindCondition(s.conditions, CONFIGURATION).value.observedGeneration;
        && FindCondition(s.conditions, INSTALLATION).value.observedGeneration == g
        && g >= 1 && (s.observedGeneration == g || s.observedGeneration == 0))
  }

  ghost predicate Backed(p: C.Params, s: Sys, o: Object) {
    o.status.state.Ready? ==>
      && ReadyBacked(o.status)
      && o.uid in s.evidence && s.evidence[o.uid].0 == Cfg(o)
      && FullPass(p.installOrder, s.evidence[o.uid].1)
  }

  ghost predicate LocalReady(p: C.Params, o: Object, local: Object, results: seq<Report>) {
    local.status.state.Ready? ==>
      && !o.deleting
      && CF.ReadyStatus(local.status) && local.status.observedGeneration >= 1
      && FullPass(p.installOrder, results)
  }

  /** The local object is what accepting a compiled configuration made of the original. */
  ghost predicate JustAccepted(o: Object, local: Object) {
    exists l, now :: C.Compile(o.spec, l) == Ok(Cfg(local)) && local == C.Accepted(C.Begin(o), Cfg(local), now)
  }

  ghost predicate ReadyInv(p: C.Params, s: Sys) {
    && (s.server.Some? ==> Backed(p, s, s.server.value))
    && match s.ctl
       case Installing(o, local, _) => JustAccepted(o, local)
       case Committing(o, local, results) => LocalReady(p, o, local, results)
       case CommittingStatus(o, local, results) => LocalReady(p, o, local, results)
       case Finalizing(_, local, _) => !local.status.state.Ready?
       case _ => true
  }

  lemma ReadyAfterBegin(p: C.Params, s: Sys, l: C.Lookups, now: int)
    requires ReadyInv(p, s) && s.ctl.Started?
    ensures ReadyInv(p, s.(ctl := BeginCtl(s.ctl.original, l, now)))
  {
    var o := s.ctl.original;
    if !o.deleting && C.Compile(o.spec, l).Ok? {
      var local := C.Accepted(C.Begin(o), C.Compile(o.spec, l).value, now);
      assert Cfg(local) == C.Compile(o.spec, l).value;
      assert JustAccepted(o, local);
    }
  }

  lemma ReadyAfterPass(p: C.Params, o: Object, local: Object, results: seq<Report>, now: int)
    requires JustAccepted(o, local) && |results| == |p.installOrder| > 0 && !o.deleting && o.generation >= 1
    ensures LocalReady(p, o, C.ApplyInstallResult(local, C.Aggregate(results), now), results)
  {
    var l, accepted :| C.Compile(o.spec, l) == Ok(Cfg(local)) && local == C.Accepted(C.Begin(o), Cfg(local), accepted);
    C.CompiledIsLegal(o.spec, l);
    var i := C.AggregateIsEarliestWorst(results);
    CF.ReadyAfterResult(o, Cfg(local), C.Aggregate(results), accepted, now);
  }

  /** A Ready computed for an object that is gone reaches its successor whole, but for the observed
      generation, which is lost if it had not changed. */
  lemma PatchOnSuccessor(o: Object, local: Object)
    requires Pristine(o) && !HasOurs(o) && !o.deleting
    requires local.status.state.Ready? && CF.ReadyStatus(local.status)
    ensures A.MergeStatus(NEW_STATUS, o.status, local.status) ==
            local.status.(observedGeneration :=
              if o.status.observedGeneration == local.status.observedGeneration then 0 else local.status.observedGeneration)
  {
    A.MergeFromRead(o.status, local.status);
    assert A.MergeConfig(ZERO_CONFIG, Cfg(o), Cfg(local)) == Cfg(local);
  }

  /** Nothing but Ready comes of Ready. */
  lemma SuccessorReadyOnlyFromReady(s: Status, o: Status, local: Status)
    requires s.state.Unset? && A.MergeStatus(s, o, local).state.Ready?
    ensures local.state.Ready?
  {
  }

  lemma ReadyAfterStatusPatch(p: C.Params, s: Sys, fails: bool)
    requires Inv(p, s) && PlainInv(s) && ReadyInv(p, s) && s.ctl.CommittingStatus?
    ensures ReadyInv(p, PatchStatusStep(s, fails))
  {
    if !fails && s.server.Some? {
      var v, o, local := s.server.value, s.ctl.original, s.ctl.local;
      if v.uid == o.uid {
        A.MergeFromRead(o.status, local.status);
      } else if A.PatchedStatus(v, o, local).status.state.Ready? {
        SuccessorReadyOnlyFromReady(v.status, o.status, local.status);
        PatchOnSuccessor(o, local);
      }
    }
  }

  lemma ReadyAfterUser(p: C.Params, s: Sys, step: Step)
    requires Inv(p, s) && ReadyInv(p, s)
    ensures ReadyInv(p, UserStep(s, step))
  {
    if s.server.Some? {
      UserStepIsEdit(s, step);
    }
  }

  lemma ReadyAfterWork(p: C.Params, s: Sys, step: Step)
    requires C.ValidOrder(p.installOrder) && Inv(p, s) && PlainInv(s) && ReadyInv(p, s) && IsWork(step)
    ensures ReadyInv(p, WorkStep(p, s, step))
  {
    match step
    case Begin(l, now) => if s.ctl.Started? { ReadyAfterBegin(p, s, l, now); }
    case InstallOne(f) => if s.ctl.Installing? && |s.ctl.results| < |p.installOrder| { ReadyAfterOne(p, s, f); }
    case InstallDone(now) =>
      if s.ctl.Installing? && |s.ctl.results| == |p.installOrder| {
        ReadyAfterPass(p, s.ctl.original, s.ctl.local, s.ctl.results, now);
      }
    case UninstallOne(_, _) =>
    case UninstallDone =>
  }

  lemma ReadyKept(p: C.Params, s: Sys, step: Step)
    requires C.ValidOrder(p.installOrder) && Inv(p, s) && PlainInv(s) && ReadyInv(p, s)
    ensures ReadyInv(p, Next(p, s, step))
  {
    if IsWork(step) {
      ReadyAfterWork(p, s, step);
    } else if IsCommit(step) {
      match step
      case PatchMain(fails) => if s.ctl.Committing? { ReadyAfterMainPatch(p, s, fails); }
      case PatchStatus(fails) => if s.ctl.CommittingStatus? { ReadyAfterStatusPatch(p, s, fails); }
      case _ =>
    } else {
      ReadyAfterUser(p, s, step);
    }
  }

  lemma ReadyAfterOne(p: C.Params, s: Sys, f: Faults)
    requires C.ValidOrder(p.installOrder) && ReadyInv(p, s) && s.ctl.Installing? && |s.ctl.results| < |p.installOrder|
    ensures ReadyInv(p, InstallOneStep(p, s, f))
  {
    var (o, local) := (s.ctl.original, s.ctl.local);
    var l, now :| C.Compile(o.spec, l) == Ok(Cfg(local)) && local == C.Accepted(C.Begin(o), Cfg(local), now);
    assert local.status.state.Processing?;
  }

  lemma ReadyAfterMainPatch(p: C.Params, s: Sys, fails: bool)
    requires ReadyInv(p, s) && s.ctl.Committing?
    ensures ReadyInv(p, PatchMainStep(s, fails))
  {
  }

  lemma {:induction false} ReadyReachable(p: C.Params, w: World, steps: seq<Step>)
    requires C.ValidOrder(p.installOrder)
    ensures PlainInv(Exec(p, Init(w), steps)) && ReadyInv(p, Exec(p, Init(w), steps))
    decreases |steps|
  {
    if steps != [] {
      var before := Exec(p, Init(w), steps[..|steps| - 1]);
      ReadyReachable(p, w, steps[..|steps| - 1]);
      ReachableInv(p, w, steps[..|steps| - 1]);
      PlainKept(p, before, steps[|steps| - 1]);
      ReadyKept(p, before, steps[|steps| - 1]);
    }
  }

  /** In every reachable state a stored Ready is backed by an install pass of one reconcile in which every
      component answered Success for exactly the stored configuration; URL and both conditions agree
      with it. The status observes the generation of the conditions exactly if it observes one at all.
      Ready or not, the stored configuration is a legal one or zero. */
  lemma CommittedReadyIsBacked(p: C.Params, w: World, steps: seq<Step>)
    requires C.ValidOrder(p.installOrder)
    requires Exec(p, Init(w), steps).server.Some?
    ensures var s := Exec(p, Init(w), steps);
            var o := s.server.value;
            && LegalOrZero(Cfg(o))
            && (o.status.state.Ready? ==>
                  && C.LegalGateway(Cfg(o)) && Cfg(o) != ZERO_CONFIG
                  && o.status.url == "https://cfapi." + Cfg(o).cfDomain
                  && IsTrue(o.status.conditions, CONFIGURATION) && IsTrue(o.status.conditions, INSTALLATION)
                  && o.uid in s.evidence && s.evidence[o.uid].0 == Cfg(o)
                  && FullPass(p.installOrder, s.evidence[o.uid].1)
                  && (var g := FindCondition(o.status.conditions, CONFIGURATION).value.observedGeneration;
                      && FindCondition(o.status.conditions, INSTALLATION).value.observedGeneration == g
                      && (o.status.observedGeneration == g <==> o.status.observedGeneration != 0)))
  {
    ReachableInv(p, w, steps);
    ReadyReachable(p, w, steps);
  }

  // ----- the world when Ready is committed -----

  /** What the install pass has achieved so far is still there. */
  ghost predicate InPlaceSoFar(p: C.Params, s: Sys) {
    match s.ctl
    case Installing(_, local, results) =>
      |results| <= |p.installOrder| &&
      forall i :: 0 <= i < |results| && results[i].state.Success? ==> InPlace(p.installOrder[i], Cfg(local), s.world)
    case Committing(_, local, _) => local.status.state.Ready? ==> CF.AllInPlace(p.installOrder, Cfg(local), s.world)
    case CommittingStatus(_, local, _) => local.status.state.Ready? ==> CF.AllInPlace(p.installOrder, Cfg(local), s.world)
    case _ => true
  }

  /** The components that the install pass in progress has put in place. */
  predicate PutInPlace(p: C.Params, s: Sys, i: nat) {
    i < |p.installOrder| &&
    match s.ctl
    case Installing(_, _, results) => i < |results| && results[i].state.Success?
    case Committing(_, local, _) => local.status.state.Ready?
    case CommittingStatus(_, local, _) => local.status.state.Ready?
    case _ => false
  }

  /** Nothing that the pass in progress has put in place is taken out of it. */
  ghost predicate DisturbsNothing(p: C.Params, s: Sys, w': World) {
    forall i: nat :: PutInPlace(p, s, i) && CF.InPlaceAt(p.installOrder, i, Cfg(s.ctl.local), s.world) ==>
      CF.InPlaceAt(p.installOrder, i, Cfg(s.ctl.local), w')
  }

  /** Nobody disturbs what the controller has just put in place. */
  ghost predicate NobodyDisturbs(p: C.Params, s: Sys, steps: seq<Step>)
    requires C.ValidOrder(p.installOrder)
    decreases |steps|
  {
    steps != [] ==>
      var before, last := steps[..|steps| - 1], steps[|steps| - 1];
      && NobodyDisturbs(p, s, before)
      && (last.OthersWorld? ==> DisturbsNothing(p, Exec(p, s, before), last.world))
  }

  lemma InPlaceAfterOne(p: C.Params, s: Sys, f: Faults)
    requires C.ValidOrder(p.installOrder) && CF.PairwiseDisjoint(p.installOrder) && InPlaceSoFar(p, s)
    requires s.ctl.Installing? && |s.ctl.results| < |p.installOrder| && !s.ctl.local.status.state.Ready?
    ensures InPlaceSoFar(p, InstallOneStep(p, s, f))
  {
    var k, config := |s.ctl.results|, Cfg(s.ctl.local);
    var inst := p.installOrder[k];
    var (w', a) := Install(inst, config, s.world, f);
    if a.Done? {
      if a.Succeeded() { InstallSuccessMeansInPlace(inst, config, s.world, f); }
      forall i | 0 <= i < k && s.ctl.results[i].state.Success? ensures InPlace(p.installOrder[i], config, w') {
        CF.DisjointAt(p.installOrder, i, k);
        CF.NextKeepsInPlace(p.installOrder[i], inst, config, s.world, f);
      }
    }
  }

  lemma InPlaceAfterPass(p: C.Params, s: Sys, now: int)
    requires C.ValidOrder(p.installOrder) && InPlaceSoFar(p, s)
    requires s.ctl.Installing? && |s.ctl.results| == |p.installOrder| > 0
    ensures var local := C.ApplyInstallResult(s.ctl.local, C.Aggregate(s.ctl.results), now);
            local.status.state.Ready? ==> CF.AllInPlace(p.installOrder, Cfg(local), s.world)
  {
    var i := C.AggregateIsEarliestWorst(s.ctl.results);
    if C.Aggregate(s.ctl.results).state.Success? {
      forall k: nat | k < |p.installOrder| ensures CF.InPlaceAt(p.installOrder, k, Cfg(s.ctl.local), s.world) {
        assert s.ctl.results[k].state.Success?;
      }
    }
  }

  lemma InPlaceAfterBegin(p: C.Params, s: Sys, l: C.Lookups, now: int)
    requires s.ctl.Started?
    ensures InPlaceSoFar(p, s.(ctl := BeginCtl(s.ctl.original, l, now)))
  {
  }

  lemma InPlaceAfterUninstalls(p: C.Params, s: Sys, step: Step)
    requires C.ValidOrder(p.installOrder) && (step.UninstallOne? || step.UninstallDone?)
    requires s.ctl.Finalizing? && !s.ctl.local.status.state.Ready?
    ensures InPlaceSoFar(p, WorkStep(p, s, step))
  {
  }

  lemma InPlaceAfterWork(p: C.Params, s: Sys, step: Step)
    requires C.ValidOrder(p.installOrder) && CF.PairwiseDisjoint(p.installOrder) && IsWork(step)
    requires ReadyInv(p, s) && InPlaceSoFar(p, s)
    ensures InPlaceSoFar(p, WorkStep(p, s, step))
  {
    match step
    case Begin(l, now) => if s.ctl.Started? { InPlaceAfterBegin(p, s, l, now); }
    case InstallOne(f) =>
      if s.ctl.Installing? && |s.ctl.results| < |p.installOrder| {
        AcceptedIsProcessing(s.ctl.original, s.ctl.local);
        InPlaceAfterOne(p, s, f);
      }
    case InstallDone(now) =>
      if s.ctl.Installing? && |s.ctl.results| == |p.installOrder| { InPlaceAfterPass(p, s, now); }
    case _ => if s.ctl.Finalizing? { InPlaceAfterUninstalls(p, s, step); }
  }

  lemma AcceptedIsProcessing(o: Object, local: Object)
    requires JustAccepted(o, local)
    ensures local.status.state.Processing?
  {
  }

  lemma InPlaceAfterCommit(p: C.Params, s: Sys, step: Step)
    requires InPlaceSoFar(p, s) && IsCommit(step)
    ensures InPlaceSoFar(p, CommitStep(s, step))
  {
  }

  lemma InPlaceAfterUser(p: C.Params, s: Sys, step: Step)
    requires InPlaceSoFar(p, s)
    requires step.OthersWorld? ==> DisturbsNothing(p, s, step.world)
    ensures InPlaceSoFar(p, UserStep(s, step))
  {
    if step.OthersWorld? {
      forall i: nat | PutInPlace(p, s, i) ensures CF.InPlaceAt(p.installOrder, i, Cfg(s.ctl.local), step.world) {
        assert CF.InPlaceAt(p.installOrder, i, Cfg(s.ctl.local), s.world);
      }
      if s.ctl.Installing? {
        forall i: nat | i < |s.ctl.results| && s.ctl.results[i].state.Success?
          ensures InPlace(p.installOrder[i], Cfg(s.ctl.local), step.world)
        {
          assert PutInPlace(p, s, i);
        }
      }
    }
  }

  lemma InPlaceKept(p: C.Params, s: Sys, step: Step)
    requires C.ValidOrder(p.installOrder) && CF.PairwiseDisjoint(p.installOrder)
    requires ReadyInv(p, s) && InPlaceSoFar(p, s)
    requires step.OthersWorld? ==> DisturbsNothing(p, s, step.world)
    ensures InPlaceSoFar(p, Next(p, s, step))
  {
    if IsWork(step) {
      InPlaceAfterWork(p, s, step);
    } else if IsCommit(step) {
      InPlaceAfterCommit(p, s, step);
    } else {
      InPlaceAfterUser(p, s, step);
    }
  }

  lemma {:induction false} InPlaceReachable(p: C.Params, s: Sys, steps: seq<Step>)
    requires C.ValidOrder(p.installOrder) && CF.PairwiseDisjoint(p.installOrder)
    requires AllInv(p, s) && AtRest(s) && NobodyDisturbs(p, s, steps)
    ensures AllInv(p, Exec(p, s, steps)) && InPlaceSoFar(p, Exec(p, s, steps))
    decreases |steps|
  {
    if steps != [] {
      var before := steps[..|steps| - 1];
      InPlaceReachable(p, s, before);
      InPlaceKept(p, Exec(p, s, before), steps[|steps| - 1]);
      AllKept(p, Exec(p, s, before), steps[|steps| - 1]);
    }
  }

  ghost predicate AllInv(p: C.Params, s: Sys) {
    Inv(p, s) && PlainInv(s) && ReadyInv(p, s)
  }

  lemma ReachableHasAllInv(p: C.Params, s: Sys)
    requires C.ValidOrder(p.installOrder) && Reachable(p, s)
    ensures AllInv(p, s)
  {
    var w, steps :| s == Exec(p, Init(w), steps);
    ReachableInv(p, w, steps);
    ReadyReachable(p, w, steps);
  }

  lemma AllKept(p: C.Params, s: Sys, step: Step)
    requires C.ValidOrder(p.installOrder) && AllInv(p, s)
    ensures AllInv(p, Next(p, s, step))
  {
    NextKeepsInv(p, s, step);
    PlainKept(p, s, step);
    ReadyKept(p, s, step);
  }

  lemma CommittedIsLocal(p: C.Params, s: Sys)
    requires Inv(p, s) && PlainInv(s) && ReadyInv(p, s) && s.ctl.CommittingStatus? && s.server.Some?
    requires A.PatchedStatus(s.server.value, s.ctl.original, s.ctl.local).status.state.Ready?
    ensures s.ctl.local.status.state.Ready?
    ensures Cfg(A.PatchedStatus(s.server.value, s.ctl.original, s.ctl.local)) == Cfg(s.ctl.local)
  {
    var v, o, local := s.server.value, s.ctl.original, s.ctl.local;
    if v.uid == o.uid {
      A.MergeFromRead(o.status, local.status);
    } else {
      SuccessorReadyOnlyFromReady(v.status, o.status, local.status);
      PatchOnSuccessor(o, local);
    }
  }

  /** At the moment a Ready status is stored, every component of the install order is in place for exactly
      the configuration stored with it, if nobody takes away what this reconcile has put in place; what others
      did before it, and edits, deletions and recreations of the object during it, do not matter. */
  lemma ReadyCommitMeansInPlace(p: C.Params, r: Sys, steps: seq<Step>)
    requires C.ValidOrder(p.installOrder) && CF.PairwiseDisjoint(p.installOrder)
    requires Reachable(p, r) && AtRest(r) && NobodyDisturbs(p, r, steps)
    requires var s := Exec(p, r, steps); s.ctl.CommittingStatus? && s.server.Some?
    ensures var s := Next(p, Exec(p, r, steps), PatchStatus(false));
            s.server.Some? && (s.server.value.status.state.Ready? ==> CF.AllInPlace(p.installOrder, Cfg(s.server.value), s.world))
  {
    var s := Exec(p, r, steps);
    ReachableHasAllInv(p, r);
    InPlaceReachable(p, r, steps);
    assert Next(p, s, PatchStatus(false)) == PatchStatusStep(s, false);
    if PatchStatusStep(s, false).server.value.status.state.Ready? {
      CommittedIsLocal(p, s);
    }
  }
}
