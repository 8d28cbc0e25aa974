/**
 The CFAPI controller as a state machine over small steps: read, one step of the body, main patch,
 status patch, crash; and, at any moment in between, users who create, edit and delete the object,
 other controllers that add and remove finalizers of their own, and anything at all that happens
 to the installed components. One worker runs; an object deleted while a reconcile is in flight can
 be recreated under the same name, and the patches of that reconcile then hit the new object.
 */
module Protocol {
  import opened Prelude
  import opened Types
  import opened Cluster
  import opened Installables
  import opened InstallableFacts
  import C = Controller
  import A = ApiServer

  /** Where the worker is. `original` is the copy read at the start, `local` the modified one. */
  datatype Ctl =
    | Idle
    | Started(original: Object)
    | Installing(original: Object, local: Object, results: seq<Report>)
    | Finalizing(original: Object, local: Object, done: seq<Report>)
    | Committing(original: Object, local: Object, results: seq<Report>)
    | CommittingStatus(original: Object, local: Object, results: seq<Report>)

  /** The last two fields are history: the last complete uninstall pass of each object, and the install
      pass behind each object's committed status. */
  datatype Sys = Sys(
    server: Option<Object>,
    ctl: Ctl,
    world: World,
    nextUid: nat,
    passes: map<nat, seq<Report>>,
    evidence: map<nat, (Config, seq<Report>)>)

  datatype Step =
    | Read
    | Begin(lookups: C.Lookups, now: int)
    | InstallOne(faults: Faults)
    | InstallDone(now: int)
    | UninstallOne(faults: Faults, now: int)
    | UninstallDone
    | PatchMain(fails: bool)
    | PatchStatus(fails: bool)
    | Crash
    | UserCreate(spec: Spec, finalizers: seq<string>)
    | UserEdit(spec: Spec)
    | UserDelete(bumpsGeneration: bool)
    | OthersFinalizers(finalizers: seq<string>)
    | OthersWorld(world: World)

  predicate HasOurs(o: Object) { FINALIZER in o.finalizers }

  function Cfg(o: Object): Config { o.status.config }

  function BeginCtl(o: Object, l: C.Lookups, now: int): Ctl {
    var o1 := C.Begin(o);
    if o.deleting then
      var o2 := C.MarkDeleting(o1);
      if Cfg(o2) == ZERO_CONFIG then Committing(o, C.DropFinalizer(o2), []) else Finalizing(o, o2, [])
    else
      match C.Compile(o.spec, l)
      case Err(m) => Committing(o, C.Rejected(o1, m, now), [])
      case Ok(config) => Installing(o, C.Accepted(o1, config, now), [])
  }

  function InstallOneStep(p: C.Params, s: Sys, f: Faults): Sys
    requires C.ValidOrder(p.installOrder) && s.ctl.Installing? && |s.ctl.results| < |p.installOrder|
  {
    var Installing(o, local, results) := s.ctl;
    var (w', a) := Install(p.installOrder[|results|], Cfg(local), s.world, f);
    s.(world := w', ctl := match a
                           case Errored(_) => Committing(o, local, [])
                           case Done(r) => Installing(o, local, results + [r]))
  }

  function UninstallOneStep(p: C.Params, s: Sys, f: Faults, now: int): Sys
    requires s.ctl.Finalizing? && |s.ctl.done| < |p.uninstallOrder|
  {
    var Finalizing(o, local, done) := s.ctl;
    var (w', a) := Uninstall(p.uninstallOrder[|done|], Cfg(local), s.world, f);
    s.(world := w', ctl := match a
                           case Errored(_) => Committing(o, local, [])
                           case Done(r) => if r.state.Success? then Finalizing(o, local, done + [r])
                                           else Committing(o, C.DeletionPending(local, r, now), []))
  }

  function PatchMainStep(s: Sys, fails: bool): Sys
    requires s.ctl.Committing?
  {
    if fails || s.server.None? then s.(ctl := Idle) else
    var Committing(o, local, results) := s.ctl;
    match A.PatchMain(s.server.value, o, local)
    case Refused => s.(ctl := Idle)
    case Gone => s.(server := None, ctl := CommittingStatus(o, local, results))
    case Kept(o') => s.(server := Some(o'), ctl := CommittingStatus(o, local, results))
  }

  function PatchStatusStep(s: Sys, fails: bool): Sys
    requires s.ctl.CommittingStatus?
  {
    if fails || s.server.None? then s.(ctl := Idle) else
    var CommittingStatus(o, local, results) := s.ctl;
    s.(server := Some(A.PatchedStatus(s.server.value, o, local)), ctl := Idle,
       evidence := s.evidence[s.server.value.uid := (Cfg(local), results)])
  }

  function UserStep(s: Sys, step: Step): Sys {
    match step
    case UserCreate(spec, fs) =>
      if s.server.Some? || FINALIZER in fs then s
      else s.(server := Some(Object(s.nextUid, 1, false, fs, spec, NEW_STATUS)), nextUid := s.nextUid + 1)
    case UserEdit(spec) =>
      if s.server.None? || s.server.value.spec == spec then s
      else s.(server := Some(s.server.value.(spec := spec, generation := s.server.value.generation + 1)))
    case UserDelete(bump) =>
      if s.server.None? then s
      else if s.server.value.finalizers == [] then s.(server := None)
      else s.(server := Some(s.server.value.(deleting := true,
                generation := s.server.value.generation + if bump then 1 else 0)))
    case OthersFinalizers(fs) =>
      if s.server.None? || ((FINALIZER in fs) != HasOurs(s.server.value)) then s
      else if !s.server.value.deleting then s.(server := Some(s.server.value.(finalizers := fs)))
      else if exists f :: f in fs && f !in s.server.value.finalizers then s
      else if fs == [] then s.(server := None)
      else s.(server := Some(s.server.value.(finalizers := fs)))
    case OthersWorld(w') => s.(world := w')
    case _ => s
  }

  /** The worker's steps on its local copy and on the world. */
  predicate IsWork(step: Step) {
    step.Begin? || step.InstallOne? || step.InstallDone? || step.UninstallOne? || step.UninstallDone?
  }

  function WorkStep(p: C.Params, s: Sys, step: Step): Sys
    requires C.ValidOrder(p.installOrder) && IsWork(step)
  {
    match step
    case Begin(l, now) => if s.ctl.Started? then s.(ctl := BeginCtl(s.ctl.original, l, now)) else s
    case InstallOne(f) =>
      if s.ctl.Installing? && |s.ctl.results| < |p.installOrder| then InstallOneStep(p, s, f) else s
    case InstallDone(now) =>
      if s.ctl.Installing? && |s.ctl.results| == |p.installOrder| then
        s.(ctl := Committing(s.ctl.original, C.ApplyInstallResult(s.ctl.local, C.Aggregate(s.ctl.results), now), s.ctl.results))
      else s
    case UninstallOne(f, now) =>
      if s.ctl.Finalizing? && |s.ctl.done| < |p.uninstallOrder| then UninstallOneStep(p, s, f, now) else s
    case UninstallDone =>
      if s.ctl.Finalizing? && |s.ctl.done| == |p.uninstallOrder| then
        s.(ctl := Committing(s.ctl.original, C.DropFinalizer(s.ctl.local), []),
           passes := s.passes[s.ctl.original.uid := s.ctl.done])
      else s
  }

  /** The worker's reads and writes of the stored object, and its crashes. */
  predicate IsCommit(step: Step) {
    step.Read? || step.PatchMain? || step.PatchStatus? || step.Crash?
  }

  function CommitStep(s: Sys, step: Step): Sys
    requires IsCommit(step)
  {
    match step
    case Read => if s.ctl.Idle? && s.server.Some? then s.(ctl := Started(s.server.value)) else s
    case PatchMain(fails) => if s.ctl.Committing? then PatchMainStep(s, fails) else s
    case PatchStatus(fails) => if s.ctl.CommittingStatus? then PatchStatusStep(s, fails) else s
    case Crash => s.(ctl := Idle)
  }

  /** A step that is not enabled changes nothing. */
  function Next(p: C.Params, s: Sys, step: Step): Sys
    requires C.ValidOrder(p.installOrder)
  {
    if IsWork(step) then WorkStep(p, s, step)
    else if IsCommit(step) then CommitStep(s, step)
    else UserStep(s, step)
  }

  function Exec(p: C.Params, s: Sys, steps: seq<Step>): Sys
    requires C.ValidOrder(p.installOrder)
    decreases |steps|
  {
    if steps == [] then s
    else Next(p, Exec(p, s, steps[..|steps| - 1]), steps[|steps| - 1])
  }

  /** No object yet, the worker idle, and any components whatever in the world. */
  function Init(w: World): Sys {
    Sys(None, Idle, w, 0, map[], map[])
  }

  /** The worker is between two reconciles, or has just read the object. */
  predicate AtRest(s: Sys) {
    s.ctl.Idle? || s.ctl.Started?
  }

  ghost predicate Reachable(p: C.Params, s: Sys)
    requires C.ValidOrder(p.installOrder)
  {
    exists w, steps :: s == Exec(p, Init(w), steps)
  }

  // ----- the invariant -----

  predicate AllSuccess(rs: seq<Report>) {
    forall i :: 0 <= i < |rs| ==> rs[i].state.Success?
  }

  /** A full pass: every element of the order answered Success, one after the other. */
  predicate FullPass(order: seq<Installable>, rs: seq<Report>) {
    |rs| == |order| && AllSuccess(rs)
  }

  predicate LegalOrZero(c: Config) {
    c == ZERO_CONFIG || C.LegalGateway(c)
  }

  /** A committed configuration keeps the finalizer, until a full pass has happened. */
  predicate Guarded(s: Sys, o: Object) {
    && (Cfg(o) != ZERO_CONFIG && !HasOurs(o) ==> o.deleting && o.uid in s.passes)
    && LegalOrZero(Cfg(o))
  }

  predicate ServerOk(s: Sys) {
    s.server.Some? ==>
      && Guarded(s, s.server.value)
      && s.server.value.uid < s.nextUid
      && (s.server.value.deleting ==> s.server.value.finalizers != [])
  }

  predicate HistoryOk(p: C.Params, s: Sys) {
    forall u :: u in s.passes ==> u < s.nextUid && FullPass(p.uninstallOrder, s.passes[u])
  }

  /** The stored object still is the one that was read, or a fresh one that nobody has written to. */
  predicate ReadOk(s: Sys, o: Object) {
    && o.uid < s.nextUid && Guarded(s, o)
    && (s.server.Some? ==>
          var v := s.server.value;
          && (v.uid == o.uid ==> v.status == o.status && (o.deleting ==> v.deleting))
          && (v.uid != o.uid ==> v.status == NEW_STATUS && (!o.deleting ==> Cfg(o) == ZERO_CONFIG)))
  }

  /** Before the main patch the finalizer is as it was read, and if it was there so is the object. */
  predicate BeforeMain(s: Sys, o: Object) {
    && ReadOk(s, o)
    && (HasOurs(o) ==> s.server.Some? && s.server.value.uid == o.uid && HasOurs(s.server.value))
    && (s.server.Some? && HasOurs(s.server.value) ==> HasOurs(o))
  }

  predicate LocalOk(s: Sys, o: Object, local: Object) {
    && local == o.(finalizers := local.finalizers, status := local.status)
    && LegalOrZero(Cfg(local))
    && (o.deleting || HasOurs(local))
    && (o.deleting ==> Cfg(local) == Cfg(o))
    && (!o.deleting ==> Cfg(local) == Cfg(o) || Cfg(local) != ZERO_CONFIG)
    && (HasOurs(local) ==> local.finalizers == AddFinalizer(o.finalizers, FINALIZER))
    && (!HasOurs(local) ==>
          && local.finalizers == RemoveFinalizer(o.finalizers, FINALIZER)
          && (Cfg(o) == ZERO_CONFIG || o.uid in s.passes))
  }

  predicate CtlOk(p: C.Params, s: Sys) {
    match s.ctl
    case Idle => true
    case Started(o) => BeforeMain(s, o)
    case Installing(o, local, results) =>
      BeforeMain(s, o) && LocalOk(s, o, local) && !o.deleting && Cfg(local) != ZERO_CONFIG && |results| <= |p.installOrder|
    case Finalizing(o, local, done) =>
      && BeforeMain(s, o) && LocalOk(s, o, local) && HasOurs(local) && o.deleting && Cfg(o) != ZERO_CONFIG
      && |done| <= |p.uninstallOrder| && AllSuccess(done)
    case Committing(o, local, _) => BeforeMain(s, o) && LocalOk(s, o, local)
    case CommittingStatus(o, local, _) =>
      && ReadOk(s, o) && LocalOk(s, o, local)
      && (HasOurs(local) ==> s.server.Some? && HasOurs(s.server.value))
  }

  predicate Inv(p: C.Params, s: Sys) {
    ServerOk(s) && HistoryOk(p, s) && CtlOk(p, s)
  }

  // ----- each step keeps the invariant -----

  lemma BeginKeeps(p: C.Params, s: Sys, l: C.Lookups, now: int)
    requires Inv(p, s) && s.ctl.Started?
    ensures Inv(p, s.(ctl := BeginCtl(s.ctl.original, l, now)))
  {
    var o := s.ctl.original;
    AddThenRemove(o.finalizers, FINALIZER);
    if !o.deleting && C.Compile(o.spec, l).Ok? {
      C.CompiledIsLegal(o.spec, l);
    }
  }

  lemma InstallOneKeeps(p: C.Params, s: Sys, f: Faults)
    requires C.ValidOrder(p.installOrder) && Inv(p, s) && s.ctl.Installing? && |s.ctl.results| < |p.installOrder|
    ensures Inv(p, InstallOneStep(p, s, f))
  {
  }

  lemma InstallDoneKeeps(p: C.Params, s: Sys, r: Report, now: int)
    requires Inv(p, s) && s.ctl.Installing?
    ensures Inv(p, s.(ctl := Committing(s.ctl.original, C.ApplyInstallResult(s.ctl.local, r, now), s.ctl.results)))
  {
  }

  lemma UninstallOneKeeps(p: C.Params, s: Sys, f: Faults, now: int)
    requires Inv(p, s) && s.ctl.Finalizing? && |s.ctl.done| < |p.uninstallOrder|
    ensures Inv(p, UninstallOneStep(p, s, f, now))
  {
  }

  lemma UninstallDoneKeeps(p: C.Params, s: Sys)
    requires Inv(p, s) && s.ctl.Finalizing? && |s.ctl.done| == |p.uninstallOrder|
    ensures Inv(p, s.(ctl := Committing(s.ctl.original, C.DropFinalizer(s.ctl.local), []),
                      passes := s.passes[s.ctl.original.uid := s.ctl.done]))
  {
    AddThenRemove(s.ctl.original.finalizers, FINALIZER);
  }

  lemma WorkKeeps(p: C.Params, s: Sys, step: Step)
    requires C.ValidOrder(p.installOrder) && Inv(p, s) && IsWork(step)
    ensures Inv(p, WorkStep(p, s, step))
  {
    match step
    case Begin(l, now) => if s.ctl.Started? { BeginKeeps(p, s, l, now); }
    case InstallOne(f) => if s.ctl.Installing? && |s.ctl.results| < |p.installOrder| { InstallOneKeeps(p, s, f); }
    case InstallDone(now) =>
      if s.ctl.Installing? && |s.ctl.results| == |p.installOrder| {
        InstallDoneKeeps(p, s, C.Aggregate(s.ctl.results), now);
      }
    case UninstallOne(f, now) =>
      if s.ctl.Finalizing? && |s.ctl.done| < |p.uninstallOrder| { UninstallOneKeeps(p, s, f, now); }
    case UninstallDone =>
      if s.ctl.Finalizing? && |s.ctl.done| == |p.uninstallOrder| { UninstallDoneKeeps(p, s); }
  }

  /** The object that the main patch leaves is guarded: the finalizer goes only after a full pass, or
      when no configuration was ever committed. */
  lemma PatchMainGuards(p: C.Params, s: Sys)
    requires Inv(p, s) && s.ctl.Committing? && s.server.Some?
    ensures var reply := A.PatchMain(s.server.value, s.ctl.original, s.ctl.local);
            reply.Kept? ==>
              && Guarded(s, reply.obj)
              && reply.obj == s.server.value.(finalizers := reply.obj.finalizers)
              && (reply.obj.deleting ==> reply.obj.finalizers != [])
              && (HasOurs(s.ctl.local) ==> HasOurs(reply.obj))
    ensures HasOurs(s.ctl.local) ==> !A.PatchMain(s.server.value, s.ctl.original, s.ctl.local).Gone?
  {
  }

  lemma PatchedMainKeeps(p: C.Params, s: Sys, fs: seq<string>)
    requires Inv(p, s) && s.ctl.Committing? && s.server.Some?
    requires var v := s.server.value.(finalizers := fs);
             Guarded(s, v) && (v.deleting ==> fs != []) && (HasOurs(s.ctl.local) ==> HasOurs(v))
    ensures Inv(p, s.(server := Some(s.server.value.(finalizers := fs)),
                      ctl := CommittingStatus(s.ctl.original, s.ctl.local, s.ctl.results)))
  {
  }

  lemma PatchMainKeeps(p: C.Params, s: Sys, fails: bool)
    requires Inv(p, s) && s.ctl.Committing?
    ensures Inv(p, PatchMainStep(s, fails))
  {
    if !fails && s.server.Some? {
      PatchMainGuards(p, s);
      var reply := A.PatchMain(s.server.value, s.ctl.original, s.ctl.local);
      if reply.Kept? {
        PatchedMainKeeps(p, s, reply.obj.finalizers);
      }
    }
  }

  lemma PatchStatusKeeps(p: C.Params, s: Sys, fails: bool)
    requires Inv(p, s) && s.ctl.CommittingStatus?
    ensures Inv(p, PatchStatusStep(s, fails))
  {
    if !fails && s.server.Some? {
      A.MergeNoChange(s.server.value.status, s.ctl.original.status, s.ctl.local.status);
    }
  }

  /** `o` is what others may make of `stored`. */
  predicate EditOf(stored: Object, o: Object) {
    && o.uid == stored.uid && o.status == stored.status && HasOurs(o) == HasOurs(stored)
    && (stored.deleting ==> o.deleting)
    && (o.deleting ==> o.finalizers != [])
  }

  /** Others may change what is stored as long as they leave status, our finalizer and a deletion mark. */
  lemma EditedObjectKeeps(p: C.Params, s: Sys, o: Object)
    requires Inv(p, s) && s.server.Some? && EditOf(s.server.value, o)
    ensures Inv(p, s.(server := Some(o)))
  {
  }

  /** Without our finalizer the object may go at any time. */
  lemma VanishedObjectKeeps(p: C.Params, s: Sys)
    requires Inv(p, s) && s.server.Some? && !HasOurs(s.server.value)
    ensures Inv(p, s.(server := None))
  {
  }

  lemma NewObjectKeeps(p: C.Params, s: Sys, spec: Spec, fs: seq<string>)
    requires Inv(p, s) && s.server.None? && FINALIZER !in fs
    ensures Inv(p, s.(server := Some(Object(s.nextUid, 1, false, fs, spec, NEW_STATUS)), nextUid := s.nextUid + 1))
  {
  }

  lemma UserStepIsEdit(s: Sys, step: Step)
    requires s.server.Some? && (s.server.value.deleting ==> s.server.value.finalizers != [])
    ensures var s' := UserStep(s, step);
            && (!step.OthersWorld? ==> s' == s.(server := s'.server))
            && (s'.server.Some? ==> EditOf(s.server.value, s'.server.value))
            && (s'.server.None? ==> !HasOurs(s.server.value))
  {
  }

  lemma EditKeeps(p: C.Params, s: Sys, step: Step)
    requires Inv(p, s) && s.server.Some? && !step.OthersWorld?
    ensures Inv(p, UserStep(s, step))
  {
    var s' := UserStep(s, step);
    UserStepIsEdit(s, step);
    if s'.server.Some? { EditedObjectKeeps(p, s, s'.server.value); } else { VanishedObjectKeeps(p, s); }
  }

  lemma UserStepKeeps(p: C.Params, s: Sys, step: Step)
    requires Inv(p, s)
    ensures Inv(p, UserStep(s, step))
  {
    var s' := UserStep(s, step);
    if step.OthersWorld? {
    } else if s.server.Some? {
      EditKeeps(p, s, step);
    } else if step.UserCreate? && FINALIZER !in step.finalizers {
      NewObjectKeeps(p, s, step.spec, step.finalizers);
    } else {
      assert s' == s;
    }
  }

  lemma CommitKeeps(p: C.Params, s: Sys, step: Step)
    requires Inv(p, s) && IsCommit(step)
    ensures Inv(p, CommitStep(s, step))
  {
    match step
    case PatchMain(fails) => if s.ctl.Committing? { PatchMainKeeps(p, s, fails); }
    case PatchStatus(fails) => if s.ctl.CommittingStatus? { PatchStatusKeeps(p, s, fails); }
    case Read =>
    case Crash =>
  }

  lemma NextKeepsInv(p: C.Params, s: Sys, step: Step)
    requires C.ValidOrder(p.installOrder) && Inv(p, s)
    ensures Inv(p, Next(p, s, step))
  {
    if IsWork(step) {
      WorkKeeps(p, s, step);
    } else if IsCommit(step) {
      CommitKeeps(p, s, step);
    } else {
      UserStepKeeps(p, s, step);
    }
  }

  /** The invariant holds in every state of every run. */
  lemma {:induction false} ReachableInv(p: C.Params, w: World, steps: seq<Step>)
    requires C.ValidOrder(p.installOrder)
    ensures Inv(p, Exec(p, Init(w), steps))
    decreases |steps|
  {
    if steps != [] {
      ReachableInv(p, w, steps[..|steps| - 1]);
      NextKeepsInv(p, Exec(p, Init(w), steps[..|steps| - 1]), steps[|steps| - 1]);
    }
  }
}
