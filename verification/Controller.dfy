/**
 The CFAPI reconciler (`controllers/cfapi/controller.go`): compiling the configuration, the
 install and uninstall passes, and the status each ending leaves behind.
 */
module Controller {
  import opened Prelude
  import opened Types
  import opened Cluster
  import opened Installables

  // ----- compiling the configuration -----

  /** What the cluster answers while one configuration is compiled. `registryURLs` lists the keys of
      the custom secret's registries in the order in which this call happens to iterate them. */
  datatype Lookups = Lookups(
    alphaGatewayAPI: Result<bool>,
    kymaDomain: Result<string>,
    customSecret: Option<string>,
    registryURLs: Result<seq<string>>,
    kymaSecretName: Result<string>,
    kymaRegistryURL: Result<string>,
    uaaURL: Result<string>,
    clusterAdmins: Result<seq<string>>)

  function GatewayType(spec: Spec): string {
    if spec.gatewayType == "" then CONTOUR else spec.gatewayType
  }

  function IngressService(spec: Spec): string {
    if spec.gatewayType == ISTIO then "korifi-istio" else "contour-envoy"
  }

  function ValidateGateway(spec: Spec, l: Lookups): Option<string> {
    if GatewayType(spec) != CONTOUR && GatewayType(spec) != ISTIO then Some("invalid gateway type")
    else if spec.gatewayType != ISTIO then None
    else match l.alphaGatewayAPI
         case Err(m) => Some(m)
         case Ok(enabled) => if enabled then None else Some("alpha gateway API feature is not enabled in istio")
  }

  function Registry(spec: Spec, l: Lookups): Result<(string, string)> {
    if spec.containerRegistrySecret != "" then
      if l.customSecret.Some? then Err(l.customSecret.value)
      else match l.registryURLs
           case Err(m) => Err(m)
           case Ok(urls) => if urls == [] then Err("no container registries") else Ok((spec.containerRegistrySecret, urls[0]))
    else match l.kymaSecretName
         case Err(m) => Err(m)
         case Ok(name) => match l.kymaRegistryURL
                          case Err(m) => Err(m)
                          case Ok(url) => Ok((name, url))
  }

  function Default(value: string, fallback: string): string {
    if value != "" then value else fallback
  }

  function Compile(spec: Spec, l: Lookups): Result<Config> {
    if ValidateGateway(spec, l).Some? then Err(ValidateGateway(spec, l).value)
    else if l.kymaDomain.Err? then Err(l.kymaDomain.message)
    else if Registry(spec, l).Err? then Err(Registry(spec, l).message)
    else if spec.uaa == "" && l.uaaURL.Err? then Err(l.uaaURL.message)
    else if spec.cfAdmins == [] && l.clusterAdmins.Err? then Err(l.clusterAdmins.message)
    else
      var (secret, url) := Registry(spec, l).value;
      Ok(Config(
        Default(spec.rootNamespace, "cf"),
        secret,
        spec.disablePropagation,
        url,
        Default(spec.containerRepositoryPrefix, url + "/"),
        Default(spec.builderRepository, url + "/cfapi/kpack-builder"),
        if spec.uaa != "" then spec.uaa else l.uaaURL.value,
        if spec.cfAdmins != [] then spec.cfAdmins else l.clusterAdmins.value,
        l.kymaDomain.value,
        IngressService(spec),
        spec.useSelfSigned,
        GatewayType(spec)))
  }

  /** The two legal combinations of gateway type and ingress service. */
  predicate LegalGateway(c: Config) {
    || (c.gatewayType == CONTOUR && c.ingressService == "contour-envoy")
    || (c.gatewayType == ISTIO && c.ingressService == "korifi-istio")
  }

  /** A compiled configuration is never the zero value, and its gateway is a legal one. */
  lemma CompiledIsLegal(spec: Spec, l: Lookups)
    requires Compile(spec, l).Ok?
    ensures Compile(spec, l).value != ZERO_CONFIG
    ensures LegalGateway(Compile(spec, l).value)
  {
    assert Default(spec.rootNamespace, "cf") != "";
  }

  // ----- the aggregate of an install pass -----

  function Severity(r: Report): int {
    match r.state
    case Success => 0
    case InProgress => 1
    case Failed => 2
  }

  function Insert(r: Report, sorted: seq<Report>): seq<Report> {
    if sorted == [] || Severity(r) >= Severity(sorted[0]) then [r] + sorted
    else [sorted[0]] + Insert(r, sorted[1..])
  }

  /** slices.SortStableFunc by descending state. */
  function StableSort(results: seq<Report>): (sorted: seq<Report>)
    ensures |sorted| == |results|
  {
    if results == [] then []
    else
      InsertLength(results[0], StableSort(results[1..]));
      Insert(results[0], StableSort(results[1..]))
  }

  lemma {:induction false} InsertLength(r: Report, sorted: seq<Report>)
    ensures |Insert(r, sorted)| == |sorted| + 1
  {
    if sorted != [] { InsertLength(r, sorted[1..]); }
  }

  function Aggregate(results: seq<Report>): Report
    requires results != []
  {
    StableSort(results)[0]
  }

  predicate Descending(rs: seq<Report>) {
    forall i, j :: 0 <= i < j < |rs| ==> Severity(rs[i]) >= Severity(rs[j])
  }

  /** The results of one state, in their order. */
  function Of(rs: seq<Report>, s: ResultState): seq<Report> {
    if rs == [] then []
    else (if rs[0].state == s then [rs[0]] else []) + Of(rs[1..], s)
  }

  /** What "stable sort" means, whatever the algorithm. */
  ghost predicate StablySorted(rs: seq<Report>, sorted: seq<Report>) {
    Descending(sorted) && forall s :: Of(sorted, s) == Of(rs, s)
  }

  lemma {:induction false} InsertKeeps(r: Report, sorted: seq<Report>)
    requires Descending(sorted)
    ensures Descending(Insert(r, sorted))
    ensures forall s :: Of(Insert(r, sorted), s) == Of([r] + sorted, s)
    ensures Insert(r, sorted) != [] && Severity(Insert(r, sorted)[0]) ==
            (if sorted == [] || Severity(r) >= Severity(sorted[0]) then Severity(r) else Severity(sorted[0]))
  {
    if sorted != [] && Severity(r) < Severity(sorted[0]) {
      var head, tail := sorted[0], sorted[1..];
      InsertKeeps(r, tail);
      var ins := Insert(r, tail);
      assert Insert(r, sorted) == [head] + ins;
      forall s ensures Of([head] + ins, s) == Of([r] + sorted, s) {
        assert ([head] + ins)[1..] == ins && ([r] + sorted)[1..] == sorted && ([r] + tail)[1..] == tail;
      }
      forall j | 0 <= j < |ins| ensures Severity(head) >= Severity(ins[j]) {
        assert Severity(ins[0]) >= Severity(ins[j]);
      }
    }
  }

  lemma {:induction false} SortIsStable(rs: seq<Report>)
    ensures StablySorted(rs, StableSort(rs))
  {
    if rs != [] {
      SortIsStable(rs[1..]);
      InsertKeeps(rs[0], StableSort(rs[1..]));
      forall s ensures Of(StableSort(rs), s) == Of(rs, s) {
        assert ([rs[0]] + StableSort(rs[1..]))[1..] == StableSort(rs[1..]);
      }
    }
  }

  /** The first result of the greatest severity. */
  ghost predicate EarliestWorst(rs: seq<Report>, i: nat) {
    && i < |rs|
    && (forall j :: 0 <= j < |rs| ==> Severity(rs[j]) <= Severity(rs[i]))
    && (forall j :: 0 <= j < i ==> Severity(rs[j]) < Severity(rs[i]))
  }

  lemma {:induction false} FirstOf(rs: seq<Report>, s: ResultState) returns (i: nat)
    requires Of(rs, s) != []
    ensures i < |rs| && rs[i] == Of(rs, s)[0] && rs[i].state == s
    ensures forall j :: 0 <= j < i ==> rs[j].state != s
  {
    if rs[0].state == s {
      i := 0;
    } else {
      var k := FirstOf(rs[1..], s);
      i := k + 1;
    }
  }

  lemma {:induction false} OfHas(rs: seq<Report>, j: nat)
    requires j < |rs|
    ensures Of(rs, rs[j].state) != []
  {
    if j > 0 { OfHas(rs[1..], j - 1); }
  }

  lemma {:induction false} OfOnlyHeld(rs: seq<Report>, s: ResultState)
    requires Of(rs, s) != []
    ensures exists j :: 0 <= j < |rs| && rs[j].state == s
  {
    var i := FirstOf(rs, s);
  }

  /** The head of any stable sort is the earliest result of the greatest severity. */
  lemma HeadOfStableSort(rs: seq<Report>, sorted: seq<Report>) returns (i: nat)
    requires rs != [] && StablySorted(rs, sorted)
    ensures sorted != [] && EarliestWorst(rs, i) && sorted[0] == rs[i]
  {
    OfHas(rs, 0);
    OfOnlyHeld(sorted, rs[0].state);
    var worst := sorted[0].state;
    OfHas(sorted, 0);
    i := FirstOf(rs, worst);
    var k := FirstOf(sorted, worst);
    assert sorted[k] == Of(sorted, worst)[0] && k == 0;
    forall j | 0 <= j < |rs| ensures Severity(rs[j]) <= Severity(rs[i]) {
      OfHas(rs, j);
      OfOnlyHeld(sorted, rs[j].state);
    }
  }

  /** The aggregate is the earliest of the worst results, and a success exactly when all are. */
  lemma AggregateIsEarliestWorst(results: seq<Report>) returns (i: nat)
    requires results != []
    ensures EarliestWorst(results, i) && Aggregate(results) == results[i]
    ensures Aggregate(results).state.Success? <==> forall j :: 0 <= j < |results| ==> results[j].state.Success?
  {
    SortIsStable(results);
    i := HeadOfStableSort(results, StableSort(results));
  }

  // ----- install and uninstall passes -----

  ghost predicate ValidOrder(order: seq<Installable>) {
    order != [] && forall inst :: inst in order ==> CanInstall(inst)
  }

  /** Continue an install pass that has collected `results` so far. */
  function InstallFrom(order: seq<Installable>, config: Config, w: World, faults: nat -> Faults, results: seq<Report>)
    : (World, Result<seq<Report>>)
    requires |results| <= |order| && forall inst :: inst in order ==> CanInstall(inst)
    decreases |order| - |results|
  {
    var i := |results|;
    if i == |order| then (w, Ok(results)) else
    var (w', a) := Install(order[i], config, w, faults(i));
    match a
    case Errored(m) => (w', Err(m))
    case Done(r) => InstallFrom(order, config, w', faults, results + [r])
  }

  datatype UninstallEnd = Complete(done: seq<Report>) | Pending(report: Report) | Broken(message: string)

  /** Continue an uninstall pass whose first `|done|` components reported success. */
  function UninstallFrom(order: seq<Installable>, config: Config, w: World, faults: nat -> Faults, done: seq<Report>)
    : (World, UninstallEnd)
    requires |done| <= |order|
    decreases |order| - |done|
  {
    var i := |done|;
    if i == |order| then (w, Complete(done)) else
    var (w', a) := Uninstall(order[i], config, w, faults(i));
    match a
    case Errored(m) => (w', Broken(m))
    case Done(r) => if r.state.Success? then UninstallFrom(order, config, w', faults, done + [r]) else (w', Pending(r))
  }

  // ----- what the body does to the object -----

  datatype CtrlResult = CtrlResult(requeue: bool, requeueAfter: int)

  const EMPTY := CtrlResult(false, 0)

  function After(interval: int): CtrlResult {
    CtrlResult(false, interval)
  }

  datatype BodyError =
    | NoError
    | NotReady(requeueAfter: Option<int>, requeue: bool, noRequeue: bool)
    | Failure(message: string)

  datatype Params = Params(installOrder: seq<Installable>, uninstallOrder: seq<Installable>, interval: int)

  datatype BodyEnd = BodyEnd(obj: Object, world: World, result: CtrlResult, error: BodyError)

  function WithCondition(o: Object, kind: string, status: Truth, now: int, reason: string, message: string): Object {
    o.(status := o.status.(conditions :=
      SetCondition(o.status.conditions, Condition(kind, status, o.generation, now, reason, message))))
  }

  function Begin(o: Object): Object {
    o.(finalizers := AddFinalizer(o.finalizers, FINALIZER),
       status := o.status.(observedGeneration := o.generation, state := Processing))
  }

  function Rejected(o: Object, message: string, now: int): Object {
    WithCondition(o.(status := o.status.(state := Warning)), CONFIGURATION, False, now, "InvalidConfiguration", message)
  }

  function Accepted(o: Object, config: Config, now: int): Object {
    var o' := WithCondition(o, CONFIGURATION, True, now, "ValidConiguration", "");
    o'.(status := o'.status.(config := config))
  }

  function ApplyInstallResult(o: Object, r: Report, now: int): Object {
    match r.state
    case Success =>
      WithCondition(o.(status := o.status.(state := Ready, url := "https://cfapi." + o.status.config.cfDomain)),
                    INSTALLATION, True, now, "InstallationSuccess", "")
    case Failed =>
      WithCondition(o.(status := o.status.(state := Error, url := "")),
                    INSTALLATION, False, now, "InstallationFailed", r.message)
    case InProgress =>
      WithCondition(o.(status := o.status.(state := Processing, url := "")),
                    INSTALLATION, Unknown, now, "InstallationInProgress", r.message)
  }

  function InstallRequeue(r: Report, interval: int): CtrlResult {
    if r.state.InProgress? then After(interval) else EMPTY
  }

  function MarkDeleting(o: Object): Object {
    o.(status := o.status.(state := Deleting))
  }

  function DeletionPending(o: Object, r: Report, now: int): Object {
    WithCondition(o, DELETION, False, now, "DeletionInProgress", r.message)
  }

  function DropFinalizer(o: Object): Object {
    o.(finalizers := RemoveFinalizer(o.finalizers, FINALIZER))
  }

  function Finalize(p: Params, o: Object, w: World, now: int, faults: nat -> Faults): BodyEnd {
    var o1 := MarkDeleting(o);
    if o1.status.config == ZERO_CONFIG then BodyEnd(DropFinalizer(o1), w, EMPTY, NoError) else
    var (w', end) := UninstallFrom(p.uninstallOrder, o1.status.config, w, faults, []);
    match end
    case Broken(m) => BodyEnd(o1, w', EMPTY, Failure(m))
    case Pending(r) => BodyEnd(DeletionPending(o1, r, now), w', After(p.interval), NoError)
    case Complete(_) => BodyEnd(DropFinalizer(o1), w', EMPTY, NoError)
  }

  /** The rest of a reconcile once the configuration is accepted. */
  function InstallEnd(p: Params, o: Object, config: Config, w: World, now: int, faults: nat -> Faults): BodyEnd
    requires ValidOrder(p.installOrder)
  {
    var (w', results) := InstallFrom(p.installOrder, config, w, faults, []);
    match results
    case Err(m) => BodyEnd(o, w', EMPTY, Failure(m))
    case Ok(rs) =>
      InstallFromLength(p.installOrder, config, w, faults, []);
      var r := Aggregate(rs);
      BodyEnd(ApplyInstallResult(o, r, now), w', InstallRequeue(r, p.interval), NoError)
  }

  function Body(p: Params, o: Object, w: World, l: Lookups, now: int, faults: nat -> Faults): BodyEnd
    requires ValidOrder(p.installOrder)
  {
    var o1 := Begin(o);
    if o.deleting then Finalize(p, o1, w, now, faults) else
    match Compile(o.spec, l)
    case Err(m) => BodyEnd(Rejected(o1, m, now), w, EMPTY, NotReady(Some(p.interval), false, false))
    case Ok(config) => InstallEnd(p, Accepted(o1, config, now), config, w, now, faults)
  }

  lemma {:induction false} InstallFromLength(order: seq<Installable>, config: Config, w: World, faults: nat -> Faults, results: seq<Report>)
    requires |results| <= |order| && forall inst :: inst in order ==> CanInstall(inst)
    ensures var r := InstallFrom(order, config, w, faults, results).1;
            r.Ok? ==> |r.value| == |order| && results <= r.value
    decreases |order| - |results|
  {
    if |results| < |order| {
      var (w', a) := Install(order[|results|], config, w, faults(|results|));
      if a.Done? {
        InstallFromLength(order, config, w', faults, results + [a.result]);
      }
    }
  }

  // ----- the reconciler -----

  /** The in-memory object the reconciler works on. */
  class CFAPI {
    const uid: nat
    const generation: int
    const deleting: bool
    const spec: Spec
    var finalizers: seq<string>
    var state: State
    var observedGeneration: int
    var conditions: seq<Condition>
    var config: Config
    var url: string

    constructor (o: Object)
      ensures View() == o
    {
      uid, generation, deleting, spec := o.uid, o.generation, o.deleting, o.spec;
      finalizers := o.finalizers;
      state, observedGeneration, conditions := o.status.state, o.status.observedGeneration, o.status.conditions;
      config, url := o.status.config, o.status.url;
    }

    function View(): Object
      reads this
    {
      Object(uid, generation, deleting, finalizers, spec, Status(state, observedGeneration, conditions, config, url))
    }

    method SetStatusCondition(kind: string, status: Truth, now: int, reason: string, message: string)
      modifies this`conditions
      ensures View() == WithCondition(old(View()), kind, status, now, reason, message)
    {
      conditions := SetCondition(conditions, Condition(kind, status, generation, now, reason, message));
    }
  }

  class Reconciler {
    const params: Params
    const cluster: Cluster

    constructor (params: Params, cluster: Cluster)
      ensures this.params == params && this.cluster == cluster
    {
      this.params, this.cluster := params, cluster;
    }

    method InstallAll(config: Config, faults: nat -> Faults) returns (r: Result<Report>)
      requires ValidOrder(params.installOrder)
      modifies cluster
      ensures var (w', results) := InstallFrom(params.installOrder, config, old(cluster.View()), faults, []);
              && cluster.View() == w'
              && (results.Err? ==> r == Err(results.message))
              && (results.Ok? ==> results.value != [] && r == Ok(Aggregate(results.value)))
    {
      var results: seq<Report> := [];
      for i := 0 to |params.installOrder|
        invariant |results| == i
        invariant InstallFrom(params.installOrder, config, cluster.View(), faults, results) ==
                  InstallFrom(params.installOrder, config, old(cluster.View()), faults, [])
      {
        var a := RunInstall(cluster, params.installOrder[i], config, faults(i));
        if a.Errored? {
          return Err(a.message);
        }
        results := results + [a.result];
      }
      results := StableSort(results);
      r := Ok(results[0]);
    }

    method UninstallAll(config: Config, faults: nat -> Faults) returns (r: Result<Report>)
      modifies cluster
      ensures var (w', end) := UninstallFrom(params.uninstallOrder, config, old(cluster.View()), faults, []);
              && cluster.View() == w'
              && r == (match end
                       case Broken(m) => Err(m)
                       case Pending(report) => Ok(report)
                       case Complete(_) => Ok(Report(Success, "")))
              && (end.Pending? ==> !end.report.state.Success?)
    {
      ghost var done: seq<Report> := [];
      for i := 0 to |params.uninstallOrder|
        invariant |done| == i
        invariant UninstallFrom(params.uninstallOrder, config, cluster.View(), faults, done) ==
                  UninstallFrom(params.uninstallOrder, config, old(cluster.View()), faults, [])
      {
        var a := RunUninstall(cluster, params.uninstallOrder[i], config, faults(i));
        if a.Errored? {
          return Err(a.message);
        }
        if a.result.state != Success {
          return Ok(a.result);
        }
        done := done + [a.result];
      }
      r := Ok(Report(Success, ""));
    }

    method ApplyInstallResultToStatus(r: Report, cfAPI: CFAPI, now: int) returns (result: CtrlResult)
      modifies cfAPI
      ensures cfAPI.View() == ApplyInstallResult(old(cfAPI.View()), r, now)
      ensures result == InstallRequeue(r, params.interval)
    {
      match r.state
      case Success =>
        cfAPI.state := Ready;
        cfAPI.url := "https://cfapi." + cfAPI.config.cfDomain;
        cfAPI.SetStatusCondition(INSTALLATION, True, now, "InstallationSuccess", "");
        result := EMPTY;
      case Failed =>
        cfAPI.url := "";
        cfAPI.state := Error;
        cfAPI.SetStatusCondition(INSTALLATION, False, now, "InstallationFailed", r.message);
        result := EMPTY;
      case InProgress =>
        cfAPI.url := "";
        cfAPI.state := Processing;
        cfAPI.SetStatusCondition(INSTALLATION, Unknown, now, "InstallationInProgress", r.message);
        result := After(params.interval);
    }

    method RunFinalize(cfAPI: CFAPI, now: int, faults: nat -> Faults) returns (result: CtrlResult, error: BodyError)
      modifies cfAPI, cluster
      ensures BodyEnd(cfAPI.View(), cluster.View(), result, error) ==
              Finalize(params, old(cfAPI.View()), old(cluster.View()), now, faults)
    {
      cfAPI.state := Deleting;
      var uninstallConfig := cfAPI.config;
      if uninstallConfig == ZERO_CONFIG {
        cfAPI.finalizers := RemoveFinalizer(cfAPI.finalizers, FINALIZER);
        return EMPTY, NoError;
      }
      var uninstallResult := UninstallAll(uninstallConfig, faults);
      if uninstallResult.Err? {
        return EMPTY, Failure(uninstallResult.message);
      }
      if uninstallResult.value.state != Success {
        cfAPI.SetStatusCondition(DELETION, False, now, "DeletionInProgress", uninstallResult.value.message);
        return After(params.interval), NoError;
      }
      cfAPI.finalizers := RemoveFinalizer(cfAPI.finalizers, FINALIZER);
      return EMPTY, NoError;
    }

    method ReconcileResource(cfAPI: CFAPI, l: Lookups, now: int, faults: nat -> Faults)
      returns (result: CtrlResult, error: BodyError)
      requires ValidOrder(params.installOrder)
      modifies cfAPI, cluster
      ensures BodyEnd(cfAPI.View(), cluster.View(), result, error) ==
              Body(params, old(cfAPI.View()), old(cluster.View()), l, now, faults)
    {
      cfAPI.observedGeneration := cfAPI.generation;
      cfAPI.state := Processing;
      cfAPI.finalizers := AddFinalizer(cfAPI.finalizers, FINALIZER);
      if cfAPI.deleting {
        result, error := RunFinalize(cfAPI, now, faults);
        return;
      }
      var installationConfig := Compile(cfAPI.spec, l);
      if installationConfig.Err? {
        cfAPI.state := Warning;
        cfAPI.SetStatusCondition(CONFIGURATION, False, now, "InvalidConfiguration", installationConfig.message);
        return EMPTY, NotReady(Some(params.interval), false, false);
      }
      cfAPI.SetStatusCondition(CONFIGURATION, True, now, "ValidConiguration", "");
      cfAPI.config := installationConfig.value;
      assert cfAPI.View() == Accepted(Begin(old(cfAPI.View())), installationConfig.value, now);
      result, error := InstallAndReport(cfAPI, installationConfig.value, now, faults);
    }

    /** The tail of ReconcileResource. */
    method InstallAndReport(cfAPI: CFAPI, config: Config, now: int, faults: nat -> Faults)
      returns (result: CtrlResult, error: BodyError)
      requires ValidOrder(params.installOrder)
      modifies cfAPI, cluster
      ensures BodyEnd(cfAPI.View(), cluster.View(), result, error) ==
              InstallEnd(params, old(cfAPI.View()), config, old(cluster.View()), now, faults)
    {
      ghost var (w', results) := InstallFrom(params.installOrder, config, cluster.View(), faults, []);
      ghost var end := InstallEnd(params, cfAPI.View(), config, cluster.View(), now, faults);
      var installResult := InstallAll(config, faults);
      if installResult.Err? {
        assert end == BodyEnd(cfAPI.View(), w', EMPTY, Failure(results.message));
        return EMPTY, Failure(installResult.message);
      }
      var r := installResult.value;
      assert end == BodyEnd(ApplyInstallResult(cfAPI.View(), r, now), w', InstallRequeue(r, params.interval), NoError);
      result := ApplyInstallResultToStatus(r, cfAPI, now);
      error := NoError;
    }
  }
}
