/**
 What the API server does with the two patches of a CFAPI object: the typed form the protocol
 is written in, and the proof that it is the JSON merge patch of module Patch.
 */
module ApiServer {
  import opened Prelude
  import opened Types
  import J = Json
  import P = Patch

  // ----- typed three-way merge -----

  /** A leaf that the client changed is taken from it; otherwise the server's stays. */
  function Pick<T(==)>(stored: T, before: T, after: T): T {
    if before == after then stored else after
  }

  function MergeConfig(s: Config, o: Config, m: Config): Config {
    Config(
      Pick(s.rootNamespace, o.rootNamespace, m.rootNamespace),
      Pick(s.registrySecret, o.registrySecret, m.registrySecret),
      Pick(s.disablePropagation, o.disablePropagation, m.disablePropagation),
      Pick(s.registryURL, o.registryURL, m.registryURL),
      Pick(s.repositoryPrefix, o.repositoryPrefix, m.repositoryPrefix),
      Pick(s.builderRepository, o.builderRepository, m.builderRepository),
      Pick(s.uaaURL, o.uaaURL, m.uaaURL),
      Pick(s.cfAdmins, o.cfAdmins, m.cfAdmins),
      Pick(s.cfDomain, o.cfDomain, m.cfDomain),
      Pick(s.ingressService, o.ingressService, m.ingressService),
      Pick(s.useSelfSigned, o.useSelfSigned, m.useSelfSigned),
      Pick(s.gatewayType, o.gatewayType, m.gatewayType))
  }

  function MergeStatus(s: Status, o: Status, m: Status): Status {
    Status(
      Pick(s.state, o.state, m.state),
      Pick(s.observedGeneration, o.observedGeneration, m.observedGeneration),
      Pick(s.conditions, o.conditions, m.conditions),
      MergeConfig(s.config, o.config, m.config),
      Pick(s.url, o.url, m.url))
  }

  function PatchedFinalizers(s: Object, o: Object, m: Object): seq<string> {
    Pick(s.finalizers, o.finalizers, m.finalizers)
  }

  function PatchedStatus(s: Object, o: Object, m: Object): Object {
    s.(status := MergeStatus(s.status, o.status, m.status))
  }

  datatype MainReply = Refused | Gone | Kept(obj: Object)

  /** A marked object accepts no new finalizer and goes away with its last one. */
  function PatchMain(s: Object, o: Object, m: Object): MainReply {
    var fs := PatchedFinalizers(s, o, m);
    if s.deleting && (exists f :: f in fs && f !in s.finalizers) then Refused
    else if s.deleting && fs == [] then Gone
    else Kept(s.(finalizers := fs))
  }

  // ----- the JSON form -----

  function StrOpt(s: string): Option<J.Json> { if s == "" then None else Some(J.Str(s)) }
  function BoolOpt(b: bool): Option<J.Json> { if b then Some(J.Bool(true)) else None }
  function NumOpt(n: int): Option<J.Json> { if n == 0 then None else Some(J.Num(n)) }
  function Strings(xs: seq<string>): seq<J.Json> { seq(|xs|, i requires 0 <= i < |xs| => J.Str(xs[i])) }
  function ListOpt(xs: seq<string>): Option<J.Json> { if xs == [] then None else Some(J.Arr(Strings(xs))) }

  function StateName(s: State): string {
    match s
    case Unset => ""
    case Ready => "Ready"
    case Processing => "Processing"
    case Error => "Error"
    case Deleting => "Deleting"
    case Warning => "Warning"
  }

  function TruthName(t: Truth): string {
    match t
    case True => "True"
    case False => "False"
    case Unknown => "Unknown"
  }

  function ConditionJson(c: Condition): J.Json {
    J.Obj(map["type" := J.Str(c.kind), "status" := J.Str(TruthName(c.status)),
              "observedGeneration" := J.Num(c.observedGeneration), "lastTransitionTime" := J.Num(c.transition),
              "reason" := J.Str(c.reason), "message" := J.Str(c.message)])
  }

  function Conditions(cs: seq<Condition>): seq<J.Json> {
    seq(|cs|, i requires 0 <= i < |cs| => ConditionJson(cs[i]))
  }

  /** The members of the configuration, by position; a null member counts as absent. */
  function ConfigField(c: Config, i: nat): Option<J.Json> {
    if i == 0 then Some(J.Str(c.rootNamespace))
    else if i == 1 then Some(J.Str(c.registrySecret))
    else if i == 2 then BoolOpt(c.disablePropagation)
    else if i == 3 then Some(J.Str(c.registryURL))
    else if i == 4 then Some(J.Str(c.repositoryPrefix))
    else if i == 5 then Some(J.Str(c.builderRepository))
    else if i == 6 then Some(J.Str(c.uaaURL))
    else if i == 7 then ListOpt(c.cfAdmins)
    else if i == 8 then Some(J.Str(c.cfDomain))
    else if i == 9 then Some(J.Str(c.ingressService))
    else if i == 10 then Some(J.Bool(c.useSelfSigned))
    else if i == 11 then Some(J.Str(c.gatewayType))
    else None
  }

  function ConfigPosition(k: string): nat {
    if k == "rootNamespace" then 0
    else if k == "containerRegistrySecret" then 1
    else if k == "disableContainerRegistrySecretPropagation" then 2
    else if k == "containerRegistryUrl" then 3
    else if k == "containerRepositoryPrefix" then 4
    else if k == "builderRepository" then 5
    else if k == "uaaUrl" then 6
    else if k == "cfAdmins" then 7
    else if k == "cfDomain" then 8
    else if k == "korifiIngressService" then 9
    else if k == "useSelfSignedCertificates" then 10
    else if k == "gatewayType" then 11
    else 12
  }

  function ConfigMember(c: Config, k: string): Option<J.Json> {
    ConfigField(c, ConfigPosition(k))
  }

  const CONFIG_KEYS := {
    "rootNamespace", "containerRegistrySecret", "disableContainerRegistrySecretPropagation",
    "containerRegistryUrl", "containerRepositoryPrefix", "builderRepository", "uaaUrl", "cfAdmins",
    "cfDomain", "korifiIngressService", "useSelfSignedCertificates", "gatewayType" }

  function ConfigJson(c: Config): J.Fields {
    map k | k in CONFIG_KEYS && ConfigMember(c, k).Some? :: ConfigMember(c, k).value
  }

  function StatusMember(s: Status, k: string): Option<J.Json> {
    if k == "state" then Some(J.Str(StateName(s.state)))
    else if k == "observedGeneration" then NumOpt(s.observedGeneration)
    else if k == "conditions" then (if s.conditions == [] then None else Some(J.Arr(Conditions(s.conditions))))
    else if k == "installationConfig" then Some(J.Obj(ConfigJson(s.config)))
    else if k == "url" then StrOpt(s.url)
    else None
  }

  const STATUS_KEYS := { "state", "observedGeneration", "conditions", "installationConfig", "url" }

  function StatusJson(s: Status): J.Fields {
    map k | k in STATUS_KEYS && StatusMember(s, k).Some? :: StatusMember(s, k).value
  }

  function MetaMember(o: Object, k: string): Option<J.Json> {
    if k == "uid" then Some(J.Num(o.uid))
    else if k == "generation" then NumOpt(o.generation)
    else if k == "deletionTimestamp" then BoolOpt(o.deleting)
    else if k == "finalizers" then ListOpt(o.finalizers)
    else None
  }

  const META_KEYS := { "uid", "generation", "deletionTimestamp", "finalizers" }

  function MetaJson(o: Object): J.Fields {
    map k | k in META_KEYS && MetaMember(o, k).Some? :: MetaMember(o, k).value
  }

  function SpecJson(s: Spec): J.Fields {
    map["rootNamespace" := J.Str(s.rootNamespace), "containerRegistrySecret" := J.Str(s.containerRegistrySecret),
        "disableContainerRegistrySecretPropagation" := J.Bool(s.disablePropagation),
        "containerRepositoryPrefix" := J.Str(s.containerRepositoryPrefix),
        "builderRepository" := J.Str(s.builderRepository), "uaa" := J.Str(s.uaa),
        "cfadmins" := J.Arr(Strings(s.cfAdmins)), "useSelfSignedCertificates" := J.Bool(s.useSelfSigned),
        "gatewayType" := J.Str(s.gatewayType)]
  }

  function ObjectJson(o: Object): J.Fields {
    map["metadata" := J.Obj(MetaJson(o)), "spec" := J.Obj(SpecJson(o.spec)), P.STATUS := J.Obj(StatusJson(o.status))]
  }

  // ----- the encoding loses nothing -----

  lemma StringsInjective(a: seq<string>, b: seq<string>)
    ensures Strings(a) == Strings(b) <==> a == b
  {
    if Strings(a) == Strings(b) {
      assert |Strings(a)| == |a| && |Strings(b)| == |b|;
      forall i | 0 <= i < |a| ensures a[i] == b[i] {
        assert Strings(a)[i] == J.Str(a[i]) && Strings(b)[i] == J.Str(b[i]);
      }
    }
  }

  lemma ConditionInjective(a: Condition, b: Condition)
    requires ConditionJson(a) == ConditionJson(b)
    ensures a == b
  {
    var f, g := ConditionJson(a).fields, ConditionJson(b).fields;
    assert f["type"] == g["type"] && f["status"] == g["status"] && f["observedGeneration"] == g["observedGeneration"];
    assert f["lastTransitionTime"] == g["lastTransitionTime"] && f["reason"] == g["reason"] && f["message"] == g["message"];
  }

  lemma ConditionsInjective(a: seq<Condition>, b: seq<Condition>)
    ensures Conditions(a) == Conditions(b) <==> a == b
  {
    if Conditions(a) == Conditions(b) {
      assert |Conditions(a)| == |a| && |Conditions(b)| == |b|;
      forall i | 0 <= i < |a| ensures a[i] == b[i] {
        assert Conditions(a)[i] == ConditionJson(a[i]) && Conditions(b)[i] == ConditionJson(b[i]);
        ConditionInjective(a[i], b[i]);
      }
    }
  }

  // ----- the members by their names -----

  /** Each field of the configuration under its own name; of the optional ones the zero values are missing. */
  lemma ConfigMembersMean(c: Config, k: string)
    ensures J.Get(ConfigJson(c), k) ==
            match k
            case "rootNamespace" => Some(J.Str(c.rootNamespace))
            case "containerRegistrySecret" => Some(J.Str(c.registrySecret))
            case "disableContainerRegistrySecretPropagation" => if c.disablePropagation then Some(J.Bool(true)) else None
            case "containerRegistryUrl" => Some(J.Str(c.registryURL))
            case "containerRepositoryPrefix" => Some(J.Str(c.repositoryPrefix))
            case "builderRepository" => Some(J.Str(c.builderRepository))
            case "uaaUrl" => Some(J.Str(c.uaaURL))
            case "cfAdmins" => if c.cfAdmins == [] then None else Some(J.Arr(Strings(c.cfAdmins)))
            case "cfDomain" => Some(J.Str(c.cfDomain))
            case "korifiIngressService" => Some(J.Str(c.ingressService))
            case "useSelfSignedCertificates" => Some(J.Bool(c.useSelfSigned))
            case "gatewayType" => Some(J.Str(c.gatewayType))
            case _ => None
  {
    ConfigAt(c, k);
  }

  lemma ConditionMembersMean(c: Condition)
    ensures var f := J.Members(ConditionJson(c));
            && J.Get(f, "type") == Some(J.Str(c.kind)) && J.Get(f, "reason") == Some(J.Str(c.reason))
            && J.Get(f, "message") == Some(J.Str(c.message))
            && J.Get(f, "status") == Some(J.Str(match c.status case True => "True" case False => "False" case Unknown => "Unknown"))
            && J.Get(f, "observedGeneration") == Some(J.Num(c.observedGeneration))
            && J.Get(f, "lastTransitionTime") == Some(J.Num(c.transition))
  {
  }

  /** The same for the status, the finalizers and the deletion mark. */
  lemma StatusMembersMean(o: Object)
    ensures var f, s := StatusJson(o.status), o.status;
            && J.Get(f, "state") == Some(J.Str(match s.state
                                               case Unset => "" case Ready => "Ready" case Processing => "Processing"
                                               case Error => "Error" case Deleting => "Deleting" case Warning => "Warning"))
            && J.Get(f, "observedGeneration") == (if s.observedGeneration == 0 then None else Some(J.Num(s.observedGeneration)))
            && J.Get(f, "conditions") == (if s.conditions == [] then None else Some(J.Arr(Conditions(s.conditions))))
            && J.Get(f, "installationConfig") == Some(J.Obj(ConfigJson(s.config)))
            && J.Get(f, "url") == (if s.url == "" then None else Some(J.Str(s.url)))
    ensures J.Get(MetaJson(o), "finalizers") == if o.finalizers == [] then None else Some(J.Arr(Strings(o.finalizers)))
    ensures J.Get(MetaJson(o), "deletionTimestamp").Some? <==> o.deleting
    ensures J.Get(ObjectJson(o), "status") == Some(J.Obj(StatusJson(o.status)))
    ensures J.Get(ObjectJson(o), "metadata") == Some(J.Obj(MetaJson(o)))
  {
  }

  // ----- the typed merge is the JSON merge patch -----

  lemma ConfigAt(c: Config, k: string)
    ensures J.Get(ConfigJson(c), k) == ConfigMember(c, k)
    ensures J.Leaf(ConfigMember(c, k))
  {
  }

  lemma StatusAt(s: Status, k: string)
    ensures J.Get(StatusJson(s), k) == StatusMember(s, k)
    ensures k != "installationConfig" ==> J.Leaf(StatusMember(s, k))
  {
  }

  lemma MetaAt(o: Object, k: string)
    ensures J.Get(MetaJson(o), k) == MetaMember(o, k)
    ensures J.Leaf(MetaMember(o, k))
  {
  }

  lemma ConfigFieldMerges(s: Config, o: Config, m: Config, i: nat)
    ensures ConfigField(MergeConfig(s, o, m), i) ==
            if ConfigField(o, i) == ConfigField(m, i) then ConfigField(s, i) else ConfigField(m, i)
  {
    StringsInjective(o.cfAdmins, m.cfAdmins);
  }

  lemma ConfigMergeIsJson(s: Config, o: Config, m: Config)
    ensures J.Merge(ConfigJson(s), J.Diff(ConfigJson(o), ConfigJson(m))) == ConfigJson(MergeConfig(s, o, m))
  {
    var js, jo, jm, merged := ConfigJson(s), ConfigJson(o), ConfigJson(m), ConfigJson(MergeConfig(s, o, m));
    forall k
      ensures J.Leaf(J.Get(jo, k)) && J.Leaf(J.Get(jm, k)) && J.Get(merged, k) == J.Chosen(js, jo, jm, k)
    {
      ConfigAt(s, k); ConfigAt(o, k); ConfigAt(m, k); ConfigAt(MergeConfig(s, o, m), k);
      ConfigFieldMerges(s, o, m, ConfigPosition(k));
    }
    J.MergeLeaves(js, jo, jm, merged);
  }

  lemma StatusMemberMerges(s: Status, o: Status, m: Status, k: string)
    requires k != "installationConfig"
    ensures StatusMember(MergeStatus(s, o, m), k) ==
            if StatusMember(o, k) == StatusMember(m, k) then StatusMember(s, k) else StatusMember(m, k)
  {
    ConditionsInjective(o.conditions, m.conditions);
  }

  lemma StatusPatchMember(s: Status, o: Status, m: Status, k: string)
    ensures J.Get(J.Merge(StatusJson(s), J.Diff(StatusJson(o), StatusJson(m))), k) ==
            J.Get(StatusJson(MergeStatus(s, o, m)), k)
  {
    var js, jo, jm := StatusJson(s), StatusJson(o), StatusJson(m);
    StatusAt(s, k); StatusAt(o, k); StatusAt(m, k); StatusAt(MergeStatus(s, o, m), k);
    if k == "installationConfig" {
      assert J.Get(jo, k).Some? && J.Get(jm, k).Some? && J.Get(js, k).Some?;
      J.MergeNode(js, jo, jm, k);
      ConfigMergeIsJson(s.config, o.config, m.config);
    } else {
      assert J.Leaf(J.Get(jo, k)) && J.Leaf(J.Get(jm, k));
      J.MergeLeaf(js, jo, jm, k);
      StatusMemberMerges(s, o, m, k);
    }
  }

  lemma StatusMergeIsJson(s: Status, o: Status, m: Status)
    ensures J.Merge(StatusJson(s), J.Diff(StatusJson(o), StatusJson(m))) == StatusJson(MergeStatus(s, o, m))
  {
    forall k { StatusPatchMember(s, o, m, k); }
    J.SameFields(J.Merge(StatusJson(s), J.Diff(StatusJson(o), StatusJson(m))), StatusJson(MergeStatus(s, o, m)));
  }

  lemma MetaMemberMerges(s: Object, o: Object, m: Object, k: string)
    requires m == o.(finalizers := m.finalizers, status := m.status)
    ensures MetaMember(s.(finalizers := PatchedFinalizers(s, o, m)), k) ==
            if MetaMember(o, k) == MetaMember(m, k) then MetaMember(s, k) else MetaMember(m, k)
  {
    StringsInjective(o.finalizers, m.finalizers);
  }

  lemma MetaMergeIsJson(s: Object, o: Object, m: Object)
    requires m == o.(finalizers := m.finalizers, status := m.status)
    ensures J.Merge(MetaJson(s), J.Diff(MetaJson(o), MetaJson(m))) ==
            MetaJson(s.(finalizers := PatchedFinalizers(s, o, m)))
  {
    var s' := s.(finalizers := PatchedFinalizers(s, o, m));
    var js, jo, jm, merged := MetaJson(s), MetaJson(o), MetaJson(m), MetaJson(s');
    forall k
      ensures J.Leaf(J.Get(jo, k)) && J.Leaf(J.Get(jm, k)) && J.Get(merged, k) == J.Chosen(js, jo, jm, k)
    {
      MetaAt(s, k); MetaAt(o, k); MetaAt(m, k); MetaAt(s', k);
      MetaMemberMerges(s, o, m, k);
    }
    J.MergeLeaves(js, jo, jm, merged);
  }

  function ObjectMember(o: Object, k: string): Option<J.Json> {
    if k == "metadata" then Some(J.Obj(MetaJson(o)))
    else if k == "spec" then Some(J.Obj(SpecJson(o.spec)))
    else if k == P.STATUS then Some(J.Obj(StatusJson(o.status)))
    else None
  }

  lemma ObjectAt(o: Object, k: string)
    ensures J.Get(ObjectJson(o), k) == ObjectMember(o, k)
  {
  }

  /** The metadata does not depend on spec and status. */
  lemma MetaOnly(a: Object, b: Object)
    requires a == b.(spec := a.spec, status := a.status)
    ensures MetaJson(a) == MetaJson(b)
  {
    forall k ensures J.Get(MetaJson(a), k) == J.Get(MetaJson(b), k) {
      MetaAt(a, k); MetaAt(b, k);
    }
    J.SameFields(MetaJson(a), MetaJson(b));
  }

  function PatchedBoth(s: Object, o: Object, m: Object): Object {
    s.(finalizers := PatchedFinalizers(s, o, m), status := MergeStatus(s.status, o.status, m.status))
  }

  /** The three parts of an object are merged independently. */
  lemma ObjectMemberMerges(s: Object, o: Object, m: Object, js: J.Fields, jo: J.Fields, jm: J.Fields, k: string)
    requires m == o.(finalizers := m.finalizers, status := m.status)
    requires J.Get(js, k) == ObjectMember(s, k) && J.Get(jo, k) == ObjectMember(o, k) && J.Get(jm, k) == ObjectMember(m, k)
    ensures J.Get(J.Merge(js, J.Diff(jo, jm)), k) == ObjectMember(PatchedBoth(s, o, m), k)
  {
    if k == "metadata" {
      J.MergePart(js, jo, jm, k, MetaJson(s), MetaJson(o), MetaJson(m));
      MetaMergeIsJson(s, o, m);
      MetaOnly(PatchedBoth(s, o, m), s.(finalizers := PatchedFinalizers(s, o, m)));
    } else if k == "spec" {
      J.MergePart(js, jo, jm, k, SpecJson(s.spec), SpecJson(o.spec), SpecJson(o.spec));
      J.MergeUnchanged(SpecJson(s.spec), SpecJson(o.spec));
    } else if k == P.STATUS {
      J.MergePart(js, jo, jm, k, StatusJson(s.status), StatusJson(o.status), StatusJson(m.status));
      StatusMergeIsJson(s.status, o.status, m.status);
    } else {
      J.MergeLeaf(js, jo, jm, k);
    }
  }

  /** For any object the server holds, and any modification of finalizers and status, the two
      endpoints of module Patch do to the stored JSON what PatchedFinalizers and PatchedStatus
      do to the typed object. */
  lemma TypedPatchIsJsonPatch(s: Object, o: Object, m: Object)
    requires m == o.(finalizers := m.finalizers, status := m.status)
    ensures var d := J.Diff(ObjectJson(o), ObjectJson(m));
            && P.MainWrite(ObjectJson(s), d) == ObjectJson(s.(finalizers := PatchedFinalizers(s, o, m)))
            && P.StatusWrite(ObjectJson(s), d) == ObjectJson(PatchedStatus(s, o, m))
  {
    var js, jo, jm := ObjectJson(s), ObjectJson(o), ObjectJson(m);
    forall k
      ensures J.Get(js, k) == ObjectMember(s, k) && J.Get(jo, k) == ObjectMember(o, k) && J.Get(jm, k) == ObjectMember(m, k)
    {
      ObjectAt(s, k); ObjectAt(o, k); ObjectAt(m, k);
    }
    MainEndpointMatches(s, o, m, js, jo, jm);
    StatusEndpointMatches(s, o, m, js, jo, jm);
  }

  lemma MainEndpointMatches(s: Object, o: Object, m: Object, js: J.Fields, jo: J.Fields, jm: J.Fields)
    requires m == o.(finalizers := m.finalizers, status := m.status)
    requires forall k :: J.Get(js, k) == ObjectMember(s, k)
    requires forall k :: J.Get(jo, k) == ObjectMember(o, k)
    requires forall k :: J.Get(jm, k) == ObjectMember(m, k)
    ensures P.MainWrite(js, J.Diff(jo, jm)) == ObjectJson(s.(finalizers := PatchedFinalizers(s, o, m)))
  {
    var main := s.(finalizers := PatchedFinalizers(s, o, m));
    MetaOnly(PatchedBoth(s, o, m), main);
    forall k ensures J.Get(P.MainWrite(js, J.Diff(jo, jm)), k) == J.Get(ObjectJson(main), k) {
      ObjectMemberMerges(s, o, m, js, jo, jm, k);
      P.EndpointAt(js, J.Diff(jo, jm), k);
      ObjectAt(main, k);
    }
    J.SameFields(P.MainWrite(js, J.Diff(jo, jm)), ObjectJson(main));
  }

  lemma StatusEndpointMatches(s: Object, o: Object, m: Object, js: J.Fields, jo: J.Fields, jm: J.Fields)
    requires m == o.(finalizers := m.finalizers, status := m.status)
    requires forall k :: J.Get(js, k) == ObjectMember(s, k)
    requires forall k :: J.Get(jo, k) == ObjectMember(o, k)
    requires forall k :: J.Get(jm, k) == ObjectMember(m, k)
    ensures P.StatusWrite(js, J.Diff(jo, jm)) == ObjectJson(PatchedStatus(s, o, m))
  {
    var status := PatchedStatus(s, o, m);
    MetaOnly(status, s);
    forall k ensures J.Get(P.StatusWrite(js, J.Diff(jo, jm)), k) == J.Get(ObjectJson(status), k) {
      ObjectMemberMerges(s, o, m, js, jo, jm, k);
      P.EndpointAt(js, J.Diff(jo, jm), k);
      ObjectAt(status, k);
    }
    J.SameFields(P.StatusWrite(js, J.Diff(jo, jm)), ObjectJson(status));
  }

  // ----- merging with the object that was read -----

  /** If the stored part is what was read, the result is what was written. */
  lemma MergeFromRead(o: Status, m: Status)
    ensures MergeStatus(o, o, m) == m
  {
  }

  /** An unchanged part is not written. */
  lemma MergeNoChange(s: Status, o: Status, m: Status)
    ensures o.config == m.config ==> MergeStatus(s, o, m).config == s.config
    ensures s.config == o.config ==> MergeStatus(s, o, m).config == m.config
  {
  }
}
