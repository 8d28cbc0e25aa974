/**
 The CFAPI object in whatever JSON the API server holds: with members that the typed record does not
 know, such as a name or labels, and without members that are zero, such as the status of a fresh object.
 */
module StoredJson {
  import opened Prelude
  import opened Types
  import opened ApiServer
  import J = Json
  import P = Patch

  const METADATA := "metadata"
  const SPEC := "spec"
  const INSTALLATION_CONFIG := "installationConfig"

  const SPEC_KEYS := {
    "rootNamespace", "containerRegistrySecret", "disableContainerRegistrySecretPropagation",
    "containerRepositoryPrefix", "builderRepository", "uaa", "cfadmins", "useSelfSignedCertificates", "gatewayType" }

  /** The members under a key; none if there is no object. */
  function Part(f: J.Fields, k: string): J.Fields {
    J.Members(J.Below(f, k))
  }

  /** The two read the same at the keys that are known. */
  ghost predicate Agree(x: J.Fields, y: J.Fields, keys: set<string>) {
    forall k :: k in keys ==> J.EssenceAt(x, k) == J.EssenceAt(y, k)
  }

  /** The stored JSON reads as the typed object: every known member does, and a missing one is zero. */
  ghost predicate ReadsAs(stored: J.Fields, o: Object) {
    && Agree(Part(stored, METADATA), MetaJson(o), META_KEYS)
    && Agree(Part(stored, SPEC), SpecJson(o.spec), SPEC_KEYS)
    && Agree(Part(stored, P.STATUS), StatusJson(o.status), STATUS_KEYS - {INSTALLATION_CONFIG})
    && Agree(Part(Part(stored, P.STATUS), INSTALLATION_CONFIG), ConfigJson(o.status.config), CONFIG_KEYS)
  }

  // ----- patches part by part -----

  lemma PartOfMerge(f: J.Fields, patch: J.Fields, k: string)
    requires k in patch ==> patch[k].Obj?
    ensures Part(J.Merge(f, patch), k) == J.Merge(Part(f, k), Part(patch, k))
  {
    J.MergeAt(f, patch, k);
    if k in patch {
      assert J.MergePatch(J.Below(f, k), patch[k]) == J.Obj(J.Merge(Part(f, k), patch[k].fields));
    } else {
      assert J.Merge(Part(f, k), map[]) == Part(f, k);
    }
  }

  lemma PartOfDiff(a: J.Fields, b: J.Fields, k: string, x: J.Fields, y: J.Fields)
    requires J.Get(a, k) == Some(J.Obj(x)) && J.Get(b, k) == Some(J.Obj(y))
    ensures k in J.Diff(a, b) ==> J.Diff(a, b)[k].Obj?
    ensures Part(J.Diff(a, b), k) == J.Diff(x, y)
  {
    J.DiffAt(a, b, k);
  }

  /** The part of a patched object. */
  lemma PatchedPart(f: J.Fields, a: J.Fields, b: J.Fields, k: string, x: J.Fields, y: J.Fields)
    requires J.Get(a, k) == Some(J.Obj(x)) && J.Get(b, k) == Some(J.Obj(y))
    ensures Part(J.Merge(f, J.Diff(a, b)), k) == J.Merge(Part(f, k), J.Diff(x, y))
  {
    PartOfDiff(a, b, k, x, y);
    PartOfMerge(f, J.Diff(a, b), k);
  }

  lemma MergeKeepsAgreement(x: J.Fields, y: J.Fields, patch: J.Fields, keys: set<string>)
    requires Agree(x, y, keys)
    ensures Agree(J.Merge(x, patch), J.Merge(y, patch), keys)
  {
    forall k | k in keys { J.MergedMembersAgree(x, y, patch, k); }
  }

  lemma EndpointParts(stored: J.Fields, d: J.Fields, k: string)
    ensures Part(P.MainWrite(stored, d), k) == Part(if k == P.STATUS then stored else J.Merge(stored, d), k)
    ensures Part(P.StatusWrite(stored, d), k) == Part(if k == P.STATUS then J.Merge(stored, d) else stored, k)
  {
    P.EndpointAt(stored, d, k);
  }

  /** What the patch from `o` to `m` makes of each part of any stored object. */
  lemma StoredParts(stored: J.Fields, o: Object, m: Object)
    requires m == o.(finalizers := m.finalizers, status := m.status)
    ensures var d := J.Diff(ObjectJson(o), ObjectJson(m));
            && Part(P.MainWrite(stored, d), METADATA) == J.Merge(Part(stored, METADATA), J.Diff(MetaJson(o), MetaJson(m)))
            && Part(P.MainWrite(stored, d), SPEC) == Part(stored, SPEC)
            && Part(P.MainWrite(stored, d), P.STATUS) == Part(stored, P.STATUS)
            && Part(P.StatusWrite(stored, d), METADATA) == Part(stored, METADATA)
            && Part(P.StatusWrite(stored, d), SPEC) == Part(stored, SPEC)
            && Part(P.StatusWrite(stored, d), P.STATUS) ==
               J.Merge(Part(stored, P.STATUS), J.Diff(StatusJson(o.status), StatusJson(m.status)))
  {
    var jo, jm := ObjectJson(o), ObjectJson(m);
    var d := J.Diff(jo, jm);
    EndpointParts(stored, d, METADATA); EndpointParts(stored, d, SPEC); EndpointParts(stored, d, P.STATUS);
    ObjectAt(o, METADATA); ObjectAt(m, METADATA);
    ObjectAt(o, SPEC); ObjectAt(m, SPEC);
    ObjectAt(o, P.STATUS); ObjectAt(m, P.STATUS);
    PatchedPart(stored, jo, jm, METADATA, MetaJson(o), MetaJson(m));
    PatchedPart(stored, jo, jm, SPEC, SpecJson(o.spec), SpecJson(o.spec));
    PatchedPart(stored, jo, jm, P.STATUS, StatusJson(o.status), StatusJson(m.status));
    J.MergeUnchanged(Part(stored, SPEC), SpecJson(o.spec));
  }

  lemma StoredConfig(status: J.Fields, o: Status, m: Status)
    ensures Part(J.Merge(status, J.Diff(StatusJson(o), StatusJson(m))), INSTALLATION_CONFIG) ==
            J.Merge(Part(status, INSTALLATION_CONFIG), J.Diff(ConfigJson(o.config), ConfigJson(m.config)))
  {
    StatusAt(o, INSTALLATION_CONFIG);
    StatusAt(m, INSTALLATION_CONFIG);
    PatchedPart(status, StatusJson(o), StatusJson(m), INSTALLATION_CONFIG, ConfigJson(o.config), ConfigJson(m.config));
  }

  /** Whatever JSON is stored, and whatever else it holds: if it reads as the typed object before a patch, it
      reads as the patched one afterwards. */
  lemma TypedPatchOnStoredJson(stored: J.Fields, s: Object, o: Object, m: Object)
    requires ReadsAs(stored, s) && m == o.(finalizers := m.finalizers, status := m.status)
    ensures var d := J.Diff(ObjectJson(o), ObjectJson(m));
            && ReadsAs(P.MainWrite(stored, d), s.(finalizers := PatchedFinalizers(s, o, m)))
            && ReadsAs(P.StatusWrite(stored, d), PatchedStatus(s, o, m))
  {
    StoredParts(stored, o, m);
    MainReads(stored, s, o, m);
    StatusReads(stored, s, o, m);
  }

  lemma MainReads(stored: J.Fields, s: Object, o: Object, m: Object)
    requires ReadsAs(stored, s) && m == o.(finalizers := m.finalizers, status := m.status)
    ensures ReadsAs(P.MainWrite(stored, J.Diff(ObjectJson(o), ObjectJson(m))), s.(finalizers := PatchedFinalizers(s, o, m)))
  {
    StoredParts(stored, o, m);
    MergeKeepsAgreement(Part(stored, METADATA), MetaJson(s), J.Diff(MetaJson(o), MetaJson(m)), META_KEYS);
    MetaMergeIsJson(s, o, m);
  }

  lemma StatusReads(stored: J.Fields, s: Object, o: Object, m: Object)
    requires ReadsAs(stored, s) && m == o.(finalizers := m.finalizers, status := m.status)
    ensures ReadsAs(P.StatusWrite(stored, J.Diff(ObjectJson(o), ObjectJson(m))), PatchedStatus(s, o, m))
  {
    var status := Part(stored, P.STATUS);
    StoredParts(stored, o, m);
    StoredConfig(status, o.status, m.status);
    MergeKeepsAgreement(status, StatusJson(s.status), J.Diff(StatusJson(o.status), StatusJson(m.status)),
                        STATUS_KEYS - {INSTALLATION_CONFIG});
    MergeKeepsAgreement(Part(status, INSTALLATION_CONFIG), ConfigJson(s.status.config),
                        J.Diff(ConfigJson(o.status.config), ConfigJson(m.status.config)), CONFIG_KEYS);
    StatusMergeIsJson(s.status, o.status, m.status);
    ConfigMergeIsJson(s.status.config, o.status.config, m.status.config);
    MetaOnly(PatchedStatus(s, o, m), s);
  }

  /** Members that the typed record does not know are never written, at any level. */
  lemma UnknownMembersKept(stored: J.Fields, o: Object, m: Object, k: string)
    requires m == o.(finalizers := m.finalizers, status := m.status)
    ensures var d := J.Diff(ObjectJson(o), ObjectJson(m));
            var main, status := P.MainWrite(stored, d), P.StatusWrite(stored, d);
            && (k !in {METADATA, SPEC, P.STATUS} ==> J.Get(main, k) == J.Get(stored, k) && J.Get(status, k) == J.Get(stored, k))
            && (k !in META_KEYS ==> J.Get(Part(main, METADATA), k) == J.Get(Part(stored, METADATA), k))
            && Part(main, SPEC) == Part(status, SPEC) == Part(stored, SPEC)
            && (k !in STATUS_KEYS ==> J.Get(Part(status, P.STATUS), k) == J.Get(Part(stored, P.STATUS), k))
            && (k !in CONFIG_KEYS ==>
                  J.Get(Part(Part(status, P.STATUS), INSTALLATION_CONFIG), k) ==
                  J.Get(Part(Part(stored, P.STATUS), INSTALLATION_CONFIG), k))
  {
    StoredParts(stored, o, m);
    StoredConfig(Part(stored, P.STATUS), o.status, m.status);
    P.EndpointAt(stored, J.Diff(ObjectJson(o), ObjectJson(m)), k);
    if k !in {METADATA, SPEC, P.STATUS} {
      ObjectAt(o, k); ObjectAt(m, k);
      KeptWhereAbsent(stored, ObjectJson(o), ObjectJson(m), k);
    }
    if k !in META_KEYS { KeptWhereAbsent(Part(stored, METADATA), MetaJson(o), MetaJson(m), k); }
    if k !in STATUS_KEYS { KeptWhereAbsent(Part(stored, P.STATUS), StatusJson(o.status), StatusJson(m.status), k); }
    if k !in CONFIG_KEYS {
      KeptWhereAbsent(Part(Part(stored, P.STATUS), INSTALLATION_CONFIG), ConfigJson(o.status.config), ConfigJson(m.status.config), k);
    }
  }

  lemma KeptWhereAbsent(f: J.Fields, a: J.Fields, b: J.Fields, k: string)
    requires k !in a && k !in b
    ensures J.Get(J.Merge(f, J.Diff(a, b)), k) == J.Get(f, k)
  {
    J.MergeLeaf(f, a, b, k);
  }

  // ----- the encoding is read back -----

  function Nonzero(j: Option<J.Json>): Option<J.Json> {
    if j.None? || J.Zero(j.value) then None else Some(J.Essence(j.value))
  }

  lemma NonzeroAt(f: J.Fields, k: string, member: Option<J.Json>)
    requires J.Get(f, k) == member
    ensures J.EssenceAt(f, k) == Nonzero(member)
  {
  }

  lemma StrOnce(a: string, b: string)
    requires Nonzero(Some(J.Str(a))) == Nonzero(Some(J.Str(b)))
    ensures a == b
  {
  }

  lemma ListOnce(a: seq<string>, b: seq<string>)
    requires Nonzero(ListOpt(a)) == Nonzero(ListOpt(b))
    ensures a == b
  {
    StringsInjective(a, b);
    assert |Strings(a)| == |a| && |Strings(b)| == |b|;
  }

  predicate SameField(a: Config, b: Config, i: nat) {
    Nonzero(ConfigField(a, i)) == Nonzero(ConfigField(b, i))
  }

  lemma ConfigTextsOnce(a: Config, b: Config)
    requires forall i: nat :: i < 12 ==> SameField(a, b, i)
    ensures a.rootNamespace == b.rootNamespace && a.registrySecret == b.registrySecret
    ensures a.registryURL == b.registryURL && a.repositoryPrefix == b.repositoryPrefix
    ensures a.builderRepository == b.builderRepository
  {
    assert SameField(a, b, 0) && SameField(a, b, 1) && SameField(a, b, 3) && SameField(a, b, 4) && SameField(a, b, 5);
    StrOnce(a.rootNamespace, b.rootNamespace);
    StrOnce(a.registrySecret, b.registrySecret);
    StrOnce(a.registryURL, b.registryURL);
    StrOnce(a.repositoryPrefix, b.repositoryPrefix);
    StrOnce(a.builderRepository, b.builderRepository);
  }

  lemma ConfigRestOnce(a: Config, b: Config)
    requires forall i: nat :: i < 12 ==> SameField(a, b, i)
    ensures a.uaaURL == b.uaaURL && a.cfDomain == b.cfDomain
    ensures a.ingressService == b.ingressService && a.gatewayType == b.gatewayType
    ensures a.disablePropagation == b.disablePropagation && a.useSelfSigned == b.useSelfSigned && a.cfAdmins == b.cfAdmins
  {
    assert SameField(a, b, 2) && SameField(a, b, 6) && SameField(a, b, 7) && SameField(a, b, 8);
    assert SameField(a, b, 9) && SameField(a, b, 10) && SameField(a, b, 11);
    StrOnce(a.uaaURL, b.uaaURL);
    StrOnce(a.cfDomain, b.cfDomain);
    StrOnce(a.ingressService, b.ingressService);
    StrOnce(a.gatewayType, b.gatewayType);
    ListOnce(a.cfAdmins, b.cfAdmins);
  }

  const CONFIG_NAMES: seq<string> := [
    "rootNamespace", "containerRegistrySecret", "disableContainerRegistrySecretPropagation",
    "containerRegistryUrl", "containerRepositoryPrefix", "builderRepository", "uaaUrl", "cfAdmins",
    "cfDomain", "korifiIngressService", "useSelfSignedCertificates", "gatewayType"]

  lemma ConfigNamesPositions(i: nat)
    requires i < 12
    ensures ConfigPosition(CONFIG_NAMES[i]) == i
  {
  }

  lemma ConfigReadOnce(a: Config, b: Config)
    requires J.EssenceOf(ConfigJson(a)) == J.EssenceOf(ConfigJson(b))
    ensures a == b
  {
    J.SameEssence(ConfigJson(a), ConfigJson(b));
    forall i: nat | i < 12 ensures SameField(a, b, i) {
      var k := CONFIG_NAMES[i];
      ConfigNamesPositions(i);
      ConfigAt(a, k);
      ConfigAt(b, k);
      NonzeroAt(ConfigJson(a), k, ConfigMember(a, k));
      NonzeroAt(ConfigJson(b), k, ConfigMember(b, k));
      assert J.EssenceAt(ConfigJson(a), k) == J.EssenceAt(ConfigJson(b), k);
    }
    ConfigTextsOnce(a, b);
    ConfigRestOnce(a, b);
  }

  /** A member that is an object on both sides. */
  lemma PartReadOnce(f: J.Fields, g: J.Fields, k: string, x: J.Fields, y: J.Fields)
    requires J.Get(f, k) == Some(J.Obj(x)) && J.Get(g, k) == Some(J.Obj(y)) && J.EssenceOf(f) == J.EssenceOf(g)
    ensures J.EssenceOf(x) == J.EssenceOf(y)
  {
    J.SameEssence(f, g);
    assert J.EssenceAt(f, k) == J.EssenceAt(g, k);
    J.ZeroHasNoEssence(x);
    J.ZeroHasNoEssence(y);
  }

  lemma StatusMemberReadOnce(a: Status, b: Status, k: string)
    requires J.EssenceOf(StatusJson(a)) == J.EssenceOf(StatusJson(b))
    ensures Nonzero(StatusMember(a, k)) == Nonzero(StatusMember(b, k))
  {
    J.SameEssence(StatusJson(a), StatusJson(b));
    StatusAt(a, k);
    StatusAt(b, k);
    NonzeroAt(StatusJson(a), k, StatusMember(a, k));
    NonzeroAt(StatusJson(b), k, StatusMember(b, k));
    assert J.EssenceAt(StatusJson(a), k) == J.EssenceAt(StatusJson(b), k);
  }

  lemma StatusReadOnce(a: Status, b: Status)
    requires J.EssenceOf(StatusJson(a)) == J.EssenceOf(StatusJson(b))
    ensures a == b
  {
    StatusMemberReadOnce(a, b, "state");
    StatusMemberReadOnce(a, b, "observedGeneration");
    StatusMemberReadOnce(a, b, "conditions");
    StatusMemberReadOnce(a, b, "url");
    StrOnce(StateName(a.state), StateName(b.state));
    StateNameOnce(a.state, b.state);
    ConditionsInjective(a.conditions, b.conditions);
    assert |Conditions(a.conditions)| == |a.conditions| && |Conditions(b.conditions)| == |b.conditions|;
    StatusAt(a, "installationConfig");
    StatusAt(b, "installationConfig");
    PartReadOnce(StatusJson(a), StatusJson(b), "installationConfig", ConfigJson(a.config), ConfigJson(b.config));
    ConfigReadOnce(a.config, b.config);
  }

  lemma StateNameOnce(a: State, b: State)
    requires StateName(a) == StateName(b)
    ensures a == b
  {
  }

  lemma MetaMemberReadOnce(a: Object, b: Object, k: string)
    requires J.EssenceOf(MetaJson(a)) == J.EssenceOf(MetaJson(b))
    ensures Nonzero(MetaMember(a, k)) == Nonzero(MetaMember(b, k))
  {
    J.SameEssence(MetaJson(a), MetaJson(b));
    MetaAt(a, k);
    MetaAt(b, k);
    NonzeroAt(MetaJson(a), k, MetaMember(a, k));
    NonzeroAt(MetaJson(b), k, MetaMember(b, k));
    assert J.EssenceAt(MetaJson(a), k) == J.EssenceAt(MetaJson(b), k);
  }

  lemma MetaReadOnce(a: Object, b: Object)
    requires J.EssenceOf(MetaJson(a)) == J.EssenceOf(MetaJson(b))
    ensures a.uid == b.uid && a.generation == b.generation && a.deleting == b.deleting && a.finalizers == b.finalizers
  {
    MetaMemberReadOnce(a, b, "uid");
    MetaMemberReadOnce(a, b, "generation");
    MetaMemberReadOnce(a, b, "deletionTimestamp");
    MetaMemberReadOnce(a, b, "finalizers");
    ListOnce(a.finalizers, b.finalizers);
  }

  lemma SpecMemberReadOnce(a: Spec, b: Spec, k: string)
    requires J.EssenceOf(SpecJson(a)) == J.EssenceOf(SpecJson(b)) && k in SpecJson(a)
    ensures k in SpecJson(b) && Nonzero(Some(SpecJson(a)[k])) == Nonzero(Some(SpecJson(b)[k]))
  {
    J.SameEssence(SpecJson(a), SpecJson(b));
    NonzeroAt(SpecJson(a), k, Some(SpecJson(a)[k]));
    NonzeroAt(SpecJson(b), k, Some(SpecJson(b)[k]));
    assert J.EssenceAt(SpecJson(a), k) == J.EssenceAt(SpecJson(b), k);
  }

  lemma SpecTextReadOnce(a: Spec, b: Spec, k: string, x: string, y: string)
    requires J.EssenceOf(SpecJson(a)) == J.EssenceOf(SpecJson(b))
    requires k in SpecJson(a) && k in SpecJson(b) && SpecJson(a)[k] == J.Str(x) && SpecJson(b)[k] == J.Str(y)
    ensures x == y
  {
    SpecMemberReadOnce(a, b, k);
    StrOnce(x, y);
  }

  lemma SpecTextsReadOnce(a: Spec, b: Spec)
    requires J.EssenceOf(SpecJson(a)) == J.EssenceOf(SpecJson(b))
    ensures a.rootNamespace == b.rootNamespace && a.containerRegistrySecret == b.containerRegistrySecret
    ensures a.containerRepositoryPrefix == b.containerRepositoryPrefix
  {
    SpecTextReadOnce(a, b, "rootNamespace", a.rootNamespace, b.rootNamespace);
    SpecTextReadOnce(a, b, "containerRegistrySecret", a.containerRegistrySecret, b.containerRegistrySecret);
    SpecTextReadOnce(a, b, "containerRepositoryPrefix", a.containerRepositoryPrefix, b.containerRepositoryPrefix);
  }

  lemma SpecMoreTextsReadOnce(a: Spec, b: Spec)
    requires J.EssenceOf(SpecJson(a)) == J.EssenceOf(SpecJson(b))
    ensures a.builderRepository == b.builderRepository && a.uaa == b.uaa && a.gatewayType == b.gatewayType
  {
    SpecTextReadOnce(a, b, "builderRepository", a.builderRepository, b.builderRepository);
    SpecTextReadOnce(a, b, "uaa", a.uaa, b.uaa);
    SpecTextReadOnce(a, b, "gatewayType", a.gatewayType, b.gatewayType);
  }

  lemma SpecFlagsReadOnce(a: Spec, b: Spec)
    requires J.EssenceOf(SpecJson(a)) == J.EssenceOf(SpecJson(b))
    ensures a.disablePropagation == b.disablePropagation && a.useSelfSigned == b.useSelfSigned
  {
    SpecMemberReadOnce(a, b, "disableContainerRegistrySecretPropagation");
    SpecMemberReadOnce(a, b, "useSelfSignedCertificates");
  }

  lemma SpecAdminsReadOnce(a: Spec, b: Spec)
    requires J.EssenceOf(SpecJson(a)) == J.EssenceOf(SpecJson(b))
    ensures a.cfAdmins == b.cfAdmins
  {
    SpecMemberReadOnce(a, b, "cfadmins");
    StringsInjective(a.cfAdmins, b.cfAdmins);
    assert |Strings(a.cfAdmins)| == |a.cfAdmins| && |Strings(b.cfAdmins)| == |b.cfAdmins|;
  }

  lemma SpecReadOnce(a: Spec, b: Spec)
    requires J.EssenceOf(SpecJson(a)) == J.EssenceOf(SpecJson(b))
    ensures a == b
  {
    SpecTextsReadOnce(a, b);
    SpecMoreTextsReadOnce(a, b);
    SpecFlagsReadOnce(a, b);
    SpecAdminsReadOnce(a, b);
  }

  lemma AgreeTransitively(f: J.Fields, x: J.Fields, y: J.Fields, keys: set<string>)
    requires Agree(f, x, keys) && Agree(f, y, keys)
    ensures Agree(x, y, keys)
  {
    forall k | k in keys ensures J.EssenceAt(x, k) == J.EssenceAt(y, k) {
      assert J.EssenceAt(f, k) == J.EssenceAt(x, k) && J.EssenceAt(f, k) == J.EssenceAt(y, k);
    }
  }

  lemma KnownKeysAreAll(x: J.Fields, y: J.Fields, keys: set<string>)
    requires Agree(x, y, keys) && x.Keys <= keys && y.Keys <= keys
    ensures J.EssenceOf(x) == J.EssenceOf(y)
  {
    forall k ensures J.EssenceAt(x, k) == J.EssenceAt(y, k) {
      if k !in keys { assert k !in x && k !in y; }
    }
    J.SameEssence(x, y);
  }

  lemma StatusFromParts(a: Status, b: Status)
    requires Agree(StatusJson(a), StatusJson(b), STATUS_KEYS - {INSTALLATION_CONFIG})
    requires J.EssenceOf(ConfigJson(a.config)) == J.EssenceOf(ConfigJson(b.config))
    ensures a == b
  {
    StatusAt(a, INSTALLATION_CONFIG);
    StatusAt(b, INSTALLATION_CONFIG);
    J.ZeroHasNoEssence(ConfigJson(a.config));
    J.ZeroHasNoEssence(ConfigJson(b.config));
    assert Agree(StatusJson(a), StatusJson(b), STATUS_KEYS);
    KnownKeysAreAll(StatusJson(a), StatusJson(b), STATUS_KEYS);
    StatusReadOnce(a, b);
  }

  /** Stored JSON reads as one typed object at most. */
  lemma ReadOnce(stored: J.Fields, a: Object, b: Object)
    requires ReadsAs(stored, a) && ReadsAs(stored, b)
    ensures a == b
  {
    AgreeTransitively(Part(stored, METADATA), MetaJson(a), MetaJson(b), META_KEYS);
    KnownKeysAreAll(MetaJson(a), MetaJson(b), META_KEYS);
    MetaReadOnce(a, b);
    AgreeTransitively(Part(stored, SPEC), SpecJson(a.spec), SpecJson(b.spec), SPEC_KEYS);
    KnownKeysAreAll(SpecJson(a.spec), SpecJson(b.spec), SPEC_KEYS);
    SpecReadOnce(a.spec, b.spec);
    var status := Part(stored, P.STATUS);
    AgreeTransitively(Part(status, INSTALLATION_CONFIG), ConfigJson(a.status.config), ConfigJson(b.status.config), CONFIG_KEYS);
    KnownKeysAreAll(ConfigJson(a.status.config), ConfigJson(b.status.config), CONFIG_KEYS);
    AgreeTransitively(status, StatusJson(a.status), StatusJson(b.status), STATUS_KEYS - {INSTALLATION_CONFIG});
    StatusFromParts(a.status, b.status);
  }

  lemma NewStatusIsZero(k: string)
    ensures k in STATUS_KEYS - {INSTALLATION_CONFIG} ==> J.EssenceAt(StatusJson(NEW_STATUS), k) == None
  {
    StatusAt(NEW_STATUS, k);
  }

  lemma ZeroConfigIsZero(k: string)
    ensures k in CONFIG_KEYS ==> J.EssenceAt(ConfigJson(ZERO_CONFIG), k) == None
  {
    ConfigAt(ZERO_CONFIG, k);
  }

  /** A fresh object, stored without a status, reads as one with the zero status. */
  lemma FreshObjectReads(stored: J.Fields, o: Object)
    requires P.STATUS !in stored && o.status == NEW_STATUS
    requires Agree(Part(stored, METADATA), MetaJson(o), META_KEYS) && Agree(Part(stored, SPEC), SpecJson(o.spec), SPEC_KEYS)
    ensures ReadsAs(stored, o)
  {
    forall k { NewStatusIsZero(k); }
    forall k { ZeroConfigIsZero(k); }
  }
}
