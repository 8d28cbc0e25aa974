/** What the compiled configuration holds, field by field, and why there is none. */
module CompileFacts {
  import opened Prelude
  import opened Types
  import opened Controller

  /** Where the registry comes from: the secret that the spec names, with one of its registries, or Kyma's. */
  predicate RegistryFrom(spec: Spec, l: Lookups, secret: string, url: string) {
    if spec.containerRegistrySecret != "" then
      && secret == spec.containerRegistrySecret
      && l.customSecret.None? && l.registryURLs.Ok? && l.registryURLs.value != [] && url == l.registryURLs.value[0]
    else
      l.kymaSecretName == Ok(secret) && l.kymaRegistryURL == Ok(url)
  }

  /** Every field that the spec gives is the spec's; every one it leaves open is the answer of its lookup, or its
      literal default; the defaults of prefix and builder lie under the registry. */
  lemma CompiledMeans(spec: Spec, l: Lookups)
    requires Compile(spec, l).Ok?
    ensures var c := Compile(spec, l).value;
            && c.rootNamespace == (if spec.rootNamespace == "" then "cf" else spec.rootNamespace)
            && RegistryFrom(spec, l, c.registrySecret, c.registryURL)
            && c.repositoryPrefix ==
                 (if spec.containerRepositoryPrefix == "" then c.registryURL + "/" else spec.containerRepositoryPrefix)
            && c.builderRepository ==
                 (if spec.builderRepository == "" then c.registryURL + "/cfapi/kpack-builder" else spec.builderRepository)
            && (if spec.uaa == "" then l.uaaURL == Ok(c.uaaURL) else c.uaaURL == spec.uaa)
            && (if spec.cfAdmins == [] then l.clusterAdmins == Ok(c.cfAdmins) else c.cfAdmins == spec.cfAdmins)
            && l.kymaDomain == Ok(c.cfDomain)
            && c.gatewayType == (if spec.gatewayType == "" then "contour" else spec.gatewayType)
            && c.ingressService == (if spec.gatewayType == "istio" then "korifi-istio" else "contour-envoy")
            && c.disablePropagation == spec.disablePropagation && c.useSelfSigned == spec.useSelfSigned
  {
  }

  // ----- why there is no configuration -----

  /** Everything that can be in the way, in the order in which it is looked at. */
  function Obstacles(spec: Spec, l: Lookups): seq<Option<string>> {
    var custom, istio := spec.containerRegistrySecret != "", spec.gatewayType == "istio";
    [ AsError(spec.gatewayType !in ["", "contour", "istio"], "invalid gateway type"),
      Only(istio, ErrorOf(l.alphaGatewayAPI)),
      AsError(istio && l.alphaGatewayAPI == Ok(false), "alpha gateway API feature is not enabled in istio"),
      ErrorOf(l.kymaDomain),
      Only(custom, l.customSecret),
      Only(custom, ErrorOf(l.registryURLs)),
      AsError(custom && l.registryURLs == Ok([]), "no container registries"),
      Only(!custom, ErrorOf(l.kymaSecretName)),
      Only(!custom, ErrorOf(l.kymaRegistryURL)),
      Only(spec.uaa == "", ErrorOf(l.uaaURL)),
      Only(spec.cfAdmins == [], ErrorOf(l.clusterAdmins)) ]
  }

  /** There is a configuration exactly if nothing that the spec makes the compilation ask for is in the way;
      otherwise the error is the first of the obstacles. */
  lemma CompileFailsIff(spec: Spec, l: Lookups)
    ensures ErrorOf(Compile(spec, l)) == First(Obstacles(spec, l))
  {
    var n := FindFirst(Obstacles(spec, l));
    if n < |Obstacles(spec, l)| {
      FirstAt(Obstacles(spec, l), n);
      ErrorAt(spec, l, n);
    } else {
      NoneFirst(Obstacles(spec, l));
      NoObstacle(spec, l);
    }
  }

  lemma NoObstacle(spec: Spec, l: Lookups)
    requires forall i :: 0 <= i < |Obstacles(spec, l)| ==> Obstacles(spec, l)[i].None?
    ensures Compile(spec, l).Ok?
  {
    var os := Obstacles(spec, l);
    assert os[0].None? && os[1].None? && os[2].None? && os[3].None? && os[4].None? && os[5].None?;
    assert os[6].None? && os[7].None? && os[8].None? && os[9].None? && os[10].None?;
  }

  lemma ErrorAt(spec: Spec, l: Lookups, n: nat)
    requires n < 11 && Obstacles(spec, l)[n].Some? && forall i :: 0 <= i < n ==> Obstacles(spec, l)[i].None?
    ensures ErrorOf(Compile(spec, l)) == Obstacles(spec, l)[n]
  {
    var os := Obstacles(spec, l);
    assert 0 < n ==> os[0].None?;
    assert 1 < n ==> os[1].None?;
    assert 2 < n ==> os[2].None?;
    assert 3 < n ==> os[3].None?;
    assert 4 < n ==> os[4].None?;
    assert 5 < n ==> os[5].None?;
    assert 6 < n ==> os[6].None?;
    assert 7 < n ==> os[7].None?;
    assert 8 < n ==> os[8].None?;
    assert 9 < n ==> os[9].None?;
  }
}
