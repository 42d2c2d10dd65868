/** Properties of the resolver that relate several calls, several inputs or
    an operation to an independent reference. */
module ResolverProperties {
  import opened Wrappers
  import Strings
  import Decimal
  import SemVer
  import opened Deployments
  import opened SafeContracts

  // ---------------------------------------------------------------------
  // Version validation

  /** Validating the stripped version again (when the SDK accepts it) gives
      the same props: stripping twice is stripping once. */
  lemma StrippingIsIdempotent(cfg: Config, chainId: string, safeVersion: string)
    requires ValidatedGetContractProps(cfg, chainId, safeVersion).Ok?
    requires cfg.isValidSafeVersion(ValidatedGetContractProps(cfg, chainId, safeVersion).value.safeVersion)
    ensures var p := ValidatedGetContractProps(cfg, chainId, safeVersion).value;
      ValidatedGetContractProps(cfg, chainId, p.safeVersion) == Ok(p)
  {
    Strings.BeforeFirstIdempotent(safeVersion, '+');
  }

  /** For a well-formed version string, the validated version is the
      canonical `MAJOR.MINOR.PATCH` of the same version: build metadata is
      dropped and nothing else changes. */
  lemma StrippedVersionIsCanonical(cfg: Config, chainId: string, safeVersion: string)
    requires ValidatedGetContractProps(cfg, chainId, safeVersion).Ok?
    requires SemVer.Parse(safeVersion).Some?
    ensures var p := ValidatedGetContractProps(cfg, chainId, safeVersion).value;
      && p.safeVersion == SemVer.Render(SemVer.Parse(safeVersion).value)
      && SemVer.Parse(p.safeVersion) == SemVer.Parse(safeVersion)
  {
    SemVer.ParseOfStripped(safeVersion);
  }

  /** The largest integer a JavaScript number holds exactly, 2^53 - 1. */
  const MAX_SAFE_INTEGER: nat := 9007199254740991

  /** A decimal chain id within JavaScript's exact integer range is read back
      as the number it renders. */
  lemma ChainIdReadsBack(cfg: Config, n: nat, safeVersion: string)
    requires cfg.isValidSafeVersion(safeVersion)
    requires n <= MAX_SAFE_INTEGER
    ensures ValidatedGetContractProps(cfg, Decimal.Render(n), safeVersion).value.chainId == Decimal.Num(n)
  {
    Decimal.ToNumberOfRender(n);
  }

  // ---------------------------------------------------------------------
  // Safe singleton

  /** The L2 table is read exactly when the chain is L2 and the version is
      at least 1.3.0; a string that is not a version reads the standard
      table, as do versions below 1.3.0 on L2 chains. */
  lemma SingletonTableChoice(chain: ChainInfo, safeVersion: string)
    ensures SingletonGetter(chain, safeVersion) == SafeL2Singleton <==>
      chain.l2 && SemVer.Parse(safeVersion).Some? && !SemVer.Below(SemVer.Parse(safeVersion).value, V1_3_0)
    ensures SemVer.Parse(safeVersion).Some? && SemVer.Below(SemVer.Parse(safeVersion).value, V1_3_0) ==>
      SingletonGetter(chain, safeVersion) == SafeSingleton
  {
  }

  /** Build metadata does not affect which table is read or whether the
      1.0.0 fallback is armed: `1.3.0+L2` behaves like `1.3.0` there. */
  lemma SingletonRulesIgnoreBuild(chain: ChainInfo, v: SemVer.Version, m: string)
    requires SemVer.ValidBuild(m)
    ensures SingletonGetter(chain, SemVer.Render(v) + "+" + m) == SingletonGetter(chain, SemVer.Render(v))
    ensures SemVer.SatisfiesBelow(SemVer.Render(v) + "+" + m, V1_0_0) == SemVer.SatisfiesBelow(SemVer.Render(v), V1_0_0)
  {
    SemVer.ParseIgnoresBuild(v, m);
    SemVer.ParseOfRender(v);
  }

  /** The singleton chain is "first hit wins" over its filter list: exact,
      then version-only, then (below 1.0.0 only) the 1.0.0 record. */
  lemma SafeContractDeploymentIsFirstHit(reg: Registry, chain: ChainInfo, safeVersion: string)
    requires Valid(reg)
    ensures SafeContractDeployment(reg, chain, safeVersion)
         == FirstHit(reg, SingletonGetter(chain, safeVersion), SingletonFilters(chain, safeVersion))
  {
    var g := SingletonGetter(chain, safeVersion);
    var fs := SingletonFilters(chain, safeVersion);
    assert fs[0] == Filter(Some(safeVersion), Some(chain.chainId));
    assert fs[1] == Filter(Some(safeVersion), None);
    if SemVer.SatisfiesBelow(safeVersion, V1_0_0) {
      assert fs[2] == Filter(Some(OLDEST_VERSION), None);
    }
  }

  /** On an L2 chain from 1.3.0 on, the answer comes from the L2 table and
      never from the 1.0.0 fallback, whatever the standard table holds. */
  lemma L2TableWins(reg: Registry, chain: ChainInfo, safeVersion: string)
    requires Valid(reg)
    requires chain.l2 && SemVer.SatisfiesAtLeast(safeVersion, V1_3_0)
    ensures SafeContractDeployment(reg, chain, safeVersion)
         == Or(Find(reg, SafeL2Singleton, Filter(Some(safeVersion), Some(chain.chainId))),
               Find(reg, SafeL2Singleton, Filter(Some(safeVersion), None)))
  {
    SemVer.RangesPartition(safeVersion, V1_0_0);
    var v := SemVer.Parse(safeVersion).value;
    SemVer.BelowIsStrictTotalOrder(v, V1_0_0, V1_3_0);
  }

  /** Only the chosen table matters: two registries that agree on it give
      the same answer, whatever the other tables hold. */
  lemma SafeContractDeploymentReadsOneTable(reg: Registry, reg': Registry, chain: ChainInfo, safeVersion: string)
    requires Valid(reg) && Valid(reg')
    requires var g := SingletonGetter(chain, safeVersion);
      forall f :: Find(reg, g, f) == Find(reg', g, f)
    ensures SafeContractDeployment(reg, chain, safeVersion) == SafeContractDeployment(reg', chain, safeVersion)
  {
    var g := SingletonGetter(chain, safeVersion);
    assert Find(reg, g, Filter(Some(safeVersion), Some(chain.chainId)))
        == Find(reg', g, Filter(Some(safeVersion), Some(chain.chainId)));
    assert Find(reg, g, Filter(Some(safeVersion), None)) == Find(reg', g, Filter(Some(safeVersion), None));
    assert Find(reg, g, Filter(Some(OLDEST_VERSION), None)) == Find(reg', g, Filter(Some(OLDEST_VERSION), None));
  }

  /** Whatever is found is one of the records the filters name: the
      resolver never invents an answer. */
  lemma SafeContractDeploymentFromFilters(reg: Registry, chain: ChainInfo, safeVersion: string)
    requires Valid(reg)
    requires SafeContractDeployment(reg, chain, safeVersion).Some?
    ensures exists i :: (0 <= i < |SingletonFilters(chain, safeVersion)| &&
      SafeContractDeployment(reg, chain, safeVersion)
        == Find(reg, SingletonGetter(chain, safeVersion), SingletonFilters(chain, safeVersion)[i]))
  {
    SafeContractDeploymentIsFirstHit(reg, chain, safeVersion);
    var g := SingletonGetter(chain, safeVersion);
    var fs := SingletonFilters(chain, safeVersion);
    var r := SafeContractDeployment(reg, chain, safeVersion);
    if Find(reg, g, fs[0]).Some? {
      assert r == Find(reg, g, fs[0]);
    } else if Find(reg, g, fs[1]).Some? {
      assert r == Find(reg, g, fs[1]);
    } else {
      assert |fs| == 3;
      assert r == Find(reg, g, fs[2]);
    }
  }

  // ---------------------------------------------------------------------
  // MultiSend and MultiSendCallOnly

  /** Both relay lookups are "first hit wins" over [this network, default]. */
  lemma RelayDeploymentIsFirstHit(reg: Registry, chainId: string)
    requires Valid(reg)
    ensures MultiSendContractDeployment(reg, chainId)
         == FirstHit(reg, MultiSend, [Filter(None, Some(chainId)), Filter(None, None)])
    ensures MultiSendCallOnlyContractDeployment(reg, chainId)
         == FirstHit(reg, MultiSendCallOnly, [Filter(None, Some(chainId)), Filter(None, None)])
  {
    var fs := [Filter(None, Some(chainId)), Filter(None, None)];
    assert fs[0] == Filter(None, Some(chainId)) && fs[1] == Filter(None, None);
  }

  /** When the network filter only yields records that list the network, a
      relay address is missing only if the default record was used and it
      has no entry for the chain. */
  lemma RelayAddressMissingOnlyViaDefault(reg: Registry, chainId: string)
    requires Valid(reg) && NetworkFiltersListed(reg)
    ensures MultiSendContractAddress(reg, chainId).None? ==>
      Find(reg, MultiSend, Filter(None, Some(chainId))).None?
    ensures MultiSendCallOnlyContractAddress(reg, chainId).None? ==>
      Find(reg, MultiSendCallOnly, Filter(None, Some(chainId))).None?
  {
    var k := Key(MultiSend, Filter(None, Some(chainId)));
    var k' := Key(MultiSendCallOnly, Filter(None, Some(chainId)));
    if k in reg.index {
      assert chainId in reg.records[reg.index[k]].networkAddresses;
    }
    if k' in reg.index {
      assert chainId in reg.records[reg.index[k']].networkAddresses;
    }
  }

  /** A record can be found while the address is still `undefined`: the
      default record need not list the chain. */
  lemma RelayAddressCanBeMissing()
    ensures exists reg: Registry, chainId: string ::
      Valid(reg) && MultiSendContractDeployment(reg, chainId).Some? && MultiSendContractAddress(reg, chainId).None?
  {
    var reg := Registry([Deployment("0xdefault", map[], [])], map[Key(MultiSend, Filter(None, None)) := 0]);
    assert Find(reg, MultiSend, Filter(None, Some("1"))).None?;
    assert MultiSendContractDeployment(reg, "1") == Some(0);
  }

  // ---------------------------------------------------------------------
  // Proxy factory

  /** The caller's version never changes what the proxy factory resolves
      to or what the override writes; only whether validation throws. */
  lemma ProxyFactoryIgnoresSafeVersion(cfg: Config, reg: Registry, chainId: string, v1: Option<string>, v2: Option<string>)
    requires Valid(reg)
    ensures var e1 := ProxyFactoryContractInstance(cfg, reg, chainId, v1);
            var e2 := ProxyFactoryContractInstance(cfg, reg, chainId, v2);
      && e1.registry == e2.registry
      && (e1.outcome.Ok? && e2.outcome.Ok? ==>
            e1.outcome.value.singletonDeployment == e2.outcome.value.singletonDeployment)
  {
  }

  /** There is no minimum-compatibility fallback for the proxy factory:
      registries that differ only in their 1.0.0 entries give the same
      record, for every chain. */
  lemma ProxyFactoryHasNoOldestFallback(cfg: Config, reg: Registry, reg': Registry, chainId: string)
    requires Valid(reg) && Valid(reg')
    requires cfg.latestSafeVersion != OLDEST_VERSION
    requires forall k: Key :: k.filter.version != Some(OLDEST_VERSION) ==> (k in reg.index <==> k in reg'.index)
    requires forall k: Key :: k in reg.index && k.filter.version != Some(OLDEST_VERSION) ==> reg.index[k] == reg'.index[k]
    ensures ProxyFactoryContractDeployment(cfg, reg, chainId) == ProxyFactoryContractDeployment(cfg, reg', chainId)
  {
    var own := Key(ProxyFactory, Filter(Some(cfg.latestSafeVersion), Some(chainId)));
    var versionOnly := Key(ProxyFactory, Filter(Some(cfg.latestSafeVersion), None));
    assert own in reg.index <==> own in reg'.index;
    assert versionOnly in reg.index <==> versionOnly in reg'.index;
  }

  /** Both latest-version lookups are "first hit wins" over [this network,
      version-wide]. */
  lemma LatestIsFirstHit(cfg: Config, reg: Registry, chainId: string)
    requires Valid(reg)
    ensures var fs := [Filter(Some(cfg.latestSafeVersion), Some(chainId)), Filter(Some(cfg.latestSafeVersion), None)];
      && ProxyFactoryContractDeployment(cfg, reg, chainId) == FirstHit(reg, ProxyFactory, fs)
      && FallbackHandlerContractDeployment(cfg, reg, chainId) == FirstHit(reg, FallbackHandler, fs)
  {
    var fs := [Filter(Some(cfg.latestSafeVersion), Some(chainId)), Filter(Some(cfg.latestSafeVersion), None)];
    assert fs[0] == Filter(Some(cfg.latestSafeVersion), Some(chainId));
    assert fs[1] == Filter(Some(cfg.latestSafeVersion), None);
  }

  // ---------------------------------------------------------------------
  // The written 920000 entry, as the library's network filter sees it

  /** The registry with the entry the library's network filter would add
      once record `r` lists network 920000: the filter `{ version, network:
      '920000' }` of getter `g` then yields `r`. */
  function WithOverrideEntry(reg: Registry, g: Getter, version: string, r: Ref): (reg': Registry)
    requires Valid(reg) && r < |reg.records|
    ensures Valid(reg')
    ensures Find(reg', g, Filter(Some(version), Some(OVERRIDE_CHAIN_ID))) == Some(r)
  {
    reg.(index := reg.index[Key(g, Filter(Some(version), Some(OVERRIDE_CHAIN_ID))) := r])
  }

  /** Writing a record that keeps its networks and adds 920000, and adding
      the index entry for 920000 that points at it, keeps every network
      filter honest. */
  lemma OverrideEntryKeepsListing(reg: Registry, r: Ref, d: Deployment, g: Getter, version: string)
    requires Valid(reg) && r < |reg.records| && NetworkFiltersListed(reg)
    requires reg.records[r].networkAddresses.Keys + {OVERRIDE_CHAIN_ID} <= d.networkAddresses.Keys
    ensures NetworkFiltersListed(WithOverrideEntry(Write(reg, r, d), g, version, r))
  {
    var reg' := WithOverrideEntry(Write(reg, r, d), g, version, r);
    forall k | k in reg'.index && k.filter.network.Some?
      ensures k.filter.network.value in reg'.records[reg'.index[k]].networkAddresses
    {
      if k != Key(g, Filter(Some(version), Some(OVERRIDE_CHAIN_ID))) {
        assert k in reg.index && reg'.index[k] == reg.index[k];
      }
    }
  }

  /** Once the override has written its 920000 entry, the library's network
      filter for 920000 finds the overridden record. Adding that lookup to
      the index changes nothing for the calling chain or for any chain other
      than 920000, and chain 920000 now resolves to the overridden record. */
  lemma ProxyFactoryOverrideEntryVisible(cfg: Config, reg: Registry, chainId: string, safeVersion: Option<string>, c: string)
    requires Valid(reg)
    requires ProxyFactoryContractDeployment(cfg, reg, chainId).Some?
    ensures var found := ProxyFactoryContractDeployment(cfg, reg, chainId).value;
            var reg' := ProxyFactoryContractInstance(cfg, reg, chainId, safeVersion).registry;
            var reg'' := WithOverrideEntry(reg', ProxyFactory, cfg.latestSafeVersion, found);
      && ProxyFactoryContractDeployment(cfg, reg'', chainId) == Some(found)
      && ProxyFactoryContractDeployment(cfg, reg'', OVERRIDE_CHAIN_ID) == Some(found)
      && (c != OVERRIDE_CHAIN_ID ==>
            ProxyFactoryContractDeployment(cfg, reg'', c) == ProxyFactoryContractDeployment(cfg, reg, c))
      && (NetworkFiltersListed(reg) ==> NetworkFiltersListed(reg''))
  {
    var found := ProxyFactoryContractDeployment(cfg, reg, chainId).value;
    if NetworkFiltersListed(reg) {
      OverrideEntryKeepsListing(reg, found, ProxyFactoryOverride(reg.records[found]), ProxyFactory, cfg.latestSafeVersion);
    }
  }

  /** The same for the fallback handler's override. */
  lemma FallbackHandlerOverrideEntryVisible(cfg: Config, reg: Registry, chainId: string, c: string)
    requires Valid(reg)
    requires FallbackHandlerContractDeployment(cfg, reg, chainId).Some?
    ensures var found := FallbackHandlerContractDeployment(cfg, reg, chainId).value;
            var reg' := FallbackHandlerContractInstance(cfg, reg, chainId).registry;
            var reg'' := WithOverrideEntry(reg', FallbackHandler, cfg.latestSafeVersion, found);
      && FallbackHandlerContractDeployment(cfg, reg'', chainId) == Some(found)
      && FallbackHandlerContractDeployment(cfg, reg'', OVERRIDE_CHAIN_ID) == Some(found)
      && (c != OVERRIDE_CHAIN_ID ==>
            FallbackHandlerContractDeployment(cfg, reg'', c) == FallbackHandlerContractDeployment(cfg, reg, c))
      && (NetworkFiltersListed(reg) ==> NetworkFiltersListed(reg''))
  {
    var found := FallbackHandlerContractDeployment(cfg, reg, chainId).value;
    if NetworkFiltersListed(reg) {
      OverrideEntryKeepsListing(reg, found, FallbackHandlerOverride(reg.records[found]), FallbackHandler, cfg.latestSafeVersion);
    }
  }

  /** The override is idempotent on a record. */
  lemma ProxyFactoryOverrideIdempotent(d: Deployment)
    ensures ProxyFactoryOverride(ProxyFactoryOverride(d)) == ProxyFactoryOverride(d)
  {
  }

  /** The override leaves a record unchanged exactly when the record
      already holds the fixed address in both places. */
  lemma ProxyFactoryOverrideFixpoint(d: Deployment)
    ensures ProxyFactoryOverride(d) == d <==>
      && d.defaultAddress == OVERRIDE_ADDRESS
      && OVERRIDE_CHAIN_ID in d.networkAddresses
      && d.networkAddresses[OVERRIDE_CHAIN_ID] == OVERRIDE_ADDRESS
  {
    if d.defaultAddress == OVERRIDE_ADDRESS && OVERRIDE_CHAIN_ID in d.networkAddresses
       && d.networkAddresses[OVERRIDE_CHAIN_ID] == OVERRIDE_ADDRESS {
      assert ProxyFactoryOverride(d).networkAddresses == d.networkAddresses;
    }
  }

  /** Calling the instance function twice leaves the registry as one call
      does and hands the SDK the same request. */
  lemma ProxyFactoryInstanceIdempotent(cfg: Config, reg: Registry, chainId: string, safeVersion: Option<string>)
    requires Valid(reg)
    ensures var e1 := ProxyFactoryContractInstance(cfg, reg, chainId, safeVersion);
            var e2 := ProxyFactoryContractInstance(cfg, e1.registry, chainId, safeVersion);
      e2 == e1
  {
    var e1 := ProxyFactoryContractInstance(cfg, reg, chainId, safeVersion);
    var found := ProxyFactoryContractDeployment(cfg, reg, chainId);
    assert ProxyFactoryContractDeployment(cfg, e1.registry, chainId) == found;
    if found.Some? {
      ProxyFactoryOverrideIdempotent(reg.records[found.value]);
      assert e1.registry.records[found.value := ProxyFactoryOverride(e1.registry.records[found.value])]
          == e1.registry.records;
    }
  }

  /** The override is written into the shared record, so every filter of
      every getter that yields that record sees the fixed default address
      afterwards, whatever chain it asks for. */
  lemma ProxyFactoryOverrideIsShared(cfg: Config, reg: Registry, chainId: string, safeVersion: Option<string>, k: Key)
    requires Valid(reg)
    requires ProxyFactoryContractDeployment(cfg, reg, chainId).Some?
    requires k in reg.index && Some(reg.index[k]) == ProxyFactoryContractDeployment(cfg, reg, chainId)
    ensures var reg' := ProxyFactoryContractInstance(cfg, reg, chainId, safeVersion).registry;
      && k in reg'.index
      && reg'.records[reg'.index[k]].defaultAddress == OVERRIDE_ADDRESS
  {
  }

  /** The override happens before validation: an invalid version throws,
      yet the found record has already been overwritten. */
  lemma ProxyFactoryOverrideBeforeValidation(cfg: Config, reg: Registry, chainId: string, safeVersion: Option<string>)
    requires Valid(reg)
    requires !cfg.isValidSafeVersion(VersionOrLatest(cfg, safeVersion))
    requires ProxyFactoryContractDeployment(cfg, reg, chainId).Some?
    ensures var e := ProxyFactoryContractInstance(cfg, reg, chainId, safeVersion);
            var r := ProxyFactoryContractDeployment(cfg, reg, chainId).value;
      && e.outcome == Err(InvalidSafeVersion(VersionOrLatest(cfg, safeVersion)))
      && e.registry.records[r].defaultAddress == OVERRIDE_ADDRESS
  {
  }

  // ---------------------------------------------------------------------
  // Fallback handler

  /** The override is idempotent on a record. */
  lemma FallbackHandlerOverrideIdempotent(d: Deployment)
    ensures FallbackHandlerOverride(FallbackHandlerOverride(d)) == FallbackHandlerOverride(d)
  {
  }

  /** The fallback handler throws exactly when the latest version has no
      record at all, neither for this chain nor version-wide. */
  lemma FallbackHandlerErrorIffNoRecord(cfg: Config, reg: Registry, chainId: string)
    requires Valid(reg)
    ensures FallbackHandlerContractInstance(cfg, reg, chainId).outcome.Err? <==>
      && Find(reg, FallbackHandler, Filter(Some(cfg.latestSafeVersion), Some(chainId))).None?
      && Find(reg, FallbackHandler, Filter(Some(cfg.latestSafeVersion), None)).None?
  {
  }

  /** Calling the instance function twice leaves the registry as one call
      does and yields the same contract. */
  lemma FallbackHandlerInstanceIdempotent(cfg: Config, reg: Registry, chainId: string)
    requires Valid(reg)
    ensures var e1 := FallbackHandlerContractInstance(cfg, reg, chainId);
            var e2 := FallbackHandlerContractInstance(cfg, e1.registry, chainId);
      e2 == e1
  {
    var e1 := FallbackHandlerContractInstance(cfg, reg, chainId);
    var found := FallbackHandlerContractDeployment(cfg, reg, chainId);
    assert FallbackHandlerContractDeployment(cfg, e1.registry, chainId) == found;
    if found.Some? {
      FallbackHandlerOverrideIdempotent(reg.records[found.value]);
      assert e1.registry.records[found.value := FallbackHandlerOverride(e1.registry.records[found.value])]
          == e1.registry.records;
    }
  }

  /** When the network filter only yields records that list the network, a
      record found for this chain always gives a defined address. */
  lemma FallbackHandlerAddressWhenListed(cfg: Config, reg: Registry, chainId: string)
    requires Valid(reg) && NetworkFiltersListed(reg)
    requires Find(reg, FallbackHandler, Filter(Some(cfg.latestSafeVersion), Some(chainId))).Some?
    ensures FallbackHandlerContractInstance(cfg, reg, chainId).outcome.Ok?
    ensures FallbackHandlerContractInstance(cfg, reg, chainId).outcome.value.address.Some?
  {
    var k := Key(FallbackHandler, Filter(Some(cfg.latestSafeVersion), Some(chainId)));
    assert chainId in reg.records[reg.index[k]].networkAddresses;
  }

  /** A version-wide record that does not list the chain gets past the
      resolver's own not-found check, and the address read for the handle is
      `undefined`; what the contract constructor then does is not modelled. */
  lemma FallbackHandlerAddressCanBeMissing()
    ensures exists cfg: Config, reg: Registry, chainId: string ::
      && Valid(reg)
      && FallbackHandlerContractInstance(cfg, reg, chainId).outcome.Ok?
      && FallbackHandlerContractInstance(cfg, reg, chainId).outcome.value.address.None?
  {
    var cfg := Config(v => true, "1.3.0");
    var reg := Registry([Deployment("0xdefault", map[], [])],
                        map[Key(FallbackHandler, Filter(Some("1.3.0"), None)) := 0]);
    assert Find(reg, FallbackHandler, Filter(Some("1.3.0"), Some("1"))).None?;
    assert FallbackHandlerContractDeployment(cfg, reg, "1") == Some(0);
    assert FallbackHandlerContractInstance(cfg, reg, "1").outcome.value.address.None?;
  }
}
