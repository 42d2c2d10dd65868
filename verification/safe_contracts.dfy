/** The deployment resolver: for a chain and a Safe version, which published
    record of each contract family to use, and the two address overrides
    written into shared records. */
module SafeContracts {
  import opened Wrappers
  import Strings
  import Decimal
  import SemVer
  import opened Deployments

  /** What the resolver reads from outside: the SDK's `isValidSafeVersion`
      check and the configured `LATEST_SAFE_VERSION`. */
  datatype Config = Config(isValidSafeVersion: string -> bool, latestSafeVersion: string)

  /** The part of a chain's description the resolver reads. */
  datatype ChainInfo = ChainInfo(chainId: string, l2: bool)

  /** `{ chainId, safeVersion }` as handed to the SDK. */
  datatype ContractProps = ContractProps(chainId: Decimal.Number, safeVersion: string)

  /** The errors the resolver throws. */
  datatype Error =
    | InvalidSafeVersion(version: string)
    | FallbackHandlerNotFound(chainId: string)

  /** The network whose entry both overrides write; JavaScript turns the
      numeric key 920000 into this string. */
  const OVERRIDE_CHAIN_ID: string := "920000"

  /** The address both overrides write. */
  const OVERRIDE_ADDRESS: string := "0x5032CE064D481501E6b4a5Cc10D64e6482538948"

  /** The version pinned by the minimum-compatibility fallback. */
  const OLDEST_VERSION: string := "1.0.0"

  const V1_0_0: SemVer.Version := SemVer.Version(1, 0, 0)
  const V1_3_0: SemVer.Version := SemVer.Version(1, 3, 0)

  // ---------------------------------------------------------------------
  // Version validation

  /** `_getValidatedGetContractProps`: rejects a version the SDK does not
      know, and otherwise drops build metadata (`+L2`, `+Circles`) from it
      and reads the chain id as a number. */
  function ValidatedGetContractProps(cfg: Config, chainId: string, safeVersion: string)
    : (r: Result<ContractProps, Error>)
    ensures r.Err? <==> !cfg.isValidSafeVersion(safeVersion)
    ensures r.Err? ==> r.error == InvalidSafeVersion(safeVersion)
    ensures r.Ok? ==> '+' !in r.value.safeVersion && r.value.safeVersion <= safeVersion
    ensures r.Ok? && |r.value.safeVersion| < |safeVersion| ==> safeVersion[|r.value.safeVersion|] == '+'
    ensures r.Ok? ==> (r.value.chainId.Num? <==> Decimal.AllDigits(chainId))
    ensures r.Ok? ==> r.value.chainId == Decimal.ToNumber(chainId)
  {
    if !cfg.isValidSafeVersion(safeVersion) then Err(InvalidSafeVersion(safeVersion))
    else Ok(ContractProps(Decimal.ToNumber(chainId), Strings.BeforeFirst(safeVersion, '+')))
  }

  // ---------------------------------------------------------------------
  // Safe singleton

  /** The table `_getSafeContractDeployment` reads: the L2 singleton only on
      an L2 chain and from version 1.3.0 on, because some L2 chains carry
      older L1 deployments. */
  function SingletonGetter(chain: ChainInfo, safeVersion: string): (g: Getter)
    ensures g == SafeL2Singleton || g == SafeSingleton
    ensures g == SafeL2Singleton <==> chain.l2 && SemVer.SatisfiesAtLeast(safeVersion, V1_3_0)
  {
    if chain.l2 && SemVer.SatisfiesAtLeast(safeVersion, V1_3_0) then SafeL2Singleton else SafeSingleton
  }

  /** The filters `_getSafeContractDeployment` tries, in order. */
  function SingletonFilters(chain: ChainInfo, safeVersion: string): seq<Filter>
  {
    [Filter(Some(safeVersion), Some(chain.chainId)), Filter(Some(safeVersion), None)]
    + (if SemVer.SatisfiesBelow(safeVersion, V1_0_0) then [Filter(Some(OLDEST_VERSION), None)] else [])
  }

  /** `_getSafeContractDeployment`: in the chosen table, the record for this
      version on this chain, else the record for this version, else, for a
      version below 1.0.0 only, the 1.0.0 record. */
  function SafeContractDeployment(reg: Registry, chain: ChainInfo, safeVersion: string)
    : (r: Option<Ref>)
    requires Valid(reg)
    ensures r.Some? ==> r.value < |reg.records|
    ensures
      var g := SingletonGetter(chain, safeVersion);
      var exact := Find(reg, g, Filter(Some(safeVersion), Some(chain.chainId)));
      var versionOnly := Find(reg, g, Filter(Some(safeVersion), None));
      var oldest := Find(reg, g, Filter(Some(OLDEST_VERSION), None));
      && (exact.Some? ==> r == exact)
      && (exact.None? && versionOnly.Some? ==> r == versionOnly)
      && (exact.None? && versionOnly.None? && r.Some? ==>
            SemVer.SatisfiesBelow(safeVersion, V1_0_0) && r == oldest)
      && (exact.None? && versionOnly.None? && SemVer.SatisfiesBelow(safeVersion, V1_0_0) ==> r == oldest)
      && (exact.None? && versionOnly.None? && !SemVer.SatisfiesBelow(safeVersion, V1_0_0) ==> r.None?)
  {
    var useOldestContractVersion := SemVer.SatisfiesBelow(safeVersion, V1_0_0);
    var g := SingletonGetter(chain, safeVersion);
    Or(Find(reg, g, Filter(Some(safeVersion), Some(chain.chainId))),
       Or(Find(reg, g, Filter(Some(safeVersion), None)),
          if useOldestContractVersion then Find(reg, g, Filter(Some(OLDEST_VERSION), None)) else None))
  }

  // ---------------------------------------------------------------------
  // MultiSend and MultiSendCallOnly

  /** The chain's own record in a relay table, else the table's default. */
  function NetworkThenDefault(reg: Registry, g: Getter, chainId: string): (r: Option<Ref>)
    requires Valid(reg)
    ensures r.Some? ==> r.value < |reg.records|
    ensures
      var own := Find(reg, g, Filter(None, Some(chainId)));
      var fallback := Find(reg, g, Filter(None, None));
      && (own.Some? ==> r == own)
      && (own.None? ==> r == fallback)
      && (r.None? <==> own.None? && fallback.None?)
  {
    Or(Find(reg, g, Filter(None, Some(chainId))), Find(reg, g, Filter(None, None)))
  }

  /** `deployment?.networkAddresses[chainId]`: only the chain's own entry
      counts; the record's default address is never used. */
  function AddressOn(reg: Registry, deployment: Option<Ref>, chainId: string): (a: Option<string>)
    requires deployment.Some? ==> deployment.value < |reg.records|
    ensures a.Some? <==> deployment.Some? && chainId in reg.records[deployment.value].networkAddresses
    ensures a.Some? ==> a.value == reg.records[deployment.value].networkAddresses[chainId]
  {
    if deployment.Some? then Lookup(reg.records[deployment.value].networkAddresses, chainId) else None
  }

  /** `getMultiSendContractDeployment`. */
  function MultiSendContractDeployment(reg: Registry, chainId: string): (r: Option<Ref>)
    requires Valid(reg)
    ensures r.Some? ==> r.value < |reg.records|
    ensures
      var own := Find(reg, MultiSend, Filter(None, Some(chainId)));
      var fallback := Find(reg, MultiSend, Filter(None, None));
      && (own.Some? ==> r == own)
      && (own.None? ==> r == fallback)
      && (r.None? <==> own.None? && fallback.None?)
  {
    NetworkThenDefault(reg, MultiSend, chainId)
  }

  /** `getMultiSendContractAddress`. */
  function MultiSendContractAddress(reg: Registry, chainId: string): (a: Option<string>)
    requires Valid(reg)
    ensures var d := MultiSendContractDeployment(reg, chainId);
      && (a.Some? <==> d.Some? && chainId in reg.records[d.value].networkAddresses)
      && (a.Some? ==> a.value == reg.records[d.value].networkAddresses[chainId])
  {
    AddressOn(reg, MultiSendContractDeployment(reg, chainId), chainId)
  }

  /** `getMultiSendCallOnlyContractDeployment`. */
  function MultiSendCallOnlyContractDeployment(reg: Registry, chainId: string): (r: Option<Ref>)
    requires Valid(reg)
    ensures r.Some? ==> r.value < |reg.records|
    ensures
      var own := Find(reg, MultiSendCallOnly, Filter(None, Some(chainId)));
      var fallback := Find(reg, MultiSendCallOnly, Filter(None, None));
      && (own.Some? ==> r == own)
      && (own.None? ==> r == fallback)
      && (r.None? <==> own.None? && fallback.None?)
  {
    NetworkThenDefault(reg, MultiSendCallOnly, chainId)
  }

  /** `getMultiSendCallOnlyContractAddress`. */
  function MultiSendCallOnlyContractAddress(reg: Registry, chainId: string): (a: Option<string>)
    requires Valid(reg)
    ensures var d := MultiSendCallOnlyContractDeployment(reg, chainId);
      && (a.Some? <==> d.Some? && chainId in reg.records[d.value].networkAddresses)
      && (a.Some? ==> a.value == reg.records[d.value].networkAddresses[chainId])
  {
    AddressOn(reg, MultiSendCallOnlyContractDeployment(reg, chainId), chainId)
  }

  // ---------------------------------------------------------------------
  // Proxy factory and fallback handler: always the latest version

  /** The record of the configured latest version on this chain, else the
      record of that version. */
  function LatestOnNetwork(cfg: Config, reg: Registry, g: Getter, chainId: string): (r: Option<Ref>)
    requires Valid(reg)
    ensures r.Some? ==> r.value < |reg.records|
  {
    Or(Find(reg, g, Filter(Some(cfg.latestSafeVersion), Some(chainId))),
       Find(reg, g, Filter(Some(cfg.latestSafeVersion), None)))
  }

  /** `getProxyFactoryContractDeployment`: no 1.0.0 fallback, and no
      caller version at all. */
  function ProxyFactoryContractDeployment(cfg: Config, reg: Registry, chainId: string): (r: Option<Ref>)
    requires Valid(reg)
    ensures r.Some? ==> r.value < |reg.records|
    ensures
      var own := Find(reg, ProxyFactory, Filter(Some(cfg.latestSafeVersion), Some(chainId)));
      var versionOnly := Find(reg, ProxyFactory, Filter(Some(cfg.latestSafeVersion), None));
      && (own.Some? ==> r == own)
      && (own.None? ==> r == versionOnly)
      && (r.None? <==> own.None? && versionOnly.None?)
  {
    LatestOnNetwork(cfg, reg, ProxyFactory, chainId)
  }

  /** `getFallbackHandlerContractDeployment`. */
  function FallbackHandlerContractDeployment(cfg: Config, reg: Registry, chainId: string): (r: Option<Ref>)
    requires Valid(reg)
    ensures r.Some? ==> r.value < |reg.records|
    ensures
      var own := Find(reg, FallbackHandler, Filter(Some(cfg.latestSafeVersion), Some(chainId)));
      var versionOnly := Find(reg, FallbackHandler, Filter(Some(cfg.latestSafeVersion), None));
      && (own.Some? ==> r == own)
      && (own.None? ==> r == versionOnly)
      && (r.None? <==> own.None? && versionOnly.None?)
  {
    LatestOnNetwork(cfg, reg, FallbackHandler, chainId)
  }

  // ---------------------------------------------------------------------
  // Overrides written into found records

  /** The proxy-factory override: the 920000 entry and the default address
      become the fixed address; every other entry and the ABI stay. */
  function ProxyFactoryOverride(d: Deployment): (d': Deployment)
    ensures OVERRIDE_CHAIN_ID in d'.networkAddresses
    ensures d'.networkAddresses[OVERRIDE_CHAIN_ID] == OVERRIDE_ADDRESS
    ensures d'.defaultAddress == OVERRIDE_ADDRESS
    ensures d'.abi == d.abi
    ensures d'.networkAddresses.Keys == d.networkAddresses.Keys + {OVERRIDE_CHAIN_ID}
    ensures forall n :: n in d.networkAddresses && n != OVERRIDE_CHAIN_ID ==>
              d'.networkAddresses[n] == d.networkAddresses[n]
  {
    d.(networkAddresses := d.networkAddresses[OVERRIDE_CHAIN_ID := OVERRIDE_ADDRESS],
       defaultAddress := OVERRIDE_ADDRESS)
  }

  /** The fallback-handler override: only the 920000 entry is written; the
      default address, every other entry and the ABI stay. */
  function FallbackHandlerOverride(d: Deployment): (d': Deployment)
    ensures OVERRIDE_CHAIN_ID in d'.networkAddresses
    ensures d'.networkAddresses[OVERRIDE_CHAIN_ID] == OVERRIDE_ADDRESS
    ensures d'.defaultAddress == d.defaultAddress
    ensures d'.abi == d.abi
    ensures d'.networkAddresses.Keys == d.networkAddresses.Keys + {OVERRIDE_CHAIN_ID}
    ensures forall n :: n in d.networkAddresses && n != OVERRIDE_CHAIN_ID ==>
              d'.networkAddresses[n] == d.networkAddresses[n]
  {
    d.(networkAddresses := d.networkAddresses[OVERRIDE_CHAIN_ID := OVERRIDE_ADDRESS])
  }

  /** A call that may write into the registry's records and then either
      returns a value or throws. */
  datatype Effect<T> = Effect(registry: Registry, outcome: Result<T, Error>)

  /** What `getProxyFactoryContractInstance` hands to the SDK. */
  datatype FactoryRequest = FactoryRequest(singletonDeployment: Option<Deployment>, props: ContractProps)

  /** What `getFallbackHandlerContractInstance` builds its contract from:
      an address (possibly `undefined`) and an ABI. */
  datatype ContractHandle = ContractHandle(address: Option<string>, abi: seq<string>)

  /** `safeVersion` with its default, `LATEST_SAFE_VERSION`. */
  function VersionOrLatest(cfg: Config, safeVersion: Option<string>): (v: string)
    ensures safeVersion.Some? ==> v == safeVersion.value
    ensures safeVersion.None? ==> v == cfg.latestSafeVersion
  {
    if safeVersion.Some? then safeVersion.value else cfg.latestSafeVersion
  }

  /** `getProxyFactoryContractInstance`, up to the SDK call: the found record
      is overridden in place first, and only then is the version validated,
      so an invalid version throws after the shared record has changed. */
  function ProxyFactoryContractInstance(cfg: Config, reg: Registry, chainId: string, safeVersion: Option<string>)
    : (e: Effect<FactoryRequest>)
    requires Valid(reg)
    ensures Valid(e.registry) && e.registry.index == reg.index
    ensures |e.registry.records| == |reg.records|
    ensures var found := ProxyFactoryContractDeployment(cfg, reg, chainId);
      && (found.None? ==> e.registry == reg)
      && (found.Some? ==> e.registry.records[found.value] == ProxyFactoryOverride(reg.records[found.value]))
      && (forall s :: 0 <= s < |reg.records| && found != Some(s) ==> e.registry.records[s] == reg.records[s])
    ensures var version := VersionOrLatest(cfg, safeVersion);
      && (e.outcome.Err? <==> !cfg.isValidSafeVersion(version))
      && (e.outcome.Err? ==> e.outcome.error == InvalidSafeVersion(version))
    ensures var found := ProxyFactoryContractDeployment(cfg, reg, chainId);
      e.outcome.Ok? ==>
        e.outcome.value.singletonDeployment
          == (if found.Some? then Some(ProxyFactoryOverride(reg.records[found.value])) else None)
    ensures e.outcome.Ok? ==>
      Ok(e.outcome.value.props) == ValidatedGetContractProps(cfg, chainId, VersionOrLatest(cfg, safeVersion))
  {
    var a := ProxyFactoryContractDeployment(cfg, reg, chainId);
    var reg' := if a.Some? then Write(reg, a.value, ProxyFactoryOverride(reg.records[a.value])) else reg;
    match ValidatedGetContractProps(cfg, chainId, VersionOrLatest(cfg, safeVersion))
    case Err(err) => Effect(reg', Err(err))
    case Ok(props) => Effect(reg', Ok(FactoryRequest(Deref(reg', a), props)))
  }

  /** `getFallbackHandlerContractInstance`: throws when no record is found;
      otherwise overrides the record in place and reads the chain's entry
      of the overridden record, which may be absent. */
  function FallbackHandlerContractInstance(cfg: Config, reg: Registry, chainId: string)
    : (e: Effect<ContractHandle>)
    requires Valid(reg)
    ensures Valid(e.registry) && e.registry.index == reg.index
    ensures |e.registry.records| == |reg.records|
    ensures var found := FallbackHandlerContractDeployment(cfg, reg, chainId);
      && (e.outcome.Err? <==> found.None?)
      && (e.outcome.Err? ==> e.outcome.error == FallbackHandlerNotFound(chainId) && e.registry == reg)
      && (found.Some? ==> e.registry.records[found.value] == FallbackHandlerOverride(reg.records[found.value]))
      && (forall s :: 0 <= s < |reg.records| && found != Some(s) ==> e.registry.records[s] == reg.records[s])
    ensures var found := FallbackHandlerContractDeployment(cfg, reg, chainId);
      e.outcome.Ok? ==>
        var original := reg.records[found.value];
        && e.outcome.value.abi == original.abi
        && (chainId == OVERRIDE_CHAIN_ID ==> e.outcome.value.address == Some(OVERRIDE_ADDRESS))
        && (chainId != OVERRIDE_CHAIN_ID ==> e.outcome.value.address == Lookup(original.networkAddresses, chainId))
  {
    var found := FallbackHandlerContractDeployment(cfg, reg, chainId);
    if found.None? then Effect(reg, Err(FallbackHandlerNotFound(chainId)))
    else
      var d := FallbackHandlerOverride(reg.records[found.value]);
      Effect(Write(reg, found.value, d), Ok(ContractHandle(Lookup(d.networkAddresses, chainId), d.abi)))
  }
}
