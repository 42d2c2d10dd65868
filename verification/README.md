# Safe deployment resolver, modelled in Dafny

This project models the deployment resolver of a Safe (multisig wallet) web client,
`src/services/contracts/safeContracts.ts`. Given a chain and a Safe version, the resolver picks
the published deployment record to use for each contract family. A record holds per-network
addresses, a default address and an ABI. The families are the Safe singleton (standard or L2
variant), MultiSend, MultiSendCallOnly, ProxyFactory and the compatibility FallbackHandler.
The resolver also writes two fixed-address overrides for network 920000 into the records it finds.

Modules:

- `Wrappers` (`wrappers.dfy`): `Option` and `Result`. `Or` models JavaScript's `a || b` on `object | undefined`.
- `Strings` (`strings.dfy`): `SplitFirst` and `BeforeFirst`, which model `s.split(c)[0]`.
- `Decimal` (`decimal.dfy`): digit strings, `Render`/`Value` as a proved bijection, and JavaScript's `+s` (`ToNumber`).
- `SemVer` (`semver.dfy`): versions as `(major, minor, patch)` triples with lexicographic precedence.
  A parser reads `MAJOR.MINOR.PATCH[+build]`; build metadata is ignored (item 10 of Semantic Versioning 2.0.0).
  It also defines the two range tests the resolver uses, `<1.0.0` and `>=1.3.0`.
- `Deployments` (`deployments.dfy`): the registry. The library's getters hand out their own shared objects.
  So the registry is a store of records (`records`) plus an abstract `index` from (getter, filter) to
  a reference into the store. `Find` is one getter call. `FirstHit` is the reference semantics of a
  fallback chain. `Write` is an assignment through a reference.
- `SafeContracts` (`safe_contracts.dfy`): the resolver operations and the two overrides.
- `ResolverProperties` (`properties.dfy`): lemmas that relate calls, inputs and reference definitions.

The code's environment is passed in as parameters:

- the SDK's `isValidSafeVersion` is the function `Config.isValidSafeVersion`;
- `LATEST_SAFE_VERSION` is `Config.latestSafeVersion`;
- the registry's contents are an arbitrary `Registry`.

The model follows the code as written, including where it departs from a pure, non-mutating resolver:

- `_getSafeContractDeployment` does not validate the version. A string that is not a version reads the
  standard table and never arms the 1.0.0 fallback. Validation happens only in
  `_getValidatedGetContractProps`.
- Missing data is `undefined` (`None`), not a typed not-found reason. The only exception is the fallback handler's error.
- The proxy factory always resolves against the latest version. The caller's version is used only for validation.
- The resolver's own code for the fallback handler (lines 172-180) throws only when no record is found.
  A record that lacks the chain's entry gets past that check, and the address read is `undefined`
  (`ResolverProperties.FallbackHandlerAddressCanBeMissing`). What `new Contract` does with that address is left out.
- The relay address is `networkAddresses[chainId]` of the record. The default address is never used.
- The overrides are written into the shared records and not passed as a parameter. The model makes the
  write explicit and proves what it changes, including that aliasing filters observe it.

## Model

| member | source | states |
|---|---|---|
| SafeContracts.ValidatedGetContractProps | src/services/contracts/safeContracts.ts:19-35 | an error exactly when the SDK rejects the version, and then `InvalidSafeVersion` of that version; otherwise the version is the longest `+`-free prefix and the chain id is `+chainId` |
| ResolverProperties.StrippingIsIdempotent | src/services/contracts/safeContracts.ts:27-34 | validating the already-stripped version gives the same props: stripping twice equals stripping once |
| ResolverProperties.StrippedVersionIsCanonical | src/services/contracts/safeContracts.ts:27-33 | for a well-formed version, the stripped version is the canonical MAJOR.MINOR.PATCH rendering of the same triple |
| ResolverProperties.ChainIdReadsBack | src/services/contracts/safeContracts.ts:31-32 | a decimal chain id up to 2^53 - 1 is read back as the number it renders |
| Decimal.ToNumber | src/services/contracts/safeContracts.ts:32 | `+chainId` is a number exactly when the chain id is a digit string, and then its decimal value |
| Strings.SplitFirst | src/services/contracts/safeContracts.ts:29 | the head holds no separator, and the input is either separator-free or head + separator + tail |
| Strings.BeforeFirst | src/services/contracts/safeContracts.ts:29 | `split('+')[0]` is the longest prefix free of `+`: the next character, if any, is `+` |
| Strings.SplitFirstOfJoin | src/services/contracts/safeContracts.ts:29 | cutting x + c + y at c, where x lacks c, gives back x and y |
| Strings.BeforeFirstIdempotent | src/services/contracts/safeContracts.ts:29 | removing metadata from a metadata-free version changes nothing |
| Decimal.ValueOfRender | src/services/contracts/safeContracts.ts:32 | reading a rendered number gives the number back |
| Decimal.RenderOfValue | src/services/contracts/safeContracts.ts:32 | rendering the value of a canonical digit string gives the string back |
| Decimal.ToNumberIgnoresLeadingZero | src/services/contracts/safeContracts.ts:32 | `+chainId` ignores leading zeros |
| SemVer.ParseOfRender | src/services/contracts/safeContracts.ts:50-53 | a rendered version parses back to its triple |
| SemVer.ParseIgnoresBuild | src/services/contracts/safeContracts.ts:50-53 | any well-formed build metadata after `+` leaves the parsed triple unchanged |
| SemVer.Parse | src/services/contracts/safeContracts.ts:50-53 | a string that parses is its triple's canonical rendering, followed by nothing or by `+` and well-formed build metadata |
| SemVer.SatisfiesBelow | src/services/contracts/safeContracts.ts:50 | `semverSatisfies(v, '<1.0.0')`: false for a non-version, otherwise precedence below the bound |
| SemVer.SatisfiesAtLeast | src/services/contracts/safeContracts.ts:53 | `semverSatisfies(v, '>=1.3.0')`: false for a non-version, otherwise precedence not below the bound |
| SemVer.ParseOfStripped | src/services/contracts/safeContracts.ts:29 | stripping metadata does not change the version a string denotes |
| SemVer.RangesOnTriples | src/services/contracts/safeContracts.ts:50-53 | on a rendered version, `<b` is precedence below `b` and `>=b` is its negation |
| SemVer.RangesIgnoreBuild | src/services/contracts/safeContracts.ts:50-53 | with valid build metadata appended, `<b` and `>=b` still mean below `b` and not below `b` |
| SemVer.RangesPartition | src/services/contracts/safeContracts.ts:50-53 | exactly one of `<b` and `>=b` holds for a version string, and neither holds for a non-version |
| SemVer.BelowIsStrictTotalOrder | src/services/contracts/safeContracts.ts:50-53 | version precedence is irreflexive, asymmetric, transitive and total |
| Deployments.Find | src/services/contracts/safeContracts.ts:56-59 | one getter call: the registry's reference for that getter and filter, and `undefined` exactly when it has none |
| Deployments.FirstHit | src/services/contracts/safeContracts.ts:55-68 | the result is absent iff every filter misses, and otherwise it is the record of the first filter that hits |
| Deployments.Write | src/services/contracts/safeContracts.ts:142-143 | an assignment through a reference changes that record only and leaves the index alone |
| SafeContracts.SafeContractDeployment | src/services/contracts/safeContracts.ts:48-70 | an exact (version, network) record wins; the version-only record is used only without an exact one; the 1.0.0 record only below 1.0.0 after both miss; otherwise `undefined` |
| SafeContracts.SingletonGetter | src/services/contracts/safeContracts.ts:53-54 | one of the two singleton tables, the L2 one exactly when the chain is L2 and the version satisfies `>=1.3.0` |
| ResolverProperties.SingletonTableChoice | src/services/contracts/safeContracts.ts:52-54 | the L2 table is read iff the chain is L2 and the version is at least 1.3.0; versions below 1.3.0 read the standard table on any chain |
| ResolverProperties.SingletonRulesIgnoreBuild | src/services/contracts/safeContracts.ts:50-54 | `1.3.0+L2` picks the same table and legacy mode as `1.3.0` |
| ResolverProperties.SafeContractDeploymentIsFirstHit | src/services/contracts/safeContracts.ts:55-69 | the singleton chain equals first-hit over [exact, version-only, 1.0.0 below 1.0.0] |
| ResolverProperties.L2TableWins | src/services/contracts/safeContracts.ts:53-62 | on an L2 chain from 1.3.0 on, the result comes from the L2 table, never from the 1.0.0 fallback |
| ResolverProperties.SafeContractDeploymentReadsOneTable | src/services/contracts/safeContracts.ts:54-68 | registries that agree on the chosen table give the same result |
| ResolverProperties.SafeContractDeploymentFromFilters | src/services/contracts/safeContracts.ts:55-69 | any record found is the record of one of the listed filters |
| SafeContracts.MultiSendContractDeployment | src/services/contracts/safeContracts.ts:84-86 | the network-specific record wins, else the unversioned default; absent only when both are |
| SafeContracts.MultiSendContractAddress | src/services/contracts/safeContracts.ts:88-92 | the address is the found record's entry for the chain, and absent when there is no record or no entry |
| SafeContracts.MultiSendCallOnlyContractDeployment | src/services/contracts/safeContracts.ts:105-107 | the network-specific record wins, else the unversioned default; absent only when both are |
| SafeContracts.MultiSendCallOnlyContractAddress | src/services/contracts/safeContracts.ts:109-113 | the address is the found record's entry for the chain, and absent when there is no record or no entry |
| ResolverProperties.RelayDeploymentIsFirstHit | src/services/contracts/safeContracts.ts:84-107 | both relay lookups equal first-hit over [this network, default] |
| ResolverProperties.RelayAddressMissingOnlyViaDefault | src/services/contracts/safeContracts.ts:88-113 | if network filters yield only listing records, a missing address means no network-specific record was found |
| ResolverProperties.RelayAddressCanBeMissing | src/services/contracts/safeContracts.ts:88-92 | a record can be found while the address is still undefined |
| SafeContracts.ProxyFactoryContractDeployment | src/services/contracts/safeContracts.ts:126-136 | the latest version's record for this network wins, else the latest version-only record |
| ResolverProperties.ProxyFactoryHasNoOldestFallback | src/services/contracts/safeContracts.ts:126-136 | registries that differ only in their 1.0.0 entries give the same proxy factory record for every chain |
| ResolverProperties.LatestIsFirstHit | src/services/contracts/safeContracts.ts:126-168 | the proxy factory and fallback handler lookups equal first-hit over [latest on this network, latest version-wide] |
| SafeContracts.ProxyFactoryOverride | src/services/contracts/safeContracts.ts:141-144 | sets the 920000 entry and the default address to the fixed address; every other entry and the ABI stay |
| ResolverProperties.ProxyFactoryOverrideIdempotent | src/services/contracts/safeContracts.ts:141-144 | applying the override twice equals applying it once |
| ResolverProperties.ProxyFactoryOverrideFixpoint | src/services/contracts/safeContracts.ts:141-144 | the override changes nothing iff the record already holds the fixed address in both places |
| SafeContracts.VersionOrLatest | src/services/contracts/safeContracts.ts:138 | the caller's version when given, `LATEST_SAFE_VERSION` otherwise |
| SafeContracts.ProxyFactoryContractInstance | src/services/contracts/safeContracts.ts:138-150 | overrides the found shared record, leaves every other record and the index alone, then throws `InvalidSafeVersion` iff validation fails; otherwise hands the SDK the overridden record and the validated props |
| ResolverProperties.ProxyFactoryIgnoresSafeVersion | src/services/contracts/safeContracts.ts:138-150 | the caller's version changes neither the record resolved nor the registry written |
| ResolverProperties.ProxyFactoryInstanceIdempotent | src/services/contracts/safeContracts.ts:138-150 | a second call leaves the registry and the request as the first call left them |
| ResolverProperties.ProxyFactoryOverrideIsShared | src/services/contracts/safeContracts.ts:140-144 | every filter that yields the overridden record afterwards sees the fixed default address |
| ResolverProperties.ProxyFactoryOverrideEntryVisible | src/services/contracts/safeContracts.ts:140-144 | if the network filter for 920000 finds the overridden record afterwards, the calling chain and every chain but 920000 resolve as before, 920000 resolves to that record, and network filters stay honest |
| ResolverProperties.ProxyFactoryOverrideBeforeValidation | src/services/contracts/safeContracts.ts:140-145 | an invalid version throws after the found record was already overwritten |
| SafeContracts.FallbackHandlerContractDeployment | src/services/contracts/safeContracts.ts:158-168 | the latest version's record for this network wins, else the latest version-only record |
| SafeContracts.FallbackHandlerOverride | src/services/contracts/safeContracts.ts:177-179 | sets only the 920000 entry; the default address, other entries and the ABI stay |
| ResolverProperties.FallbackHandlerOverrideIdempotent | src/services/contracts/safeContracts.ts:177-179 | applying the override twice equals applying it once |
| SafeContracts.FallbackHandlerContractInstance | src/services/contracts/safeContracts.ts:171-183 | throws `FallbackHandlerNotFound` iff no record is found, leaving the store alone; otherwise writes the override and returns the original ABI and the chain's entry, which is the fixed address on 920000 |
| ResolverProperties.FallbackHandlerOverrideEntryVisible | src/services/contracts/safeContracts.ts:172-179 | the same for the fallback handler's 920000 entry |
| ResolverProperties.OverrideEntryKeepsListing | src/services/contracts/safeContracts.ts:142 | a write that keeps a record's networks and adds 920000, indexed under the 920000 filter, keeps every network filter yielding only listing records |
| ResolverProperties.FallbackHandlerErrorIffNoRecord | src/services/contracts/safeContracts.ts:172-176 | the hard error occurs exactly when both latest-version lookups miss |
| ResolverProperties.FallbackHandlerInstanceIdempotent | src/services/contracts/safeContracts.ts:171-180 | a second call leaves the registry and the handle as the first call left them |
| ResolverProperties.FallbackHandlerAddressWhenListed | src/services/contracts/safeContracts.ts:180 | if network filters yield only listing records, a network-specific hit gives a defined address |
| ResolverProperties.FallbackHandlerAddressCanBeMissing | src/services/contracts/safeContracts.ts:174-180 | a version-wide record that does not list the chain gets past the not-found check, and the address read is undefined |

## Left out

- `src/hooks/loadables/useLoadTxQueue.ts`: a React hook around a gateway HTTP call, with no resolution logic.
- Contract-handle construction is out of scope. This covers `createEthersAdapter`, the SDK's `getSafeContract`,
  `getMultiSendContract`, `getMultiSendCallOnlyContract` and `getSafeProxyFactoryContract`, and ethers' `new Contract`.
  So `getSpecificGnosisSafeContractInstance`, `getGnosisSafeContractInstance`, `getMultiSendContractInstance` and
  `getMultiSendCallOnlyContractInstance` are not modelled. Only `getGnosisSafeContractInstance` passes a constant
  `customContractAddress`, and it equals `OVERRIDE_ADDRESS`. `getSpecificGnosisSafeContractInstance` passes the Safe's
  own address, and the two MultiSend functions pass none.
- SafeContracts.ProxyFactoryContractInstance: returns the request handed to the SDK. The SDK call, and the try/catch
  that turns its errors into `undefined`, are not modelled.
- SafeContracts.FallbackHandlerContractInstance: returns the address and ABI. What `new Contract` does with an
  `undefined` address is not modelled; ethers may reject it.
- `console.log` calls: logging only.
- `isValidSafeVersion` and `LATEST_SAFE_VERSION` are defined outside this file. They are parameters (`Config`).
- The registry's contents and its own filter semantics (how it matches versions, the `released` flag) are not
  modelled. `Registry.index` is arbitrary, and no real addresses are encoded.
- SemVer.Parse: `semverSatisfies` is library code. The model accepts exactly `MAJOR.MINOR.PATCH` with
  numeric identifiers and optional `+build` metadata. Things the model does not accept:
  - a leading `v`, or surrounding whitespace, which the library accepts;
  - pre-release tags. This matches the library for the two ranges used here, because a pre-release version never satisfies `<1.0.0` or `>=1.3.0` there.
  - length and safe-integer limits, which are not modelled.
- Decimal.ToNumber: JavaScript's `+s` also trims whitespace, reads signs, `0x`/`0o`/`0b` prefixes, fractions,
  exponents and `Infinity`. The model reads those strings as `NaN`. JavaScript also rounds digit strings above 2^53 to
  the nearest double, while the model reads every digit string exactly.
- ResolverProperties.ChainIdReadsBack: holds only up to 2^53 - 1, because of that rounding.
- Deployments.Write: the index stays unchanged, although the library's network filter checks `networkAddresses[network]`.
  So after an override has added the 920000 entry, a later `{ version, network: '920000' }` lookup could find the
  overridden record. `ResolverProperties.ProxyFactoryOverrideEntryVisible` and
  `ResolverProperties.FallbackHandlerOverrideEntryVisible` prove what adding that entry changes.
- Error message texts are not modelled. The errors carry the version or chain id they mention.
