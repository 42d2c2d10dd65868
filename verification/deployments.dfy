/** The deployment registry the resolver reads: published records, the
    getters that find them, and the store those records live in. */
module Deployments {
  import opened Wrappers

  /** One published deployment of a contract family at one version: an
      address per network (keyed by the chain id as a string), a default
      address, and the ABI. */
  datatype Deployment = Deployment(
    defaultAddress: string,
    networkAddresses: map<string, string>,
    abi: seq<string>)

  /** The filter handed to a getter, `{ version, network }`; either part may
      be absent, and a call with no argument passes neither. */
  datatype Filter = Filter(version: Option<string>, network: Option<string>)

  /** The registry's getters, one table each. */
  datatype Getter =
    | SafeSingleton      // getSafeSingletonDeployment
    | SafeL2Singleton    // getSafeL2SingletonDeployment
    | MultiSend          // getMultiSendDeployment
    | MultiSendCallOnly  // getMultiSendCallOnlyDeployment
    | ProxyFactory       // getProxyFactoryDeployment
    | FallbackHandler    // getFallbackHandlerDeployment

  datatype Key = Key(getter: Getter, filter: Filter)

  /** A reference to a stored record. The getters return the registry's own
      objects, so several filters may yield one and the same record, and a
      write through one reference is seen through all of them. */
  type Ref = nat

  /** The registry's contents are not modelled: `index` says, for every
      getter and filter, which stored record (if any) the getter returns. */
  datatype Registry = Registry(records: seq<Deployment>, index: map<Key, Ref>)

  /** Every reference the index hands out points at a stored record. */
  ghost predicate Valid(reg: Registry)
  {
    forall k :: k in reg.index ==> reg.index[k] < |reg.records|
  }

  /** The library's `network` filter only yields records that carry an
      address for that network. The model does not assume this; lemmas that
      need it say so. */
  ghost predicate NetworkFiltersListed(reg: Registry)
    requires Valid(reg)
  {
    forall k :: k in reg.index && k.filter.network.Some? ==>
      k.filter.network.value in reg.records[reg.index[k]].networkAddresses
  }

  /** `getter(filter)`: a reference to the record found, or `undefined`. */
  function Find(reg: Registry, g: Getter, f: Filter): (r: Option<Ref>)
    requires Valid(reg)
    ensures r.Some? <==> Key(g, f) in reg.index
    ensures r.Some? ==> r.value < |reg.records|
    ensures r.Some? ==> r.value == reg.index[Key(g, f)]
  {
    if Key(g, f) in reg.index then Some(reg.index[Key(g, f)]) else None
  }

  /** The record a reference points at, if there is a reference. */
  function Deref(reg: Registry, r: Option<Ref>): (d: Option<Deployment>)
    requires r.Some? ==> r.value < |reg.records|
    ensures d.Some? <==> r.Some?
  {
    if r.Some? then Some(reg.records[r.value]) else None
  }

  /** The first filter, in order, for which the getter finds a record:
      the reference against which every fallback chain is checked. */
  function FirstHit(reg: Registry, g: Getter, filters: seq<Filter>): (r: Option<Ref>)
    requires Valid(reg)
    ensures r.None? <==> forall i :: 0 <= i < |filters| ==> Find(reg, g, filters[i]).None?
    ensures forall i :: 0 <= i < |filters| && Find(reg, g, filters[i]).Some?
                        && (forall j :: 0 <= j < i ==> Find(reg, g, filters[j]).None?)
                        ==> r == Find(reg, g, filters[i])
    decreases |filters|
  {
    if |filters| == 0 then None
    else if Find(reg, g, filters[0]).Some? then Find(reg, g, filters[0])
    else
      assert forall i :: 1 <= i < |filters| ==> filters[1..][i - 1] == filters[i];
      FirstHit(reg, g, filters[1..])
  }

  /** An assignment through a reference (`record.field = ...`): the store
      changes at that one place. The index stays as it is, although the
      library's own network filter may see a written network entry; the
      resolver's lemmas show what such an extra index entry changes. */
  function Write(reg: Registry, r: Ref, d: Deployment): (reg': Registry)
    requires Valid(reg) && r < |reg.records|
    ensures Valid(reg')
    ensures reg'.index == reg.index
    ensures |reg'.records| == |reg.records| && reg'.records[r] == d
    ensures forall s :: 0 <= s < |reg.records| && s != r ==> reg'.records[s] == reg.records[s]
  {
    Registry(reg.records[r := d], reg.index)
  }
}
