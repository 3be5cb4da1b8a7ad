/**
 * `RpcLoadBalance.getServiceMap`: the connected endpoints grouped by the
 * service keys they advertise. The map is built by nested loops over the
 * endpoints (in the map's iteration order) and over each endpoint's service
 * list, appending the endpoint to the list under each service key.
 */
module LoadBalance {
  import opened Wrappers
  import opened ServiceUtil
  import opened Protocol

  /** The key under which a published service is routed. */
  function ServiceKey(info: RpcServiceInfo): string
  {
    MakeServiceKey(info.serviceName, Some(info.version))
  }

  /** `order` lists every element of `keys` exactly once: the iteration order of a map's key set. */
  ghost predicate IsEnumeration(order: seq<RpcProtocol>, keys: set<RpcProtocol>)
  {
    && (forall i, j :: 0 <= i < j < |order| ==> order[i] != order[j])
    && (forall p :: p in order <==> p in keys)
  }

  /** Every endpoint in `order` has a (non-null) service list. */
  predicate AllListed(order: seq<RpcProtocol>)
  {
    forall i :: 0 <= i < |order| ==> order[i].serviceInfoList.Some?
  }

  /** The list under `k`, or the empty list when there is none. */
  function Get(m: map<string, seq<RpcProtocol>>, k: string): seq<RpcProtocol>
  {
    if k in m then m[k] else []
  }

  /** `p` appended to the list under `k`, creating the list if it is missing. */
  function AddUnder(m: map<string, seq<RpcProtocol>>, k: string, p: RpcProtocol): map<string, seq<RpcProtocol>>
  {
    m[k := Get(m, k) + [p]]
  }

  /** `p` added under the key of each of `infos`, in order. */
  function AddInfos(m: map<string, seq<RpcProtocol>>, p: RpcProtocol, infos: seq<RpcServiceInfo>): map<string, seq<RpcProtocol>>
  {
    if |infos| == 0 then m
    else AddUnder(AddInfos(m, p, infos[..|infos| - 1]), ServiceKey(infos[|infos| - 1]), p)
  }

  /** The service map that the loops build from the endpoints taken in `order`. */
  function ServiceMapSpec(order: seq<RpcProtocol>): map<string, seq<RpcProtocol>>
    requires AllListed(order)
  {
    if |order| == 0 then map[]
    else
      var p := order[|order| - 1];
      AddInfos(ServiceMapSpec(order[..|order| - 1]), p, p.serviceInfoList.value)
  }

  /** The service keys of `infos`, position by position. */
  function ServiceKeys(infos: seq<RpcServiceInfo>): (keys: seq<string>)
    ensures |keys| == |infos|
    ensures forall i :: 0 <= i < |infos| ==> keys[i] == ServiceKey(infos[i])
  {
    seq(|infos|, i requires 0 <= i < |infos| => ServiceKey(infos[i]))
  }

  /** The keys of `infos` are the keys of all but its last info, then the last one's. */
  lemma ServiceKeysSnoc(infos: seq<RpcServiceInfo>)
    requires |infos| > 0
    ensures ServiceKeys(infos) == ServiceKeys(infos[..|infos| - 1]) + [ServiceKey(infos[|infos| - 1])]
  {
    var init := infos[..|infos| - 1];
    var keys := ServiceKeys(init);
    var lhs := ServiceKeys(infos);
    ServiceKeysPrefix(infos, init);
    SnocPointwise(lhs, keys, ServiceKey(infos[|infos| - 1]));
  }

  /** A sequence that agrees with `init` and then holds `last` is `init + [last]`. */
  lemma SnocPointwise(s: seq<string>, init: seq<string>, last: string)
    requires |s| == |init| + 1 && s[|init|] == last
    requires forall i :: 0 <= i < |init| ==> s[i] == init[i]
    ensures s == init + [last]
  {
  }

  /** The keys of a prefix are a prefix of the keys. */
  lemma ServiceKeysPrefix(infos: seq<RpcServiceInfo>, init: seq<RpcServiceInfo>)
    requires init <= infos
    ensures forall i :: 0 <= i < |init| ==> ServiceKeys(infos)[i] == ServiceKeys(init)[i]
  {
    forall i | 0 <= i < |init| ensures ServiceKeys(infos)[i] == ServiceKeys(init)[i] {
      assert init[i] == infos[i];
    }
  }

  /** How many of `infos` have service key `k`. */
  function KeyCount(infos: seq<RpcServiceInfo>, k: string): nat
  {
    multiset(ServiceKeys(infos))[k]
  }

  /** `getServiceMap(connectedServerNodes)`, iterating the key set in `order`; the map is only read. */
  method GetServiceMap<H>(connectedServerNodes: map<RpcProtocol, H>, order: seq<RpcProtocol>)
    returns (serviceMap: map<string, seq<RpcProtocol>>)
    requires IsEnumeration(order, connectedServerNodes.Keys) && AllListed(order)
    ensures serviceMap == ServiceMapSpec(order)
  {
    serviceMap := map[];
    if |connectedServerNodes| > 0 {
      var j := 0;
      while j < |order|
        invariant 0 <= j <= |order|
        invariant serviceMap == ServiceMapSpec(order[..j])
      {
        serviceMap := AddServiceInfos(serviceMap, order[j]);
        ServiceMapSpecStep(order, j);
        j := j + 1;
      }
      assert order[..j] == order;
    } else {
      EnumerationSize(order, connectedServerNodes.Keys);
    }
  }

  /** The inner loop of `getServiceMap`: `rpcProtocol` appended under the key of each of its service infos. */
  method AddServiceInfos(serviceMap: map<string, seq<RpcProtocol>>, rpcProtocol: RpcProtocol)
    returns (m: map<string, seq<RpcProtocol>>)
    requires rpcProtocol.serviceInfoList.Some?
    ensures m == AddInfos(serviceMap, rpcProtocol, rpcProtocol.serviceInfoList.value)
  {
    m := serviceMap;
    var infos := rpcProtocol.serviceInfoList.value;
    var i := 0;
    while i < |infos|
      invariant 0 <= i <= |infos|
      invariant m == AddInfos(serviceMap, rpcProtocol, infos[..i])
    {
      var serviceKey := MakeServiceKey(infos[i].serviceName, Some(infos[i].version));
      var rpcProtocolList := if serviceKey in m then m[serviceKey] else [];
      rpcProtocolList := rpcProtocolList + [rpcProtocol];
      AddInfosStep(serviceMap, rpcProtocol, infos, i, m, rpcProtocolList);
      m := m[serviceKey := rpcProtocolList];
      i := i + 1;
    }
    assert infos[..i] == infos;
  }

  /** One more service info: its endpoint is appended under the info's key. */
  lemma AddInfosStep(m: map<string, seq<RpcProtocol>>, p: RpcProtocol, infos: seq<RpcServiceInfo>, i: nat,
                     sofar: map<string, seq<RpcProtocol>>, list: seq<RpcProtocol>)
    requires i < |infos| && sofar == AddInfos(m, p, infos[..i])
    requires var key := MakeServiceKey(infos[i].serviceName, Some(infos[i].version));
             list == (if key in sofar then sofar[key] else []) + [p]
    ensures sofar[MakeServiceKey(infos[i].serviceName, Some(infos[i].version)) := list] == AddInfos(m, p, infos[..i + 1])
  {
    assert infos[..i + 1][..i] == infos[..i];
  }

  /** One more endpoint: its service infos are added to the map of the endpoints before it. */
  lemma ServiceMapSpecStep(order: seq<RpcProtocol>, j: nat)
    requires AllListed(order) && j < |order|
    ensures ServiceMapSpec(order[..j + 1]) == AddInfos(ServiceMapSpec(order[..j]), order[j], order[j].serviceInfoList.value)
  {
    assert order[..j + 1][..j] == order[..j];
  }

  /** An enumeration is as long as the set it enumerates. */
  lemma {:induction false} EnumerationSize(order: seq<RpcProtocol>, keys: set<RpcProtocol>)
    requires IsEnumeration(order, keys)
    ensures |order| == |keys|
  {
    if |order| > 0 {
      var init := order[..|order| - 1];
      var p := order[|order| - 1];
      forall i | 0 <= i < |init| ensures init[i] != p {
        assert init[i] == order[i];
      }
      assert order == init + [p];
      EnumerationSize(init, keys - {p});
    }
  }

  // ---------------------------------------------------------------------------
  // Properties of the service map

  /** `KeyCount` is positive exactly when some service info has the key. */
  lemma KeyCountPositive(infos: seq<RpcServiceInfo>, k: string)
    ensures KeyCount(infos, k) > 0 <==> exists i :: 0 <= i < |infos| && ServiceKey(infos[i]) == k
  {
    var keys := ServiceKeys(infos);
    assert KeyCount(infos, k) > 0 <==> k in keys;
  }

  /** Adding `p` for `infos` adds `p` once per matching info and leaves every other endpoint's count alone. */
  lemma {:induction false} AddInfosCount(m: map<string, seq<RpcProtocol>>, p: RpcProtocol, infos: seq<RpcServiceInfo>,
                                          k: string, q: RpcProtocol)
    ensures multiset(Get(AddInfos(m, p, infos), k))[q]
         == multiset(Get(m, k))[q] + (if q == p then KeyCount(infos, k) else 0)
  {
    if |infos| > 0 {
      var init := infos[..|infos| - 1];
      var key := ServiceKey(infos[|infos| - 1]);
      var before := AddInfos(m, p, init);
      AddInfosCount(m, p, init, k, q);
      ServiceKeysSnoc(infos);
      assert KeyCount(infos, k) == KeyCount(init, k) + (if key == k then 1 else 0);
      assert Get(AddInfos(m, p, infos), k) == if key == k then Get(before, k) + [p] else Get(before, k);
    }
  }

  /** Every list the loops create holds at least one endpoint. */
  lemma {:induction false} AddInfosNonEmpty(m: map<string, seq<RpcProtocol>>, p: RpcProtocol, infos: seq<RpcServiceInfo>)
    requires forall k :: k in m ==> |m[k]| > 0
    ensures forall k :: k in AddInfos(m, p, infos) ==> |AddInfos(m, p, infos)[k]| > 0
  {
    if |infos| > 0 {
      AddInfosNonEmpty(m, p, infos[..|infos| - 1]);
    }
  }

  /**
   * Under each key, an endpoint is listed once per service info of its own
   * with that key: a duplicated service info gives a duplicated entry, and an
   * endpoint that does not advertise the key is not listed.
   */
  lemma {:induction false} ServiceMapCount(order: seq<RpcProtocol>, k: string, q: RpcProtocol)
    requires AllListed(order)
    requires forall i, j :: 0 <= i < j < |order| ==> order[i] != order[j]
    ensures multiset(Get(ServiceMapSpec(order), k))[q]
         == (if q in order then KeyCount(q.serviceInfoList.value, k) else 0)
    ensures forall k' :: k' in ServiceMapSpec(order) ==> |ServiceMapSpec(order)[k']| > 0
  {
    ServiceMapNonEmpty(order);
    if |order| > 0 {
      var init := order[..|order| - 1];
      var p := order[|order| - 1];
      DistinctInit(order, init, q);
      var m0 := ServiceMapSpec(init);
      ServiceMapCount(init, k, q);
      AddInfosCount(m0, p, p.serviceInfoList.value, k, q);
    }
  }

  /** Dropping the last endpoint of a distinct enumeration leaves a distinct enumeration without it. */
  lemma DistinctInit(order: seq<RpcProtocol>, init: seq<RpcProtocol>, q: RpcProtocol)
    requires |order| > 0 && AllListed(order) && init == order[..|order| - 1]
    requires forall i, j :: 0 <= i < j < |order| ==> order[i] != order[j]
    ensures AllListed(init)
    ensures forall i, j :: 0 <= i < j < |init| ==> init[i] != init[j]
    ensures order[|order| - 1] !in init
    ensures q in order <==> q in init || q == order[|order| - 1]
  {
    assert forall i :: 0 <= i < |init| ==> init[i] == order[i];
    assert order == init + [order[|order| - 1]];
  }

  /** Every list of the service map holds at least one endpoint. */
  lemma {:induction false} ServiceMapNonEmpty(order: seq<RpcProtocol>)
    requires AllListed(order)
    ensures forall k :: k in ServiceMapSpec(order) ==> |ServiceMapSpec(order)[k]| > 0
  {
    if |order| > 0 {
      var init := order[..|order| - 1];
      var p := order[|order| - 1];
      assert AllListed(init) by { assert forall i :: 0 <= i < |init| ==> init[i] == order[i]; }
      ServiceMapNonEmpty(init);
      AddInfosNonEmpty(ServiceMapSpec(init), p, p.serviceInfoList.value);
    }
  }

  /**
   * Every endpoint listed under `k` is one of the connected endpoints and
   * advertises a service whose key is `k`; conversely every connected
   * endpoint appears under the key of each service it advertises.
   */
  lemma ListedIffAdvertised(order: seq<RpcProtocol>, k: string, q: RpcProtocol)
    requires AllListed(order)
    requires forall i, j :: 0 <= i < j < |order| ==> order[i] != order[j]
    ensures q in Get(ServiceMapSpec(order), k) <==>
              q in order && exists i :: 0 <= i < |q.serviceInfoList.value| && ServiceKey(q.serviceInfoList.value[i]) == k
  {
    ServiceMapCount(order, k, q);
    if q in order {
      KeyCountPositive(q.serviceInfoList.value, k);
    }
  }

  /** The keys of the service map are exactly the keys of the services the endpoints advertise. */
  lemma ServiceMapKeys(order: seq<RpcProtocol>, k: string)
    requires AllListed(order)
    requires forall i, j :: 0 <= i < j < |order| ==> order[i] != order[j]
    ensures k in ServiceMapSpec(order) <==>
              exists q :: q in order && exists i :: 0 <= i < |q.serviceInfoList.value| && ServiceKey(q.serviceInfoList.value[i]) == k
  {
    var m := ServiceMapSpec(order);
    if |order| > 0 {
      ServiceMapCount(order, k, order[0]);
    }
    if k in m {
      var q := m[k][0];
      ListedIffAdvertised(order, k, q);
    }
    if exists q :: q in order && exists i :: 0 <= i < |q.serviceInfoList.value| && ServiceKey(q.serviceInfoList.value[i]) == k {
      var q :| q in order && exists i :: 0 <= i < |q.serviceInfoList.value| && ServiceKey(q.serviceInfoList.value[i]) == k;
      ListedIffAdvertised(order, k, q);
    }
  }
}
