/**
 * A server endpoint as published in the registry and tracked by clients:
 * host, port and the services it offers, with the value equality that
 * `RpcProtocol.equals` defines (service lists compared as unordered
 * collections).
 */
module Protocol {
  import opened Wrappers
  import opened JavaLang

  /** One offered service: interface name and version (never null as published). */
  datatype RpcServiceInfo = RpcServiceInfo(serviceName: string, version: string)

  /** An endpoint; `host` and `serviceInfoList` are Java references and may be null. */
  datatype RpcProtocol = RpcProtocol(
    host: Option<string>,
    port: int,
    serviceInfoList: Option<seq<RpcServiceInfo>>)

  /** What `new InetSocketAddress(host, port)` accepts: a non-null host and a port in 0..65535. */
  predicate SocketAddressValid(host: Option<string>, port: int)
  {
    host.Some? && 0 <= port <= 0xFFFF
  }

  /** The `toString` of what `new InetSocketAddress(host, port)` throws; the host is checked first. */
  function SocketAddressError(host: Option<string>, port: int): string
  {
    if host.None? then "java.lang.IllegalArgumentException: hostname can't be null"
    else "java.lang.IllegalArgumentException: port out of range:" + IntToString(port)
  }

  /** The argument of `equals(Object o)`: null, an `RpcProtocol`, or an object of another class. */
  datatype Other = Null | AProtocol(p: RpcProtocol) | OtherClass

  /** `xs.containsAll(ys)` */
  predicate ContainsAll(xs: seq<RpcServiceInfo>, ys: seq<RpcServiceInfo>)
  {
    forall y :: y in ys ==> y in xs
  }

  /**
   * `isListEquals`: two null lists are equal; a null and a non-null list are
   * not; non-null lists are equal when they have the same size and the same
   * distinct elements, whatever the order and the multiplicities.
   */
  function IsListEquals(thisList: Option<seq<RpcServiceInfo>>, thatList: Option<seq<RpcServiceInfo>>): (eq: bool)
    ensures thisList.None? && thatList.None? ==> eq
    ensures thisList.None? != thatList.None? ==> !eq
    ensures thisList.Some? && thatList.Some? ==>
              (eq <==> |thisList.value| == |thatList.value|
                       && (set x | x in thisList.value) == (set x | x in thatList.value))
  {
    if thisList.None? && thatList.None? then true
    else if thisList.None? || thatList.None? || |thisList.value| != |thatList.value| then false
    else
      MutualContainment(thisList.value, thatList.value);
      ContainsAll(thisList.value, thatList.value) && ContainsAll(thatList.value, thisList.value)
  }

  /** Containment both ways is equality of the element sets. */
  lemma MutualContainment(a: seq<RpcServiceInfo>, b: seq<RpcServiceInfo>)
    ensures ContainsAll(a, b) && ContainsAll(b, a) <==> (set x | x in a) == (set x | x in b)
  {
    var sa := set x | x in a;
    var sb := set x | x in b;
    if sa == sb {
      forall y | y in b ensures y in a { assert y in sb; assert y in sa; }
      forall y | y in a ensures y in b { assert y in sa; assert y in sb; }
    }
  }

  /** `RpcProtocol.equals` */
  predicate Equals(self: RpcProtocol, o: Other): (eq: bool)
    ensures eq ==> o.AProtocol? && o.p.host == self.host && o.p.port == self.port
    ensures eq ==> (o.p.serviceInfoList.None? <==> self.serviceInfoList.None?)
    ensures o == AProtocol(self) ==> eq
  {
    && o.AProtocol?
    && self.port == o.p.port
    && self.host == o.p.host
    && IsListEquals(self.serviceInfoList, o.p.serviceInfoList)
  }

  /** Null and objects of other classes are never equal to an endpoint. */
  lemma NeverEqualsNullOrOtherClass(p: RpcProtocol)
    ensures !Equals(p, Null) && !Equals(p, OtherClass)
  {
  }

  /** `equals` is an equivalence relation on endpoints. */
  lemma EqualsIsEquivalence(p: RpcProtocol, q: RpcProtocol, r: RpcProtocol)
    ensures Equals(p, AProtocol(p))
    ensures Equals(p, AProtocol(q)) <==> Equals(q, AProtocol(p))
    ensures Equals(p, AProtocol(q)) && Equals(q, AProtocol(r)) ==> Equals(p, AProtocol(r))
  {
  }

  /** Endpoints whose service lists are permutations of each other are equal. */
  lemma OrderIrrelevant(host: Option<string>, port: int, a: seq<RpcServiceInfo>, b: seq<RpcServiceInfo>)
    requires multiset(a) == multiset(b)
    ensures Equals(RpcProtocol(host, port, Some(a)), AProtocol(RpcProtocol(host, port, Some(b))))
  {
    assert |a| == |multiset(a)| == |multiset(b)| == |b|;
    forall x | x in a ensures x in b { assert x in multiset(a); }
    forall x | x in b ensures x in a { assert x in multiset(b); }
  }

  /**
   * Multiplicities are not compared: `[a, a, b]` and `[a, b, b]` are equal
   * lists although neither is a permutation of the other.
   */
  lemma MultiplicityIgnored(s1: RpcServiceInfo, s2: RpcServiceInfo)
    requires s1 != s2
    ensures IsListEquals(Some([s1, s1, s2]), Some([s1, s2, s2]))
    ensures multiset([s1, s1, s2]) != multiset([s1, s2, s2])
  {
    assert (set x | x in [s1, s1, s2]) == {s1, s2} == (set x | x in [s1, s2, s2]);
    assert multiset([s1, s1, s2])[s1] == 2;
  }

  /** Lists of different sizes are never equal. */
  lemma DifferentSizesNeverEqual(a: seq<RpcServiceInfo>, b: seq<RpcServiceInfo>)
    requires |a| != |b|
    ensures !IsListEquals(Some(a), Some(b))
  {
  }
}
