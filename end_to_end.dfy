/**
 * How the parts meet: the key a server registers a bean under, the key it
 * publishes, the key the client files the endpoint under and the key the
 * proxy routes and the server dispatches by are one and the same.
 */
module EndToEnd {
  import opened Wrappers
  import opened JavaLang
  import opened ServiceUtil
  import opened Protocol
  import opened Messages
  import opened LoadBalance
  import opened Registration
  import opened ServerHandler
  import opened Proxy

  /**
   * The info published for a registered key is filed by the client under
   * that very key, for a name and a version that hold no `#`.
   */
  lemma PublishedKeyRoundTrip(name: string, version: Option<string>)
    requires SERVICE_CONCAT_TOKEN !in name
    requires version.Some? ==> SERVICE_CONCAT_TOKEN !in version.value
    ensures var info := ParseServiceKey(MakeServiceKey(name, version));
            info.Some? && ServiceKey(info.value) == MakeServiceKey(name, version)
  {
    if version.Some? && !IsBlank(version.value) {
      ParseRoundTrip(name, version.value);
    } else {
      ParseWithoutSeparator(name);
      assert ServiceKey(RpcServiceInfo(name, "")) == name;
    }
  }

  /**
   * Once the endpoint a server publishes is connected, the client lists it
   * under the key of every service the server added.
   */
  lemma PublishedEndpointListed(host: string, port: int, serviceMap: map<string, Value>, keyOrder: seq<string>,
                                order: seq<RpcProtocol>, name: string, version: Option<string>)
    requires KeyEnumeration(keyOrder, serviceMap.Keys)
    requires MakeServiceKey(name, version) in serviceMap
    requires SERVICE_CONCAT_TOKEN !in name
    requires version.Some? ==> SERVICE_CONCAT_TOKEN !in version.value
    requires AllListed(order)
    requires forall i, j :: 0 <= i < j < |order| ==> order[i] != order[j]
    requires RpcProtocol(Some(host), port, Some(ServiceInfos(keyOrder))) in order
    ensures RpcProtocol(Some(host), port, Some(ServiceInfos(keyOrder))) in Get(ServiceMapSpec(order), MakeServiceKey(name, version))
  {
    var key := MakeServiceKey(name, version);
    var p := RpcProtocol(Some(host), port, Some(ServiceInfos(keyOrder)));
    PublishedKeyRoundTrip(name, version);
    var info := ParseServiceKey(key).value;
    assert key in keyOrder;
    ServiceInfosExactly(keyOrder, info);
    var infos := p.serviceInfoList.value;
    var i :| 0 <= i < |infos| && infos[i] == info;
    assert ServiceKey(infos[i]) == key;
    ListedIffAdvertised(order, key, p);
  }

  /** The request the proxy sends for a method of `name` is dispatched to the bean the server added under `name` and the proxy's version. */
  lemma ProxyRequestFindsBean(serviceMap: map<string, Value>, bean: Value, version: Option<string>,
                              m: JavaMethod, args: Option<seq<Option<Value>>>, requestId: string, invoke: Invoker)
    ensures var handlerMap := serviceMap[MakeServiceKey(m.declaringClass, version) := bean];
            var request := RpcRequest(requestId, Some(m.declaringClass), Some(m.name), Some(m.parameterTypes), args, version);
            && ServiceBean(handlerMap, request) == Some(bean)
            && Handle(handlerMap, invoke, request) == invoke(bean, Some(m.name), Some(m.parameterTypes), args)
  {
  }

  /** The heartbeat the client writes on an idle channel is dropped by the server. */
  lemma PingNeverAnswered()
    ensures IsHeartbeat(BEAT_PING)
  {
    HeartbeatIds(BEAT_PING);
  }

  /**
   * A proxied call of a method without parameters carries a null argument
   * array, which the server's debug loop cannot read.
   */
  lemma ZeroArgumentRequestNotLoggable(m: JavaMethod, args: Option<seq<Option<Value>>>, requestId: string, version: Option<string>)
    requires ProxyArgs(m, args) && |m.parameterTypes| == 0
    ensures !DebugLoggable(RpcRequest(requestId, Some(m.declaringClass), Some(m.name), Some(m.parameterTypes), args, version))
  {
  }

  /**
   * The call `hello(null)` on version 1.0 of the test service: as written,
   * the server's debug loop throws on the null argument; as intended, the
   * bean answers "Hello null".
   */
  method HelloNullAsWritten(bean: Value, other: Invoker, requestId: string)
    returns (asWritten: Result<Option<Value>>, intended: Result<Option<Value>>)
    ensures asWritten == Failure(NULL_POINTER)
    ensures intended == Success(Some(Str("Hello null")))
  {
    var handlerMap := map[MakeServiceKey(HELLO_SERVICE, Some("1.0")) := bean];
    var request := RpcRequest(requestId, Some(HELLO_SERVICE), Some("hello"), Some(["java.lang.String"]),
                              Some([None]), Some("1.0"));
    assert ServiceBean(handlerMap, request) == Some(bean);
    assert !DebugLoggable(request) by {
      assert request.parameters.value[0].None?;
    }
    var invoke := HelloInvoker(other);
    asWritten := HandleAsWritten(handlerMap, invoke, request);
    assert "Hello " + "null" == "Hello null";
    var answer := invoke(bean, Some("hello"), Some(["java.lang.String"]), Some([None]));
    assert answer == Success(Some(Str("Hello null")));
    intended := Handle(handlerMap, invoke, request);
    assert intended == answer;
  }
}
