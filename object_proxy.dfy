/**
 * `ObjectProxy`: the invocation handler behind a service's dynamic proxy.
 * Calls of `java.lang.Object`'s methods are answered locally; any other call
 * becomes a request that is routed to a connection and sent.
 */
module Proxy {
  import opened Wrappers
  import opened JavaLang
  import opened Protocol
  import opened Messages
  import opened ServiceUtil
  import opened LoadBalance
  import opened RoundRobin
  import opened Client

  const OBJECT_CLASS: string := "java.lang.Object"
  const PROXY_HANDLER_CLASS: string := "com.netty.rpc.client.proxy.ObjectProxy"

  /** A `java.lang.reflect.Method`: declaring class, name, declared parameter types and its `toString`. */
  datatype JavaMethod = JavaMethod(declaringClass: string, name: string, parameterTypes: seq<string>, signature: string)

  /** How a dynamic proxy passes arguments: null for a method without parameters, otherwise one per parameter. */
  predicate ProxyArgs(m: JavaMethod, args: Option<seq<Option<Value>>>)
  {
    if |m.parameterTypes| == 0 then args.None? else args.Some? && |args.value| == |m.parameterTypes|
  }

  /** `java.lang.Object.equals` takes one argument. */
  predicate ObjectMethodShape(m: JavaMethod)
  {
    m.declaringClass == OBJECT_CLASS && m.name == "equals" ==> |m.parameterTypes| == 1
  }

  /** What `invoke` makes of a call: a local answer, an exception, or a request sent with the future that awaits its response. */
  datatype Outcome = Returned(value: Value) | Thrown(error: string) | Sent(future: RpcFuture)

  /**
   * The answers to `java.lang.Object`'s methods: `equals` is identity with
   * the proxy, `hashCode` its identity hash, `toString` the proxy's class and
   * hash followed by this handler's default `toString`; any other method is
   * rejected with its own description.
   */
  function ObjectMethod(m: JavaMethod, args: Option<seq<Option<Value>>>, proxy: Value, proxyHash: int, handlerHash: int)
    : (r: Result<Value>)
    requires m.declaringClass == OBJECT_CLASS && ProxyArgs(m, args) && ObjectMethodShape(m)
    requires IsInt(proxyHash) && IsInt(handlerHash)
    ensures m.name == "equals" ==> r.Success? && (r.value == Bool(true) <==> args.value[0] == Some(proxy))
    ensures m.name == "hashCode" ==> r == Success(Int(proxyHash))
    ensures m.name == "toString" ==>
              && r.Success? && r.value.Str?
              && |r.value.s| >= |ClassName(proxy)| + 1 + |ToHexString(proxyHash)|
              && r.value.s[..|ClassName(proxy)| + 1] == ClassName(proxy) + "@"
              && HexValue(r.value.s[|ClassName(proxy)| + 1..|ClassName(proxy)| + 1 + |ToHexString(proxyHash)|])
                 == (if proxyHash < 0 then proxyHash + TWO_POW_32 else proxyHash)
              && r.value.s[|ClassName(proxy)| + 1 + |ToHexString(proxyHash)|..]
                 == ", with InvocationHandler " + PROXY_HANDLER_CLASS + "@" + ToHexString(handlerHash)
    ensures m.name !in {"equals", "hashCode", "toString"} ==>
              r == Failure("java.lang.IllegalStateException: " + m.signature)
  {
    if m.name == "equals" then
      Success(Bool(args.value[0] == Some(proxy)))
    else if m.name == "hashCode" then
      Success(Int(proxyHash))
    else if m.name == "toString" then
      Success(Str(ProxyToString(proxy, proxyHash, handlerHash)))
    else
      Failure("java.lang.IllegalStateException: " + m.signature)
  }

  /**
   * `proxy.getClass().getName() + "@" + Integer.toHexString(System.identityHashCode(proxy))
   * + ", with InvocationHandler " + this`: the class, `@`, the hash in hex,
   * and this handler's default `toString`.
   */
  function ProxyToString(proxy: Value, proxyHash: int, handlerHash: int): (s: string)
    requires IsInt(proxyHash) && IsInt(handlerHash)
    ensures |s| >= |ClassName(proxy)| + 1 + |ToHexString(proxyHash)|
    ensures s[..|ClassName(proxy)| + 1] == ClassName(proxy) + "@"
    ensures HexValue(s[|ClassName(proxy)| + 1..|ClassName(proxy)| + 1 + |ToHexString(proxyHash)|])
            == (if proxyHash < 0 then proxyHash + TWO_POW_32 else proxyHash)
    ensures s[|ClassName(proxy)| + 1 + |ToHexString(proxyHash)|..]
            == ", with InvocationHandler " + PROXY_HANDLER_CLASS + "@" + ToHexString(handlerHash)
  {
    var c := ClassName(proxy);
    var hex := ToHexString(proxyHash);
    var suffix := ", with InvocationHandler " + PROXY_HANDLER_CLASS + "@" + ToHexString(handlerHash);
    var s := c + "@" + hex + suffix;
    ToHexStringValue(proxyHash);
    assert s[..|c| + 1] == c + "@";
    assert s[|c| + 1..|c| + 1 + |hex|] == hex;
    assert s[|c| + 1 + |hex|..] == suffix;
    s
  }

  /** `ObjectProxy`: the service interface's class name and the version asked for. */
  class ObjectProxy {
    const clazz: string
    const version: Option<string>

    constructor (clazz: string, version: Option<string>)
      ensures this.clazz == clazz && this.version == version
    {
      this.clazz := clazz;
      this.version := version;
    }

    /**
     * `createRequest(className, methodName, args)`: the parameter types are
     * the runtime classes of the arguments, so a null argument array or a
     * null argument throws.
     */
    method CreateRequest(requestId: string, className: string, methodName: string, args: Option<seq<Option<Value>>>)
      returns (r: Result<RpcRequest>)
      ensures r.Success? <==> args.Some? && forall i :: 0 <= i < |args.value| ==> args.value[i].Some?
      ensures r.Failure? ==> r.error == NULL_POINTER
      ensures r.Success? ==>
                && r.value.requestId == requestId
                && r.value.className == Some(className) && r.value.methodName == Some(methodName)
                && r.value.parameters == args && r.value.version == version
                && r.value.parameterTypes.Some? && |r.value.parameterTypes.value| == |args.value|
                && forall i :: 0 <= i < |args.value| ==> r.value.parameterTypes.value[i] == ClassName(args.value[i].value)
    {
      if args.None? {
        return Failure(NULL_POINTER);
      }
      var a := args.value;
      var parameterTypes := new string[|a|](_ => "");
      var i := 0;
      while i < |a|
        invariant 0 <= i <= |a|
        invariant forall k :: 0 <= k < i ==> a[k].Some? && parameterTypes[k] == ClassName(a[k].value)
      {
        if a[i].None? {
          return Failure(NULL_POINTER);
        }
        parameterTypes[i] := ClassName(a[i].value);
        i := i + 1;
      }
      r := Success(RpcRequest(requestId, Some(className), Some(methodName), Some(parameterTypes[..]), args, version));
    }

    /**
     * `call(funcName, args)`, and `call(fn, args)` with the function's name:
     * the handler is chosen first, so without a connection nothing else
     * happens; a null argument fails only after the round robin has moved on.
     */
    method Call(funcName: string, args: Option<seq<Option<Value>>>, requestId: string,
                manager: ConnectionManager, order: seq<RpcProtocol>)
      returns (r: Result<RpcFuture>)
      requires manager.Valid()
      requires |manager.connectedServerNodes| > 0 || !manager.isRunning
      requires IsEnumeration(order, manager.connectedServerNodes.Keys)
      requires forall h :: h in manager.connectedServerNodes.Values ==> h.Valid()
      modifies manager.loadBalance, manager.connectedServerNodes.Values
      ensures manager.Valid() && AllListed(order)
      ensures forall h :: h in old(manager.connectedServerNodes.Values) ==> h.Valid() && h.rpcProtocol == old(h.rpcProtocol)
      ensures forall h :: h in old(manager.connectedServerNodes.Values) && h.written == old(h.written) ==> h.pendingRPC == old(h.pendingRPC)
      ensures var key := MakeServiceKey(clazz, version);
              var q := Routed(order, key, old(manager.loadBalance.roundRobin));
              var sendable := args.Some? && forall i :: 0 <= i < |args.value| ==> args.value[i].Some?;
              if q.None? then
                && r == Failure(NoConnection(key))
                && manager.loadBalance.roundRobin == old(manager.loadBalance.roundRobin)
                && forall h :: h in old(manager.connectedServerNodes.Values) ==> h.written == old(h.written)
              else
                q.value in old(manager.connectedServerNodes) &&
                var h := old(manager.connectedServerNodes)[q.value];
                && manager.loadBalance.roundRobin == Wrap(old(manager.loadBalance.roundRobin) + 1)
                && (!sendable ==> r == Failure(NULL_POINTER) && h.written == old(h.written))
                && (sendable ==>
                      && r.Success? && fresh(r.value)
                      && r.value.request.requestId == requestId
                      && r.value.request.className == Some(clazz) && r.value.request.methodName == Some(funcName)
                      && r.value.request.parameters == args && r.value.request.version == version
                      && h.pendingRPC == old(h.pendingRPC)[requestId := r.value]
                      && h.written == old(h.written) + [r.value.request])
                && forall h' :: h' in old(manager.connectedServerNodes.Values) && h' != h ==> h'.written == old(h'.written)
    {
      ghost var handlers := manager.connectedServerNodes.Values;
      var serviceKey := MakeServiceKey(clazz, version);
      var chosen := manager.ChooseHandler(serviceKey, order);
      if chosen.Failure? {
        return Failure(chosen.error);
      }
      ghost var p := Routed(order, serviceKey, old(manager.loadBalance.roundRobin)).value;
      assert chosen.value == manager.connectedServerNodes[p];
      assert forall h :: h in handlers ==>
               h.Valid() && h.rpcProtocol == old(h.rpcProtocol) && h.written == old(h.written) && h.pendingRPC == old(h.pendingRPC);
      r := SendCall(chosen.value, handlers, funcName, args, requestId);
    }

    /** The part of `call` after the handler is chosen: build the request, then send it on `handler`. */
    method SendCall(handler: RpcClientHandler, ghost handlers: set<RpcClientHandler>, funcName: string,
                    args: Option<seq<Option<Value>>>, requestId: string)
      returns (r: Result<RpcFuture>)
      requires handler in handlers && forall h :: h in handlers ==> h.Valid()
      modifies handler
      ensures forall h :: h in handlers ==> h.Valid() && h.rpcProtocol == old(h.rpcProtocol)
      ensures forall h :: h in handlers && h != handler ==> h.written == old(h.written) && h.pendingRPC == old(h.pendingRPC)
      ensures var sendable := args.Some? && forall i :: 0 <= i < |args.value| ==> args.value[i].Some?;
              && (!sendable ==>
                    r == Failure(NULL_POINTER) && handler.written == old(handler.written)
                    && handler.pendingRPC == old(handler.pendingRPC))
              && (sendable ==>
                    && r.Success? && fresh(r.value)
                    && r.value.request.requestId == requestId
                    && r.value.request.className == Some(clazz) && r.value.request.methodName == Some(funcName)
                    && r.value.request.parameters == args && r.value.request.version == version
                    && handler.pendingRPC == old(handler.pendingRPC)[requestId := r.value]
                    && handler.written == old(handler.written) + [r.value.request])
    {
      var request := CreateRequest(requestId, clazz, funcName, args);
      if request.Failure? {
        return Failure(request.error);
      }
      var rpcFuture := SendAmong(handler, handlers, request.value);
      r := Success(rpcFuture);
    }

    /** `handler.sendRequest(request)`, seen from the set of handlers it is one of: the others are left alone. */
    method SendAmong(handler: RpcClientHandler, ghost handlers: set<RpcClientHandler>, request: RpcRequest)
      returns (f: RpcFuture)
      requires handler in handlers && forall h :: h in handlers ==> h.Valid()
      modifies handler
      ensures forall h :: h in handlers ==> h.Valid() && h.rpcProtocol == old(h.rpcProtocol)
      ensures forall h :: h in handlers && h != handler ==> h.written == old(h.written) && h.pendingRPC == old(h.pendingRPC)
      ensures fresh(f) && f.request == request
      ensures handler.pendingRPC == old(handler.pendingRPC)[request.requestId := f]
      ensures handler.written == old(handler.written) + [request]
    {
      f := handler.SendRequest(request);
    }

    /**
     * `invoke(proxy, method, args)` up to the wait on the future: the request
     * names the method's declaring class, its name and declared parameter
     * types, and carries the arguments as given.
     */
    method Invoke(proxy: Value, proxyHash: int, handlerHash: int, m: JavaMethod, args: Option<seq<Option<Value>>>,
                  requestId: string, manager: ConnectionManager, order: seq<RpcProtocol>)
      returns (r: Outcome)
      requires ProxyArgs(m, args) && ObjectMethodShape(m) && IsInt(proxyHash) && IsInt(handlerHash)
      requires manager.Valid()
      requires m.declaringClass != OBJECT_CLASS ==> |manager.connectedServerNodes| > 0 || !manager.isRunning
      requires IsEnumeration(order, manager.connectedServerNodes.Keys)
      requires forall h :: h in manager.connectedServerNodes.Values ==> h.Valid()
      modifies manager.loadBalance, manager.connectedServerNodes.Values
      ensures manager.Valid() && AllListed(order)
      ensures forall h :: h in old(manager.connectedServerNodes.Values) ==> h.Valid() && h.rpcProtocol == old(h.rpcProtocol)
      ensures forall h :: h in old(manager.connectedServerNodes.Values) && h.written == old(h.written) ==> h.pendingRPC == old(h.pendingRPC)
      ensures m.declaringClass == OBJECT_CLASS ==>
                && (ObjectMethod(m, args, proxy, proxyHash, handlerHash).Success? ==>
                      r == Returned(ObjectMethod(m, args, proxy, proxyHash, handlerHash).value))
                && (ObjectMethod(m, args, proxy, proxyHash, handlerHash).Failure? ==>
                      r == Thrown(ObjectMethod(m, args, proxy, proxyHash, handlerHash).error))
                && manager.loadBalance.roundRobin == old(manager.loadBalance.roundRobin)
                && forall h :: h in old(manager.connectedServerNodes.Values) ==> h.written == old(h.written)
      ensures m.declaringClass != OBJECT_CLASS ==>
                var key := MakeServiceKey(m.declaringClass, version);
                var q := Routed(order, key, old(manager.loadBalance.roundRobin));
                var request := RpcRequest(requestId, Some(m.declaringClass), Some(m.name), Some(m.parameterTypes), args, version);
                if q.None? then
                  && r == Thrown(NoConnection(key))
                  && manager.loadBalance.roundRobin == old(manager.loadBalance.roundRobin)
                  && forall h :: h in old(manager.connectedServerNodes.Values) ==> h.written == old(h.written)
                else
                  q.value in old(manager.connectedServerNodes) &&
                  var h := old(manager.connectedServerNodes)[q.value];
                  && r.Sent? && fresh(r.future) && r.future.request == request
                  && h.pendingRPC == old(h.pendingRPC)[requestId := r.future]
                  && h.written == old(h.written) + [request]
                  && manager.loadBalance.roundRobin == Wrap(old(manager.loadBalance.roundRobin) + 1)
                  && forall h' :: h' in old(manager.connectedServerNodes.Values) && h' != h ==> h'.written == old(h'.written)
    {
      ConnectedAllListed(manager, order);
      if m.declaringClass == OBJECT_CLASS {
        var answer := ObjectMethod(m, args, proxy, proxyHash, handlerHash);
        if answer.Success? {
          return Returned(answer.value);
        }
        return Thrown(answer.error);
      }
      r := InvokeRemote(m, args, requestId, manager, order);
    }

    /** The remote half of `invoke`: build the request from the method, choose a handler and send it. */
    method InvokeRemote(m: JavaMethod, args: Option<seq<Option<Value>>>, requestId: string,
                        manager: ConnectionManager, order: seq<RpcProtocol>)
      returns (r: Outcome)
      requires manager.Valid()
      requires |manager.connectedServerNodes| > 0 || !manager.isRunning
      requires IsEnumeration(order, manager.connectedServerNodes.Keys)
      requires forall h :: h in manager.connectedServerNodes.Values ==> h.Valid()
      modifies manager.loadBalance, manager.connectedServerNodes.Values
      ensures manager.Valid() && AllListed(order)
      ensures forall h :: h in old(manager.connectedServerNodes.Values) ==> h.Valid() && h.rpcProtocol == old(h.rpcProtocol)
      ensures forall h :: h in old(manager.connectedServerNodes.Values) && h.written == old(h.written) ==> h.pendingRPC == old(h.pendingRPC)
      ensures var key := MakeServiceKey(m.declaringClass, version);
              var q := Routed(order, key, old(manager.loadBalance.roundRobin));
              var request := RpcRequest(requestId, Some(m.declaringClass), Some(m.name), Some(m.parameterTypes), args, version);
              if q.None? then
                && r == Thrown(NoConnection(key))
                && manager.loadBalance.roundRobin == old(manager.loadBalance.roundRobin)
                && forall h :: h in old(manager.connectedServerNodes.Values) ==> h.written == old(h.written)
              else
                q.value in old(manager.connectedServerNodes) &&
                var h := old(manager.connectedServerNodes)[q.value];
                && r.Sent? && fresh(r.future) && r.future.request == request
                && h.pendingRPC == old(h.pendingRPC)[requestId := r.future]
                && h.written == old(h.written) + [request]
                && manager.loadBalance.roundRobin == Wrap(old(manager.loadBalance.roundRobin) + 1)
                && forall h' :: h' in old(manager.connectedServerNodes.Values) && h' != h ==> h'.written == old(h'.written)
    {
      var request := RpcRequest(requestId, Some(m.declaringClass), Some(m.name), Some(m.parameterTypes), args, version);
      ghost var handlers := manager.connectedServerNodes.Values;
      var serviceKey := MakeServiceKey(m.declaringClass, version);
      var chosen := manager.ChooseHandler(serviceKey, order);
      if chosen.Failure? {
        return Thrown(chosen.error);
      }
      var handler := chosen.value;
      ghost var p := Routed(order, serviceKey, old(manager.loadBalance.roundRobin)).value;
      assert handler == manager.connectedServerNodes[p];
      assert forall h :: h in handlers ==>
               h.Valid() && h.rpcProtocol == old(h.rpcProtocol) && h.written == old(h.written) && h.pendingRPC == old(h.pendingRPC);
      var rpcFuture := SendAmong(handler, handlers, request);
      r := Sent(rpcFuture);
    }
  }
}
