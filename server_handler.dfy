/**
 * `RpcServerHandler`: drops heartbeat pings, and answers every other request
 * with one response carrying the request's id and either the value the
 * service bean's method returned or the `toString` of what it threw.
 */
module ServerHandler {
  import opened Wrappers
  import opened JavaLang
  import opened Messages
  import opened ServiceUtil

  /**
   * A call through the reflection library: the bean, the method name, the
   * parameter types and the arguments give the method's return value (null
   * is `None`) or the `toString` of the throwable it raised.
   */
  type Invoker = (Value, Option<string>, Option<seq<string>>, Option<seq<Option<Value>>>) -> Result<Option<Value>>

  /** A request the heartbeat filter drops: its id is `BEAT_ID` up to case. */
  predicate IsHeartbeat(request: RpcRequest)
  {
    EqualsIgnoreCase(BEAT_ID, request.requestId)
  }

  /**
   * The key `handle` looks up, `makeServiceKey(className, version)`: a null
   * class name is concatenated as the text "null", and stays a null key
   * when no version is appended.
   */
  function RequestServiceKey(request: RpcRequest): (key: Option<string>)
    ensures request.className.Some? ==> key == Some(MakeServiceKey(request.className.value, request.version))
    ensures request.className.None? ==>
              (key.Some? <==> request.version.Some? && !IsBlank(request.version.value))
  {
    if request.className.Some? then Some(MakeServiceKey(request.className.value, request.version))
    else if request.version.Some? && !IsBlank(request.version.value) then Some(MakeServiceKey("null", request.version))
    else None
  }

  /** `handlerMap.get(serviceKey)`; nothing is registered under the null key. */
  function ServiceBean(handlerMap: map<string, Value>, request: RpcRequest): (bean: Option<Value>)
    ensures bean.Some? <==> RequestServiceKey(request).Some? && RequestServiceKey(request).value in handlerMap
    ensures bean.Some? ==> bean == Some(handlerMap[RequestServiceKey(request).value])
  {
    var key := RequestServiceKey(request);
    if key.Some? && key.value in handlerMap then Some(handlerMap[key.value]) else None
  }

  /**
   * `handle(request)` as intended: without a bean the result is null;
   * otherwise the bean's method is invoked on the request's arguments.
   */
  function Handle(handlerMap: map<string, Value>, invoke: Invoker, request: RpcRequest): (r: Result<Option<Value>>)
    ensures ServiceBean(handlerMap, request).None? ==> r == Success(None)
    ensures ServiceBean(handlerMap, request).Some? ==>
              r == invoke(ServiceBean(handlerMap, request).value, request.methodName, request.parameterTypes, request.parameters)
  {
    match ServiceBean(handlerMap, request)
    case None => Success(None)
    case Some(bean) => invoke(bean, request.methodName, request.parameterTypes, request.parameters)
  }

  /** What the debug logging in `handle` reads without failing: both arrays, and every argument's `toString`. */
  predicate DebugLoggable(request: RpcRequest)
  {
    && request.parameterTypes.Some? && request.parameters.Some?
    && forall i :: 0 <= i < |request.parameters.value| ==> request.parameters.value[i].Some?
  }

  /**
   * `handle(request)` as written: once a bean is found, the unconditional
   * debug loops read `parameterTypes.length`, `parameters.length` and each
   * `parameters[i].toString()`, so a null array or a null argument throws
   * before the method is invoked.
   */
  method HandleAsWritten(handlerMap: map<string, Value>, invoke: Invoker, request: RpcRequest)
    returns (r: Result<Option<Value>>)
    ensures ServiceBean(handlerMap, request).Some? && !DebugLoggable(request) ==> r == Failure(NULL_POINTER)
    ensures ServiceBean(handlerMap, request).None? || DebugLoggable(request) ==> r == Handle(handlerMap, invoke, request)
  {
    var bean := ServiceBean(handlerMap, request);
    if bean.None? {
      return Success(None);
    }
    if request.parameterTypes.None? || request.parameters.None? {
      return Failure(NULL_POINTER);
    }
    var parameters := request.parameters.value;
    var i := 0;
    while i < |parameters|
      invariant 0 <= i <= |parameters|
      invariant forall k :: 0 <= k < i ==> parameters[k].Some?
    {
      if parameters[i].None? {
        return Failure(NULL_POINTER);
      }
      i := i + 1;
    }
    r := invoke(bean.value, request.methodName, request.parameterTypes, request.parameters);
  }

  /**
   * The response the pooled task builds for a non-heartbeat request from
   * what `handle` returned or threw: always the request's id; the error is
   * set exactly when handling threw, and then the result is null.
   */
  function Respond(request: RpcRequest, handled: Result<Option<Value>>): (r: RpcResponse)
    ensures r.requestId == Some(request.requestId)
    ensures IsError(r) <==> handled.Failure?
    ensures handled.Failure? ==> r.error == Some(handled.error) && r.result.None?
    ensures handled.Success? ==> r.result == handled.value
  {
    var response := SetRequestId(NewResponse(), Some(request.requestId));
    match handled
    case Success(result) => SetResult(response, result)
    case Failure(t) => SetError(response, Some(t))
  }

  /** The channel a server handler reads from: whether it is open, and the responses written to it. */
  class ServerChannel {
    var open: bool
    var written: seq<RpcResponse>

    constructor ()
      ensures open && written == []
    {
      open := true;
      written := [];
    }
  }

  class RpcServerHandler {
    const handlerMap: map<string, Value>
    const invoke: Invoker

    constructor (handlerMap: map<string, Value>, invoke: Invoker)
      ensures this.handlerMap == handlerMap && this.invoke == invoke
    {
      this.handlerMap := handlerMap;
      this.invoke := invoke;
    }

    /**
     * `channelRead0(ctx, request)`: a heartbeat is dropped; any other request
     * gets exactly one response, written while the channel is open. It is
     * built from `handle` as written: a null pointer error when the debug
     * loops cannot read a found bean's arguments, else the intended outcome,
     * which for an unknown service is a null result and no error.
     */
    method ChannelRead0(ch: ServerChannel, request: RpcRequest)
      modifies ch
      ensures ch.open == old(ch.open)
      ensures IsHeartbeat(request) || !ch.open ==> ch.written == old(ch.written)
      ensures !IsHeartbeat(request) && ch.open ==>
                var bean := ServiceBean(handlerMap, request);
                && (bean.Some? && !DebugLoggable(request) ==>
                      ch.written == old(ch.written) + [Respond(request, Failure(NULL_POINTER))])
                && (bean.None? || DebugLoggable(request) ==>
                      ch.written == old(ch.written) + [Respond(request, Handle(handlerMap, invoke, request))])
                && (bean.None? ==> ch.written == old(ch.written) + [RpcResponse(Some(request.requestId), None, None)])
    {
      if EqualsIgnoreCase(BEAT_ID, request.requestId) {
        return;
      }
      var response := NewResponse();
      response := SetRequestId(response, Some(request.requestId));
      var result := HandleAsWritten(handlerMap, invoke, request);
      if result.Success? {
        response := SetResult(response, result.value);
      } else {
        response := SetError(response, Some(result.error));
      }
      if ch.open {
        ch.written := ch.written + [response];
      }
    }

    /** `exceptionCaught(ctx, cause)`: the channel is closed. */
    method ExceptionCaught(ch: ServerChannel)
      modifies ch
      ensures !ch.open && ch.written == old(ch.written)
    {
      ch.open := false;
    }

    /** `userEventTriggered(ctx, evt)`: an idle event closes the channel; other events change nothing here. */
    method UserEventTriggered(ch: ServerChannel, idle: bool)
      modifies ch
      ensures ch.open == (old(ch.open) && !idle) && ch.written == old(ch.written)
    {
      if idle {
        ch.open := false;
      }
    }
  }

  // ---------------------------------------------------------------------------
  // The example service of the test application

  const HELLO_SERVICE: string := "com.app.test.service.HelloService"

  /**
   * `HelloServiceImpl.hello(String name)`, which returns `"Hello " + name`
   * (a null name reads "null"); every other call is left to `other`.
   */
  function HelloInvoker(other: Invoker): Invoker
  {
    (bean: Value, methodName: Option<string>, types: Option<seq<string>>, args: Option<seq<Option<Value>>>) =>
      if methodName == Some("hello") && types == Some(["java.lang.String"]) && args.Some? && |args.value| == 1
         && (args.value[0].None? || args.value[0].value.Str?)
      then
        Success(Some(Str("Hello " + (if args.value[0].None? then "null" else args.value[0].value.s))))
      else
        other(bean, methodName, types, args)
  }

  /**
   * The test application's call `hello("World")` on version 1.0 of the
   * service is answered with "Hello World" and no error.
   */
  lemma HelloWorld(bean: Value, other: Invoker, requestId: string)
    requires !EqualsIgnoreCase(BEAT_ID, requestId)
    ensures var handlerMap := map[MakeServiceKey(HELLO_SERVICE, Some("1.0")) := bean];
            var request := RpcRequest(requestId, Some(HELLO_SERVICE), Some("hello"), Some(["java.lang.String"]),
                                      Some([Some(Str("World"))]), Some("1.0"));
            && !IsHeartbeat(request) && DebugLoggable(request)
            && Respond(request, Handle(handlerMap, HelloInvoker(other), request))
               == RpcResponse(Some(requestId), None, Some(Str("Hello World")))
  {
    var handlerMap := map[MakeServiceKey(HELLO_SERVICE, Some("1.0")) := bean];
    var request := RpcRequest(requestId, Some(HELLO_SERVICE), Some("hello"), Some(["java.lang.String"]),
                              Some([Some(Str("World"))]), Some("1.0"));
    HelloWorldHandled(bean, other, request);
    assert DebugLoggable(request) by { assert request.parameters.value[0].Some?; }
    var response := Respond(request, Handle(handlerMap, HelloInvoker(other), request));
    assert response.requestId == Some(requestId) && response.error.None? && response.result == Some(Str("Hello World"));
  }

  /** The bean's `hello("World")` is what `handle` returns for that request. */
  lemma HelloWorldHandled(bean: Value, other: Invoker, request: RpcRequest)
    requires request.className == Some(HELLO_SERVICE) && request.version == Some("1.0")
    requires request.methodName == Some("hello") && request.parameterTypes == Some(["java.lang.String"])
    requires request.parameters == Some([Some(Str("World"))])
    ensures Handle(map[MakeServiceKey(HELLO_SERVICE, Some("1.0")) := bean], HelloInvoker(other), request)
              == Success(Some(Str("Hello World")))
  {
    var handlerMap := map[MakeServiceKey(HELLO_SERVICE, Some("1.0")) := bean];
    var invoke := HelloInvoker(other);
    assert ServiceBean(handlerMap, request) == Some(bean);
    assert "Hello " + "World" == "Hello World";
    var answer := invoke(bean, Some("hello"), Some(["java.lang.String"]), Some([Some(Str("World"))]));
    assert answer == Success(Some(Str("Hello World")));
  }

  /**
   * The ids the heartbeat filter drops are exactly the spellings of
   * `BEAT_ID` with any of its letters in lower case.
   */
  lemma HeartbeatIds(request: RpcRequest)
    ensures IsHeartbeat(request) <==>
              && |request.requestId| == |BEAT_ID|
              && forall i :: 0 <= i < |BEAT_ID| ==>
                   request.requestId[i] == BEAT_ID[i] || request.requestId[i] == ToLowerAscii(BEAT_ID[i])
  {
    var id := request.requestId;
    if |id| == |BEAT_ID| {
      forall i | 0 <= i < |BEAT_ID|
        ensures ToUpperAscii(BEAT_ID[i]) == ToUpperAscii(id[i]) <==> id[i] == BEAT_ID[i] || id[i] == ToLowerAscii(BEAT_ID[i])
      {
        assert ToUpperAscii(BEAT_ID[i]) == BEAT_ID[i];
        ToUpperAsciiInverse(id[i], BEAT_ID[i]);
      }
    }
  }
}
