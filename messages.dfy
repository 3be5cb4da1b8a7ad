/**
 * The two messages that travel on an RPC connection, and the heartbeat
 * constants. A request names the service (class and version), the method,
 * the argument classes and the arguments; a response carries the request id
 * back with either a result or an error text.
 */
module Messages {
  import opened Wrappers
  import opened JavaLang

  /**
   * `RpcRequest`. Every request the runtime builds has an id; the other
   * fields are Java references and are null in the heartbeat ping.
   */
  datatype RpcRequest = RpcRequest(
    requestId: string,
    className: Option<string>,
    methodName: Option<string>,
    parameterTypes: Option<seq<string>>,      // class names of the arguments
    parameters: Option<seq<Option<Value>>>,   // the arguments; an element may be null
    version: Option<string>)

  /** `RpcResponse`: all three fields start out null. */
  datatype RpcResponse = RpcResponse(
    requestId: Option<string>,
    error: Option<string>,
    result: Option<Value>)

  // ---------------------------------------------------------------------------
  // Beat

  const BEAT_INTERVAL: int := 30
  const BEAT_TIMEOUT: int := 3 * BEAT_INTERVAL
  const BEAT_ID: string := "BEAT_PING_PONG"

  /** The heartbeat request: only its id is set. */
  const BEAT_PING: RpcRequest := RpcRequest(BEAT_ID, None, None, None, None, None)

  // ---------------------------------------------------------------------------
  // RpcResponse

  /** `isError()` */
  predicate IsError(r: RpcResponse)
  {
    r.error.Some?
  }

  /** `new RpcResponse()`: nothing set, so not an error. */
  function NewResponse(): (r: RpcResponse)
    ensures !IsError(r)
    ensures r.requestId.None? && r.result.None?
  {
    RpcResponse(None, None, None)
  }

  /** `setRequestId(id)`: the error state and the result are untouched. */
  function SetRequestId(r: RpcResponse, id: Option<string>): (r': RpcResponse)
    ensures r'.requestId == id
    ensures IsError(r') == IsError(r) && r'.error == r.error && r'.result == r.result
  {
    r.(requestId := id)
  }

  /** `setError(e)`: the response is an error exactly when `e` is not null, whatever it holds as result. */
  function SetError(r: RpcResponse, e: Option<string>): (r': RpcResponse)
    ensures IsError(r') <==> e.Some?
    ensures r'.error == e && r'.requestId == r.requestId && r'.result == r.result
  {
    r.(error := e)
  }

  /** `setResult(x)`: storing a result never changes whether the response is an error. */
  function SetResult(r: RpcResponse, x: Option<Value>): (r': RpcResponse)
    ensures r'.result == x
    ensures IsError(r') == IsError(r) && r'.error == r.error && r'.requestId == r.requestId
  {
    r.(result := x)
  }
}
