# LightRpc core, modelled in Dafny

LightRpc is a remote procedure call framework built on Netty. A server keeps
a table of service beans keyed by `interface#version`. It publishes its
`host:port` and its list of services to a ZooKeeper registry, and answers
requests by invoking the bean's method by reflection. A client watches the
registry and keeps one connection per server endpoint. It routes each call
of a service proxy to one of the endpoints that offer the service, with a
shared round-robin counter. Requests and responses travel as
length-prefixed frames of serialized objects. Responses are matched to
their requests by request id.

This project models that core:

- `wrappers.dfy`: `Option` and `Result`.
- `java_lang.dfy` (module `JavaLang`): the JDK behaviour the core relies on.
  This covers `int` wrap-around and Java's `%`, `String.trim`,
  `String.split`, `Integer.parseInt`, `Integer.toHexString` and
  `equalsIgnoreCase`. Thrown exceptions are represented by their `toString`
  text.
- `service_util.dfy`: the service key.
- `rpc_protocol.dfy`: the endpoint descriptor and its `equals`.
- `messages.dfy`: requests, responses and the heartbeat constants
  (`Beat.BEAT_INTERVAL` 30, `BEAT_TIMEOUT` 90, `BEAT_ID` "BEAT_PING_PONG",
  and a ping whose only field is the id).
- `codec.dfy`: the frame encoder and decoder over a model of Netty's
  `ByteBuf`, with the serializer as a parameter.
- `load_balance.dfy` and `round_robin.dfy`: the service map and the
  round-robin route.
- `registry.dfy`: the connection manager's bookkeeping as a pure state
  machine.
- `client.dfy`: `RpcClientHandler`, and a `ConnectionManager` class proved
  to follow that state machine.
- `object_proxy.dfy`: `ObjectProxy`.
- `server_handler.dfy`: `RpcServerHandler`.
- `service_registry.dfy`: `ServiceRegistry.registerService`.
- `netty_server.dfy`: `NettyServer`.
- `end_to_end.dfy`: how the server's, the registry's and the client's keys
  fit together.

The map and set iteration orders of the Java collections are explicit
`order` parameters, each constrained to enumerate the keys exactly once. An
asynchronous dial is modelled as a submitted attempt, and its completion as
a separate success or failure event.

Two behaviours of the code are easy to miss, and the model keeps both:

- A request for a service that has no bean is answered with a null result
  and no error. `handle` logs and returns null at
  `RpcServerHandler.java:93-96`.
- The connected map is not kept inside the set of known endpoints. A dial
  that completes after its endpoint was removed puts the endpoint back into
  the map only (`RegistrySpec.LateDialLeavesUnknownConnection`).

## Model

| member | source | states |
|---|---|---|
| ServiceUtil.MakeServiceKey | rpc-common/src/main/java/com/netty/rpc/util/ServiceUtil.java:9-15 | The key starts with the interface name. A null or blank version (after `trim`) gives the bare name. Otherwise the key is name + `#` + the version as given, untrimmed. |
| ServiceUtil.EmptyVersionDistinct | rpc-common/src/main/java/com/netty/rpc/util/ServiceUtil.java:9-15 | The empty version and any non-blank version give different keys for one interface. |
| ServiceUtil.DistinctVersionsDistinctKeys | rpc-common/src/main/java/com/netty/rpc/util/ServiceUtil.java:9-15 | Two different non-blank versions give different keys. |
| JavaLang.Wrap | rpc-client/src/main/java/com/netty/rpc/client/route/impl/RpcLoadBalanceRoundRobin.java:27 | The `AtomicInteger` sum is the `int` congruent to the exact sum modulo 2^32, and is the exact sum when that is in range. |
| JavaLang.Rem | rpc-client/src/main/java/com/netty/rpc/client/route/impl/RpcLoadBalanceRoundRobin.java:27 | Java's `%` by a positive divisor: the result lies in [0, b) for a non-negative dividend and in (-b, 0] for a negative one. |
| JavaLang.TrimEmptyIffBlank | rpc-common/src/main/java/com/netty/rpc/util/ServiceUtil.java:11 | `version.trim().length() > 0` holds exactly when some character is above U+0020. |
| JavaLang.TrimDecomposes | rpc-common/src/main/java/com/netty/rpc/util/ServiceUtil.java:11 | What `trim` keeps: the input is blanks, then `s.trim()`, then blanks. |
| JavaLang.TrimEdges | rpc-common/src/main/java/com/netty/rpc/util/ServiceUtil.java:11 | A non-empty `s.trim()` neither starts nor ends with a character at or below U+0020. |
| JavaLang.Split | rpc-server/src/main/java/com/netty/rpc/server/registry/ServiceRegistry.java:50-51 | `split` on one character: no piece holds the separator. Without a separator the result is exactly the input alone. With one, the last piece is not empty. The pieces joined by the separator are the input minus a run of separators at its end; no pieces means the input is only separators. |
| JavaLang.SplitEmptyIff | rpc-server/src/main/java/com/netty/rpc/server/registry/ServiceRegistry.java:50-51 | `split` returns an empty array exactly for a non-empty string made only of separators. |
| JavaLang.SplitPair | rpc-server/src/main/java/com/netty/rpc/server/registry/ServiceRegistry.java:50-55 | `a + sep + b` splits into exactly `[a, b]` when neither part holds the separator and `b` is not empty. |
| JavaLang.SplitTrailingSep | rpc-server/src/main/java/com/netty/rpc/server/registry/ServiceRegistry.java:50-58 | A trailing separator is dropped together with the empty piece after it. |
| JavaLang.ParseInt | rpc-server/src/main/java/com/netty/rpc/server/core/NettyServer.java:76 | A parsed port is an `int`. A failure carries the `NumberFormatException` text for the input. |
| JavaLang.ParseIntDecimal | rpc-server/src/main/java/com/netty/rpc/server/core/NettyServer.java:76 | `parseInt` reads back the decimal text of every non-negative `int`. |
| JavaLang.IntToString | rpc-common/src/main/java/com/netty/rpc/codec/RpcDecoder.java:49 | `Integer.toString` is non-empty and starts with `-` exactly for a negative number. |
| JavaLang.ParseIntToString | rpc-server/src/main/java/com/netty/rpc/server/core/NettyServer.java:76 | `parseInt` reads back the text `toString` writes for every `int`, negative ones included. |
| JavaLang.HexRoundTrip | rpc-client/src/main/java/com/netty/rpc/client/proxy/ObjectProxy.java:45-47 | The hexadecimal digits written for a natural number read back as that number. |
| JavaLang.ToHexString | rpc-client/src/main/java/com/netty/rpc/client/proxy/ObjectProxy.java:46 | `Integer.toHexString` writes one to eight lower-case hexadecimal digits, with a leading zero only for zero. |
| JavaLang.ToHexStringValue | rpc-client/src/main/java/com/netty/rpc/client/proxy/ObjectProxy.java:45-47 | `Integer.toHexString` writes the unsigned 32-bit value of its argument. |
| JavaLang.EqualsIgnoreCase | rpc-server/src/main/java/com/netty/rpc/server/core/RpcServerHandler.java:49 | Two strings are equal ignoring case exactly when they agree once both are upper-cased. Equal strings are always equal ignoring case. |
| Protocol.IsListEquals | rpc-common/src/main/java/com/netty/rpc/protocol/RpcProtocol.java:46-56 | Two null lists are equal, and a null list never equals a non-null one. Non-null lists are equal exactly when they have the same size and the same set of elements. |
| Protocol.MutualContainment | rpc-common/src/main/java/com/netty/rpc/protocol/RpcProtocol.java:55 | `containsAll` in both directions holds exactly when the element sets are equal. |
| Protocol.Equals | rpc-common/src/main/java/com/netty/rpc/protocol/RpcProtocol.java:30-38 | An equal object is an endpoint with the same host and port, whose service list is null exactly when this one's is. Every endpoint equals itself. |
| Protocol.NeverEqualsNullOrOtherClass | rpc-common/src/main/java/com/netty/rpc/protocol/RpcProtocol.java:31-33 | An endpoint never equals null or an object of another class. |
| Protocol.EqualsIsEquivalence | rpc-common/src/main/java/com/netty/rpc/protocol/RpcProtocol.java:31-38 | `equals` is reflexive, symmetric and transitive. |
| Protocol.OrderIrrelevant | rpc-common/src/main/java/com/netty/rpc/protocol/RpcProtocol.java:46-56 | Endpoints whose service lists are permutations of each other are equal. |
| Protocol.MultiplicityIgnored | rpc-common/src/main/java/com/netty/rpc/protocol/RpcProtocol.java:52-55 | `[a, a, b]` equals `[a, b, b]` although they are not permutations of each other. |
| Protocol.DifferentSizesNeverEqual | rpc-common/src/main/java/com/netty/rpc/protocol/RpcProtocol.java:50-53 | Lists of different sizes are never equal. |
| Messages.NewResponse | rpc-common/src/main/java/com/netty/rpc/codec/RpcResponse.java:13-19 | A new response has no id and no result, and is not an error. |
| Messages.SetRequestId | rpc-common/src/main/java/com/netty/rpc/codec/RpcResponse.java:25-27 | Sets the id and leaves the error and the result alone. |
| Messages.SetError | rpc-common/src/main/java/com/netty/rpc/codec/RpcResponse.java:33-35 | `isError()` afterwards holds exactly when the error set is not null. The id and the result are untouched. |
| Messages.SetResult | rpc-common/src/main/java/com/netty/rpc/codec/RpcResponse.java:41-43 | Storing a result never changes whether the response is an error. |
| Codec.Int32RoundTrip | rpc-common/src/main/java/com/netty/rpc/codec/RpcDecoder.java:44 | `readInt` returns the `int` that `writeInt` stored as four big-endian bytes. |
| Codec.Frame | rpc-common/src/main/java/com/netty/rpc/codec/RpcEncoder.java:38-40 | A frame is 4 + n bytes. Its first four bytes read as n, and the rest is the payload. |
| Codec.RpcEncoder.Encode | rpc-common/src/main/java/com/netty/rpc/codec/RpcEncoder.java:35-45 | Appends one frame of the serialized message. Nothing is appended when the message is of another class or serializing throws. The read side of the buffer is untouched. |
| Codec.DecodeStep | rpc-common/src/main/java/com/netty/rpc/codec/RpcDecoder.java:39-61 | A consumed frame ends within the buffer, at least four bytes on. A negative length stops just after the length field. |
| Codec.RpcDecoder.Decode | rpc-common/src/main/java/com/netty/rpc/codec/RpcDecoder.java:39-61 | Fewer than four readable bytes do nothing. An incomplete frame rewinds the reader index to the mark. A whole frame advances the index past it and emits the deserialized message, or only logs when deserializing throws. A negative length throws `NegativeArraySizeException` with that length. |
| Codec.FrameDecodes | rpc-common/src/main/java/com/netty/rpc/codec/RpcDecoder.java:43-57 | A whole frame at the reader index is consumed exactly, whatever bytes surround it. |
| Codec.PartialFrameWaits | rpc-common/src/main/java/com/netty/rpc/codec/RpcDecoder.java:40-47 | Any strict prefix of a frame emits nothing and leaves the reader index in place. |
| Codec.EncodeThenDecode | rpc-common/src/main/java/com/netty/rpc/codec/RpcEncoder.java:35-45 | What the encoder writes, the decoder reads back as `deserialize(serialize(m))`. That is `m` itself for a lossless serializer. |
| LoadBalance.GetServiceMap | rpc-client/src/main/java/com/netty/rpc/client/route/RpcLoadBalance.java:18-38 | The nested loops build exactly the service map specified by `ServiceMapSpec` over the endpoints in iteration order. |
| LoadBalance.AddServiceInfos | rpc-client/src/main/java/com/netty/rpc/client/route/RpcLoadBalance.java:25-34 | The inner loop appends the endpoint to the list under the key of each of its service infos, in order. |
| LoadBalance.EnumerationSize | rpc-client/src/main/java/com/netty/rpc/client/route/RpcLoadBalance.java:21-23 | An iteration order is as long as the key set, so an empty map has no endpoints to visit. |
| LoadBalance.AddInfosCount | rpc-client/src/main/java/com/netty/rpc/client/route/RpcLoadBalance.java:25-33 | The inner loop adds an endpoint under a key once per service info with that key, and touches no other endpoint. |
| LoadBalance.ServiceMapCount | rpc-client/src/main/java/com/netty/rpc/client/route/RpcLoadBalance.java:18-38 | Under each key, an endpoint appears as many times as it advertises that key. Every list in the map is non-empty. |
| LoadBalance.ListedIffAdvertised | rpc-client/src/main/java/com/netty/rpc/client/route/RpcLoadBalance.java:23-33 | An endpoint is listed under a key exactly when it is connected and one of its services has that key. |
| LoadBalance.ServiceMapKeys | rpc-client/src/main/java/com/netty/rpc/client/route/RpcLoadBalance.java:18-38 | The map's keys are exactly the keys of the services the connected endpoints advertise. |
| RoundRobin.RoundRobinIndex | rpc-client/src/main/java/com/netty/rpc/client/route/impl/RpcLoadBalanceRoundRobin.java:27 | The intended rotation index always lies in [0, size). |
| RoundRobin.IndexAsWritten | rpc-client/src/main/java/com/netty/rpc/client/route/impl/RpcLoadBalanceRoundRobin.java:27 | The index as written, `(counter + size) % size` in `int` arithmetic, lies in (-size, size). It is negative only when `counter + size` has wrapped to a negative `int`. |
| RoundRobin.AsWrittenNegativeAfterWrap | rpc-client/src/main/java/com/netty/rpc/client/route/impl/RpcLoadBalanceRoundRobin.java:27-28 | The counter wraps from `INT_MAX` to `INT_MIN`. With three endpoints, the index as written is -2 already at counter `INT_MAX - 2`, and again at `INT_MIN`. |
| RoundRobin.AsWrittenAgreesBeforeWrap | rpc-client/src/main/java/com/netty/rpc/client/route/impl/RpcLoadBalanceRoundRobin.java:27 | Before the counter wraps, `(counter + size) % size` is the intended index. |
| RoundRobin.WrapAdd | rpc-client/src/main/java/com/netty/rpc/client/route/impl/RpcLoadBalanceRoundRobin.java:27 | Adding to a wrapped counter wraps like adding to the exact sum. So `t` calls of `getAndAdd(1)` from `c` leave the counter at `c + t` wrapped. |
| RoundRobin.DoRouteRepeatedly | rpc-client/src/main/java/com/netty/rpc/client/route/impl/RpcLoadBalanceRoundRobin.java:24-29 | `calls` successive `doRoute` calls on one balancer, in call order. Call `t` returns the endpoint at the index of the counter value `t` steps on, and the counter ends `calls` steps on. `size` calls return the endpoints in rotation order. Without a wrap meanwhile, they return every endpoint of the list. |
| RoundRobin.RotationPicksEach | rpc-client/src/main/java/com/netty/rpc/client/route/impl/RpcLoadBalanceRoundRobin.java:24-29 | Picks made in rotation order from a counter that does not wrap include every endpoint of the list. |
| RoundRobin.RotationVisitsEachIndexOnce | rpc-client/src/main/java/com/netty/rpc/client/route/impl/RpcLoadBalanceRoundRobin.java:24-29 | Fairness: the indices that `size` successive calls use, from a counter that does not wrap meanwhile, are pairwise distinct and cover every index of the list. `DoRouteRepeatedly` ties these indices to the calls. |
| RoundRobin.RoutedEndpointAdvertises | rpc-client/src/main/java/com/netty/rpc/client/route/impl/RpcLoadBalanceRoundRobin.java:31-41 | The routed endpoint is connected and advertises the requested key. |
| RoundRobin.Routed | rpc-client/src/main/java/com/netty/rpc/client/route/impl/RpcLoadBalanceRoundRobin.java:31-41 | The endpoint `route` picks: none exactly when no connected endpoint is listed under the key, and otherwise one of the endpoints listed under it. |
| RoundRobin.RpcLoadBalanceRoundRobin.constructor | rpc-client/src/main/java/com/netty/rpc/client/route/impl/RpcLoadBalanceRoundRobin.java:17 | The counter starts at 0. |
| RoundRobin.RpcLoadBalanceRoundRobin.DoRoute | rpc-client/src/main/java/com/netty/rpc/client/route/impl/RpcLoadBalanceRoundRobin.java:24-29 | The counter advances with wrap-around on every call. The endpoint at the counter's index in the list is returned. An empty list divides by zero. |
| RoundRobin.RpcLoadBalanceRoundRobin.Route | rpc-client/src/main/java/com/netty/rpc/client/route/impl/RpcLoadBalanceRoundRobin.java:31-41 | Returns `Routed` of the counter and advances the counter. With no endpoint listed under the key, it fails with "Can not find connection for service" and leaves the counter untouched. |
| RegistrySpec.RemoveAllStep | rpc-client/src/main/java/com/netty/rpc/client/connect/ConnectionManager.java:89-94 | Removing endpoints one at a time is the same as removing them all at once. |
| RegistrySpec.Connect | rpc-client/src/main/java/com/netty/rpc/client/connect/ConnectionManager.java:127-136 | Connecting never changes the connected map, the closed handlers or the running flag. The known endpoints and the submitted dials only grow. |
| RegistrySpec.RemoveAndClose | rpc-client/src/main/java/com/netty/rpc/client/connect/ConnectionManager.java:222-229 | The endpoint is neither known nor connected afterwards. Every other endpoint keeps its place in both collections. Its handler is closed exactly when it had one. Dials and the running flag are untouched. |
| RegistrySpec.Reconcile | rpc-client/src/main/java/com/netty/rpc/client/connect/ConnectionManager.java:66-102 | Afterwards only listed endpoints are known. No endpoint becomes connected, no submitted dial is dropped, and the running flag is kept. |
| RegistrySpec.ApplyEvent | rpc-client/src/main/java/com/netty/rpc/client/connect/ConnectionManager.java:105-120 | An event is rejected exactly when its endpoint is non-null and its type is neither UPDATED nor REMOVED, nor ADDED of an unknown endpoint. An accepted event connects no endpoint, drops no dial and keeps the running flag. |
| RegistrySpec.Stop | rpc-client/src/main/java/com/netty/rpc/client/connect/ConnectionManager.java:237-245 | Not running and nothing known afterwards. Submitted dials are untouched. |
| RegistrySpec.InvPreservedByUpdates | rpc-client/src/main/java/com/netty/rpc/client/connect/ConnectionManager.java:127-132 | Connecting, removing and stopping never make an endpoint without services known, dialed or connected. |
| RegistrySpec.InvPreservedByDials | rpc-client/src/main/java/com/netty/rpc/client/connect/ConnectionManager.java:154-163 | A completed dial, whether it succeeded or failed, keeps that invariant. |
| RegistrySpec.InvPreservedByReconcile | rpc-client/src/main/java/com/netty/rpc/client/connect/ConnectionManager.java:66-102 | A full-list update keeps that invariant. |
| RegistrySpec.InvPreservedByEvent | rpc-client/src/main/java/com/netty/rpc/client/connect/ConnectionManager.java:105-120 | An accepted single-node event keeps that invariant. |
| RegistrySpec.ReconcileKnownIsSnapshot | rpc-client/src/main/java/com/netty/rpc/client/connect/ConnectionManager.java:66-102 | After an update, the known endpoints are exactly the listed ones with services. One dial is submitted for each new one, and none for endpoints already known. |
| RegistrySpec.ReconcileRemovesStale | rpc-client/src/main/java/com/netty/rpc/client/connect/ConnectionManager.java:89-94 | Exactly the known endpoints the list omits are disconnected and have their handlers closed. Other connections keep their handlers. |
| RegistrySpec.EmptySnapshotRemovesAll | rpc-client/src/main/java/com/netty/rpc/client/connect/ConnectionManager.java:95-101 | A null or empty list forgets every known endpoint and submits no dial. |
| RegistrySpec.ReconcileIdempotent | rpc-client/src/main/java/com/netty/rpc/client/connect/ConnectionManager.java:66-102 | Applying the same list twice changes nothing the second time. |
| RegistrySpec.ReconcileSettled | rpc-client/src/main/java/com/netty/rpc/client/connect/ConnectionManager.java:66-102 | A state that already knows exactly the listed endpoints with services is left as it is. |
| RegistrySpec.FailedDialNotRetried | rpc-client/src/main/java/com/netty/rpc/client/connect/ConnectionManager.java:161-163 | An endpoint whose dial failed stays known, so the next identical list does not dial it again. |
| RegistrySpec.LateDialLeavesUnknownConnection | rpc-client/src/main/java/com/netty/rpc/client/connect/ConnectionManager.java:154-160 | A dial that completes after its endpoint was removed leaves the endpoint connected but not known. |
| RegistrySpec.StopForgetsKnown | rpc-client/src/main/java/com/netty/rpc/client/connect/ConnectionManager.java:237-245 | `stop()` clears the running flag, forgets every known endpoint and closes their handlers. |
| RegistrySpec.UpdatedEventRedials | rpc-client/src/main/java/com/netty/rpc/client/connect/ConnectionManager.java:111-114 | UPDATED of an endpoint with services closes exactly the handler it had and drops its connection. The endpoint stays known, and exactly one new dial is submitted. Every other endpoint keeps its place. |
| RegistrySpec.AddedTwiceRejected | rpc-client/src/main/java/com/netty/rpc/client/connect/ConnectionManager.java:109-118 | A second ADDED of a known endpoint throws "Unknow type:CHILD_ADDED", although the type is known. |
| RegistrySpec.ConnectOnlyDials | rpc-client/src/main/java/com/netty/rpc/client/connect/ConnectionManager.java:127-136 | Connecting never changes the connected map. The endpoint becomes known and exactly one more dial is submitted for it, exactly when it has services. |
| Client.RpcFuture.constructor | rpc-client/src/main/java/com/netty/rpc/client/handler/RpcClientHandler.java:84 | A new future holds its request and no response. |
| Client.RpcFuture.Done | rpc-client/src/main/java/com/netty/rpc/client/handler/RpcClientHandler.java:58 | `done` stores the response. |
| Client.RpcClientHandler.constructor | rpc-client/src/main/java/com/netty/rpc/client/handler/RpcClientHandler.java:25-28 | No pending futures, no endpoint, nothing written. |
| Client.RpcClientHandler.SendRequest | rpc-client/src/main/java/com/netty/rpc/client/handler/RpcClientHandler.java:83-100 | A fresh future is stored under the request id, replacing any earlier one, and returned. The request is written. No future is pending under two ids. |
| Client.RpcClientHandler.ChannelRead0 | rpc-client/src/main/java/com/netty/rpc/client/handler/RpcClientHandler.java:52-62 | A pending id is removed and its future completed with the response. An unknown id changes nothing. A null id throws. Every future still pending is untouched. |
| Client.RpcClientHandler.UserEventTriggered | rpc-client/src/main/java/com/netty/rpc/client/handler/RpcClientHandler.java:103-111 | An idle event sends the heartbeat ping like any request, so it stays pending under `BEAT_ID`. Other events change nothing. |
| Client.RpcClientHandler.SetRpcProtocol | rpc-client/src/main/java/com/netty/rpc/client/handler/RpcClientHandler.java:113-115 | Records the endpoint. |
| Client.RpcClientHandler.ChannelInactive | rpc-client/src/main/java/com/netty/rpc/client/handler/RpcClientHandler.java:118-121 | The manager forgets this connection's endpoint. Before the endpoint is set, this throws and nothing changes. |
| Client.ConnectionManager.constructor | rpc-client/src/main/java/com/netty/rpc/client/connect/ConnectionManager.java:39-49 | Empty collections, running, and a round-robin counter at 0. |
| Client.ConnectionManager.ConnectServerNode | rpc-client/src/main/java/com/netty/rpc/client/connect/ConnectionManager.java:127-140 | Follows `RegistrySpec.Connect` and keeps the invariant. |
| Client.ConnectionManager.DialSucceeded | rpc-client/src/main/java/com/netty/rpc/client/connect/ConnectionManager.java:154-160 | The handler is stored for the endpoint and learns the endpoint. Its table and its written requests are untouched. |
| Client.ConnectionManager.DialFailed | rpc-client/src/main/java/com/netty/rpc/client/connect/ConnectionManager.java:161-163 | Only the attempt is dropped. |
| Client.ConnectionManager.RemoveAndCloseHandler | rpc-client/src/main/java/com/netty/rpc/client/connect/ConnectionManager.java:222-229 | Follows `RegistrySpec.RemoveAndClose`: closes the handler if there is one, and forgets the endpoint in both collections. |
| Client.ConnectionManager.RemoveHandler | rpc-client/src/main/java/com/netty/rpc/client/connect/ConnectionManager.java:231-235 | Forgets the endpoint in both collections without closing anything. |
| Client.ConnectionManager.UpdateConnectedServer | rpc-client/src/main/java/com/netty/rpc/client/connect/ConnectionManager.java:66-102 | The new state is `RegistrySpec.Reconcile` of the old state and the list. The reconcile lemmas above hold of it. |
| Client.ConnectionManager.CollectListed | rpc-client/src/main/java/com/netty/rpc/client/connect/ConnectionManager.java:72-76 | The hash set built from the list holds exactly the listed endpoints, duplicates collapsed. |
| Client.ConnectionManager.ConnectUnknown | rpc-client/src/main/java/com/netty/rpc/client/connect/ConnectionManager.java:79-86 | Connects every listed endpoint that is not yet known. |
| Client.ConnectionManager.RemoveAndCloseUnlisted | rpc-client/src/main/java/com/netty/rpc/client/connect/ConnectionManager.java:89-101 | Removes and closes every known endpoint outside the kept set. |
| Client.ConnectionManager.UpdateConnectedServerEvent | rpc-client/src/main/java/com/netty/rpc/client/connect/ConnectionManager.java:105-120 | Follows `RegistrySpec.ApplyEvent`. A rejected event throws and changes nothing. |
| Client.ConnectionManager.ChooseHandler | rpc-client/src/main/java/com/netty/rpc/client/connect/ConnectionManager.java:203-220 | Returns the handler of the endpoint `Routed` picks, and that endpoint is connected. The counter advances. Without one, it fails with the routing error and the counter is unchanged. |
| Client.ConnectionManager.Stop | rpc-client/src/main/java/com/netty/rpc/client/connect/ConnectionManager.java:237-245 | Follows `RegistrySpec.Stop`. |
| Client.ConnectedAllListed | rpc-client/src/main/java/com/netty/rpc/client/route/RpcLoadBalance.java:25 | Every connected endpoint has a non-null service list, so the inner loop of `getServiceMap` never reads null. |
| Proxy.ObjectMethod | rpc-client/src/main/java/com/netty/rpc/client/proxy/ObjectProxy.java:38-51 | `equals` is identity with the proxy, and `hashCode` is the proxy's identity hash. `toString` is the proxy's class, "@", the hash in unsigned hex, then ", with InvocationHandler " and the handler's class, "@" and its hash in hex. Any other method of `Object` throws `IllegalStateException` with the method's text. |
| Proxy.ProxyToString | rpc-client/src/main/java/com/netty/rpc/client/proxy/ObjectProxy.java:45-47 | The proxy's class and "@", then hex digits that read back as the unsigned hash, then the handler's default `toString`. |
| Proxy.ObjectProxy.constructor | rpc-client/src/main/java/com/netty/rpc/client/proxy/ObjectProxy.java:23-26 | Stores the interface and the version. |
| Proxy.ObjectProxy.CreateRequest | rpc-client/src/main/java/com/netty/rpc/client/proxy/ObjectProxy.java:99-126 | Succeeds exactly when the argument array and every argument are non-null, and otherwise throws a `NullPointerException`. Each parameter type is its argument's runtime class. |
| Proxy.ObjectProxy.Call | rpc-client/src/main/java/com/netty/rpc/client/proxy/ObjectProxy.java:82-97 | The handler is chosen first. Without a connection, nothing else happens. Otherwise the counter advances: a null argument then fails, and a sendable call stores and writes its request on the chosen handler only. Every handler stays valid and keeps its endpoint. Every handler not written to keeps its pending futures. |
| Proxy.ObjectProxy.SendCall | rpc-client/src/main/java/com/netty/rpc/client/proxy/ObjectProxy.java:85-87 | With every argument non-null, the request is stored and written on the given handler and its future returned. Otherwise a `NullPointerException` and nothing written. No other handler changes. |
| Proxy.ObjectProxy.SendAmong | rpc-client/src/main/java/com/netty/rpc/client/handler/RpcClientHandler.java:83-100 | Sending on one handler of a set stores and writes the request there and leaves every other handler of the set as it was. |
| Proxy.ObjectProxy.Invoke | rpc-client/src/main/java/com/netty/rpc/client/proxy/ObjectProxy.java:37-79 | `Object` methods are answered locally, with the counter and every handler untouched. Any other method sends a request naming its declaring class, name, declared parameter types, the arguments and the version, on the handler of the endpoint `Routed` picks, and only there. Every handler stays valid and keeps its endpoint. |
| Proxy.ObjectProxy.InvokeRemote | rpc-client/src/main/java/com/netty/rpc/client/proxy/ObjectProxy.java:52-79 | The remote half of `invoke`: the request built from the method is sent on the routed endpoint's handler, or the routing error is thrown with the counter unchanged. |
| ServerHandler.RequestServiceKey | rpc-server/src/main/java/com/netty/rpc/server/core/RpcServerHandler.java:89-91 | The lookup key is `makeServiceKey` of the request's class and version. A null class name only yields a key, "null" + `#` + version, when the version is not blank. |
| ServerHandler.ServiceBean | rpc-server/src/main/java/com/netty/rpc/server/core/RpcServerHandler.java:92 | A bean is found exactly when the key is registered, and it is the registered bean. |
| ServerHandler.Handle | rpc-server/src/main/java/com/netty/rpc/server/core/RpcServerHandler.java:87-127 | Intended `handle`: a missing bean gives a null result, otherwise the bean's method is invoked on the request's arguments. |
| ServerHandler.HandleAsWritten | rpc-server/src/main/java/com/netty/rpc/server/core/RpcServerHandler.java:105-110 | As written: once a bean is found, a null parameter-type array, a null argument array or a null argument throws a `NullPointerException` before the invocation. Otherwise the result is the intended one. |
| ServerHandler.Respond | rpc-server/src/main/java/com/netty/rpc/server/core/RpcServerHandler.java:59-67 | The response always carries the request id. It is an error exactly when handling threw, and then holds the exception text and no result. Otherwise it holds the result. |
| ServerHandler.RpcServerHandler.constructor | rpc-server/src/main/java/com/netty/rpc/server/core/RpcServerHandler.java:33-36 | Stores the service table. |
| ServerHandler.RpcServerHandler.ChannelRead0 | rpc-server/src/main/java/com/netty/rpc/server/core/RpcServerHandler.java:46-79 | A heartbeat gets no answer. Any other request gets exactly one response, written while the channel is open, built from `handle` as written: a `NullPointerException` when a found bean's arguments cannot be logged, otherwise the intended outcome, which is a null result and no error for an unknown service. |
| ServerHandler.RpcServerHandler.ExceptionCaught | rpc-server/src/main/java/com/netty/rpc/server/core/RpcServerHandler.java:130-134 | Closes the channel. |
| ServerHandler.RpcServerHandler.UserEventTriggered | rpc-server/src/main/java/com/netty/rpc/server/core/RpcServerHandler.java:144-152 | An idle event closes the channel. Other events change nothing. |
| ServerHandler.HelloWorld | rpc-test/src/main/java/com/app/test/service/HelloServiceImpl.java:20-22 | `hello("World")` on version 1.0 of the test service is answered "Hello World" with no error. |
| ServerHandler.HelloWorldHandled | rpc-test/src/main/java/com/app/test/service/HelloServiceImpl.java:20-22 | `handle` of `hello("World")` on version 1.0 returns "Hello World". |
| ServerHandler.HeartbeatIds | rpc-server/src/main/java/com/netty/rpc/server/core/RpcServerHandler.java:49-52 | The ids the heartbeat filter drops are exactly `BEAT_ID` with any of its letters in lower case. |
| Registration.ParseServiceKey | rpc-server/src/main/java/com/netty/rpc/server/registry/ServiceRegistry.java:50-58 | A key is skipped exactly when it is non-empty and made only of `#`. |
| Registration.ParseRoundTrip | rpc-server/src/main/java/com/netty/rpc/server/registry/ServiceRegistry.java:50-58 | Splitting undoes `makeServiceKey` for a `#`-free name and a non-blank, `#`-free version. |
| Registration.ParseWithoutSeparator | rpc-server/src/main/java/com/netty/rpc/server/registry/ServiceRegistry.java:54-58 | A key without `#` is published as that name with the empty version. |
| Registration.ParseThreePieces | rpc-server/src/main/java/com/netty/rpc/server/registry/ServiceRegistry.java:53-58 | A key with three pieces keeps only the first piece, with the empty version. |
| Registration.ParseTrailingSeparator | rpc-server/src/main/java/com/netty/rpc/server/registry/ServiceRegistry.java:50-58 | `name#` is published as that name with the empty version. |
| Registration.ServiceInfos | rpc-server/src/main/java/com/netty/rpc/server/registry/ServiceRegistry.java:47-64 | The published list has at most one info per key. |
| Registration.ServiceInfosExactly | rpc-server/src/main/java/com/netty/rpc/server/registry/ServiceRegistry.java:47-64 | An info is published exactly when some key parses to it. |
| Registration.ServiceInfosOnePerKey | rpc-server/src/main/java/com/netty/rpc/server/registry/ServiceRegistry.java:47-64 | When every key parses, the list has one info per key. |
| Registration.RegisterService | rpc-server/src/main/java/com/netty/rpc/server/registry/ServiceRegistry.java:45-70 | The published endpoint is the host, the port and the infos parsed from the keys in iteration order. |
| Server.ParseServerAddress | rpc-server/src/main/java/com/netty/rpc/server/core/NettyServer.java:74-76 | An address without a port piece fails. Otherwise it succeeds exactly when the second piece parses as an `int`. |
| Server.AddressRoundTrip | rpc-server/src/main/java/com/netty/rpc/server/core/NettyServer.java:74-76 | `host:port` reads back as that host and port. |
| Server.AddressWithoutPort | rpc-server/src/main/java/com/netty/rpc/server/core/NettyServer.java:74-75 | An address without ':' throws `ArrayIndexOutOfBoundsException` for index 1. |
| Server.AddressOnlySeparators | rpc-server/src/main/java/com/netty/rpc/server/core/NettyServer.java:74-75 | An address made only of ':' splits into no pieces, so reading the host throws `ArrayIndexOutOfBoundsException` for index 0. |
| Server.NettyServer.constructor | rpc-server/src/main/java/com/netty/rpc/server/core/NettyServer.java:31-36 | Stores the address, with an empty service table. |
| Server.NettyServer.AddService | rpc-server/src/main/java/com/netty/rpc/server/core/NettyServer.java:44-48 | The bean is stored under the service key, replacing any earlier bean. |
| Server.NettyServer.Start | rpc-server/src/main/java/com/netty/rpc/server/core/NettyServer.java:74-83 | A bad address, or a host and port that `bind` rejects, fails before anything is registered. Otherwise the descriptor for the parsed host and port is registered. A registered descriptor always names a valid socket address. |
| Server.BlankVersionsShareKey | rpc-test/src/main/java/com/app/test/server/RpcServerBootstrap2.java:19-21 | A null, empty or blank version registers under the bare interface name. |
| Server.VersionsCoexist | rpc-test/src/main/java/com/app/test/server/RpcServerBootstrap2.java:19-21 | Versions 1.0 and 2.0 of one interface keep both beans. |
| EndToEnd.PublishedKeyRoundTrip | rpc-server/src/main/java/com/netty/rpc/server/registry/ServiceRegistry.java:50-58 | The client files a published info under exactly the key the server registered it with. |
| EndToEnd.PublishedEndpointListed | rpc-client/src/main/java/com/netty/rpc/client/route/RpcLoadBalance.java:23-33 | Once the endpoint a server publishes is connected, the client lists it under the key of every service the server added. |
| EndToEnd.ProxyRequestFindsBean | rpc-server/src/main/java/com/netty/rpc/server/core/RpcServerHandler.java:89-92 | The request the proxy sends for a method of an interface reaches the bean added under that interface and the proxy's version. |
| EndToEnd.PingNeverAnswered | rpc-client/src/main/java/com/netty/rpc/client/handler/RpcClientHandler.java:106 | The ping the client sends on an idle channel is dropped by the server. |
| EndToEnd.ZeroArgumentRequestNotLoggable | rpc-client/src/main/java/com/netty/rpc/client/proxy/ObjectProxy.java:59-60 | A proxied call of a method without parameters carries a null argument array, which the server's debug loop cannot read. |
| EndToEnd.HelloNullAsWritten | rpc-server/src/main/java/com/netty/rpc/server/core/RpcServerHandler.java:105-110 | `hello(null)` on the test service throws a `NullPointerException` as written, where the intended answer is "Hello null". |

## Left out

- Netty itself is not modelled: channels, pipelines, event loops, and bind and connect as I/O. A write is a record appended to `written`; a close is a flag or an entry in the closed set.
- Concurrency is not modelled: thread pools, `ReentrantLock`/`Condition`, and the atomicity of `ConcurrentHashMap`, `CopyOnWriteArraySet` and `AtomicInteger`. Every operation is one atomic step.
- `Client.ConnectionManager.ChooseHandler` starts where the wait loop ends, as its precondition. Its dead "Can not get available connection" branch is omitted, because the routed endpoint is always connected.
- `Proxy.ObjectProxy.Invoke` returns the future. The blocking `rpcFuture.get()` and the RpcFuture internals are not part of this model, because `RpcFuture.java` is not part of this model.
- ZooKeeper is not modelled: service discovery, the registry connection listener, `unregisterService`, path creation, and the JSON form of the descriptor. `RegisterService` returns the descriptor it would publish.
- Reflection (`FastClass`) is a parameter `Invoker`. Serializers are a parameter pair of functions that may fail. UUID request ids are inputs.
- `Codec.RpcDecoder.Decode` does not model the frame-size cap of the pipeline's `LengthFieldBasedFrameDecoder`, which sits outside the decoder.
- Logging is left out, except where evaluating log arguments throws (the finding below). The client's `isDebugEnabled` blocks in `invoke` and `createRequest` are left out: with debug logging on, `invoke` with a null argument array would also throw there.
- `RpcProtocol.hashCode` is not modelled. Client collections use Dafny value equality, which agrees with `equals` except on service lists with the same size and set but different order or multiplicity. `hashCode` also throws `NullPointerException` for an endpoint whose `serviceInfoList` is null (RpcProtocol.java:60). The lines below list the members that treat such an endpoint like any other.
- RegistrySpec.Reconcile does not model the `NullPointerException` that `serviceSet.add` throws, before anything changes, when a listed endpoint has a null service list (ConnectionManager.java:75). The model reconciles such an endpoint like any other. Every descriptor a server publishes carries `Some(list)` (`Registration.RegisterService` ensures the descriptor's list is `Some(ServiceInfos(keyOrder))`), so a null list reaches the client only from a descriptor this system did not write.
- RegistrySpec.ApplyEvent does not model the `NullPointerException` from hashing an endpoint with a null service list. Java throws it in `connectedServerNodes.get` for UPDATED and REMOVED (ConnectionManager.java:223) and in `put` when a dial completes. The model returns `Success`, for the reason given for `RegistrySpec.Reconcile`.
- Client.ConnectionManager.UpdateConnectedServer follows `RegistrySpec.Reconcile`, so it has the same gap for an endpoint with a null service list.
- Client.ConnectionManager.UpdateConnectedServerEvent follows `RegistrySpec.ApplyEvent`, so it has the same gap for an endpoint with a null service list.
- Client.ConnectionManager.RemoveHandler does not model the `NullPointerException` that `connectedServerNodes.remove` throws for an endpoint with a null service list (ConnectionManager.java:233). Java has already removed that endpoint from `rpcProtocolSet`, because `CopyOnWriteArraySet` compares with `equals`. The model removes it from both.
- Client.ConnectionManager.RemoveAndCloseHandler does not model the `NullPointerException` that `connectedServerNodes.get` throws for an endpoint with a null service list (ConnectionManager.java:223).
- `RpcServiceInfo.java` is not part of this model. A service info is a plain name and version pair.
- Case folding in `equalsIgnoreCase` and the digits accepted by `parseInt` are ASCII only.
- `NullPointerException` texts are the bare class name, without the detail messages of newer JDKs.
- `LoadBalance.GetServiceMap` requires every connected endpoint to have a non-null service list. The connection manager's invariant guarantees this (`Client.ConnectedAllListed`).
- A request's id is never null in the model. Every request the runtime builds has one.
- RoundRobin.RpcLoadBalanceRoundRobin.DoRoute uses the corrected index `RoundRobinIndex` (counter modulo size), not the as-written `(counter + size) % size` of the finding below. The two agree while 0 <= counter <= INT_MAX - size (`RoundRobin.AsWrittenAgreesBeforeWrap`). Past that point the program as written can pick another endpoint or throw `IndexOutOfBoundsException`, and the model does neither.
- RoundRobin.RpcLoadBalanceRoundRobin.Route routes through `DoRoute`, so it uses the corrected index too.
- RoundRobin.Routed describes the endpoint picked with the corrected index.
- RoundRobin.DoRouteRepeatedly calls `DoRoute`, so its picks use the corrected index.
- Client.ConnectionManager.ChooseHandler routes through `Route`, so it uses the corrected index.
- Proxy.ObjectProxy.Call chooses its handler through `ChooseHandler`, so it uses the corrected index.
- Proxy.ObjectProxy.Invoke chooses its handler through `ChooseHandler`, so it uses the corrected index.
- RegistrySpec.Connect always submits a dial for an endpoint with services. The Java code first adds the endpoint to the known set and then builds `new InetSocketAddress(host, port)`, which throws `IllegalArgumentException` for a null host or a port outside 0..65535 (ConnectionManager.java:138). That throw would abort `updateConnectedServer` midway. It is left out because a server only publishes an endpoint it has bound, and `Server.NettyServer.Start` proves that every descriptor it registers names a valid socket address (`Protocol.SocketAddressValid`).
- RegistrySpec.ConnectOnlyDials states the dial that `Connect` submits, so it omits the same throw.
- Client.ConnectionManager.ConnectServerNode follows `RegistrySpec.Connect`, so it omits the same throw.
- `call(SerializableFunction, args)` is `Proxy.ObjectProxy.Call` with the function's resolved method name.

## Findings

| source | as written | input that shows it | evidently intended | confidence | as-written member | corrected member |
|---|---|---|---|---|---|---|
| rpc-client/src/main/java/com/netty/rpc/client/route/impl/RpcLoadBalanceRoundRobin.java:27 | `(roundRobin.getAndAdd(1) + size) % size` on an `int` counter that wraps to negative values | With three endpoints, after 2^31 - 3 routed calls the counter is `INT_MAX - 2`. Then `counter + 3` wraps, the index is -2 and `addressList.get(-2)` throws. It is -2 again once the counter reaches `INT_MIN`. | The counter modulo the size, always in [0, size), so the rotation never fails | high; not executed | RoundRobin.AsWrittenNegativeAfterWrap | RoundRobin.RoundRobinIndex |
| rpc-server/src/main/java/com/netty/rpc/server/core/RpcServerHandler.java:105-110 | `handle` reads `parameterTypes.length`, `parameters.length` and every `parameters[i].toString()` for its debug log, whatever the log level | `hello(null)` on HelloService 1.0: the argument array is `[null]`, so the server answers with error "java.lang.NullPointerException" instead of "Hello null". A method without parameters fails the same way, because the proxy sends a null argument array. | Logging never throws; the bean's method is invoked on the arguments | high; not executed | EndToEnd.HelloNullAsWritten | ServerHandler.Handle |
