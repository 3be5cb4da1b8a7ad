/**
 * The client runtime: a handler per connection correlating requests with
 * responses through its table of pending futures, and the connection
 * manager that tracks server endpoints and picks a handler for a call.
 */
module Client {
  import opened Wrappers
  import opened JavaLang
  import opened Protocol
  import opened Messages
  import opened LoadBalance
  import opened RoundRobin
  import opened RegistrySpec

  /** `RpcFuture`: the request it was created for, and the response once `done` has been called. */
  class RpcFuture {
    const request: RpcRequest
    var response: Option<RpcResponse>

    constructor (request: RpcRequest)
      ensures this.request == request && response.None?
    {
      this.request := request;
      response := None;
    }

    /** `done(response)` */
    method Done(r: RpcResponse)
      modifies this
      ensures response == Some(r)
    {
      response := Some(r);
    }
  }

  /** `RpcClientHandler`: one per open connection. */
  class RpcClientHandler {
    /** `pendingRPC`: request id to the future awaiting its response. */
    var pendingRPC: map<string, RpcFuture>
    /** The endpoint this connection serves, set once the dial succeeds. */
    var rpcProtocol: Option<RpcProtocol>
    /** The requests written to the channel, in order. */
    var written: seq<RpcRequest>

    /** No future is pending under two ids. */
    ghost predicate Valid()
      reads this
    {
      forall a, b :: a in pendingRPC && b in pendingRPC && a != b ==> pendingRPC[a] != pendingRPC[b]
    }

    constructor ()
      ensures Valid()
      ensures pendingRPC == map[] && rpcProtocol.None? && written == []
    {
      pendingRPC := map[];
      rpcProtocol := None;
      written := [];
    }

    /**
     * `sendRequest(request)`: a new future is stored under the request's id
     * (replacing any earlier one) before the request is written, and returned.
     */
    method SendRequest(request: RpcRequest) returns (f: RpcFuture)
      requires Valid()
      modifies this
      ensures Valid() && fresh(f)
      ensures f.request == request && f.response.None?
      ensures pendingRPC == old(pendingRPC)[request.requestId := f]
      ensures written == old(written) + [request] && rpcProtocol == old(rpcProtocol)
    {
      f := new RpcFuture(request);
      pendingRPC := pendingRPC[request.requestId := f];
      written := written + [request];
    }

    /**
     * `channelRead0(ctx, response)`: a response whose id is pending removes
     * that entry and completes its future; an unknown id changes nothing; a
     * null id makes the table lookup throw. Every future left pending is
     * untouched.
     */
    method ChannelRead0(response: RpcResponse) returns (thrown: Option<string>)
      requires Valid()
      modifies this, pendingRPC.Values
      ensures Valid()
      ensures written == old(written) && rpcProtocol == old(rpcProtocol)
      ensures response.requestId.None? ==> thrown == Some(NULL_POINTER) && pendingRPC == old(pendingRPC)
      ensures response.requestId.Some? ==> thrown.None?
      ensures response.requestId.Some? && response.requestId.value in old(pendingRPC) ==>
                && pendingRPC == old(pendingRPC) - {response.requestId.value}
                && old(pendingRPC)[response.requestId.value].response == Some(response)
      ensures response.requestId.Some? && response.requestId.value !in old(pendingRPC) ==>
                pendingRPC == old(pendingRPC)
      ensures forall id :: id in pendingRPC ==> pendingRPC[id].response == old(pendingRPC[id].response)
    {
      if response.requestId.None? {
        return Some(NULL_POINTER);
      }
      var requestId := response.requestId.value;
      if requestId in pendingRPC {
        var rpcFuture := pendingRPC[requestId];
        pendingRPC := pendingRPC - {requestId};
        rpcFuture.Done(response);
      }
      thrown := None;
    }

    /**
     * `userEventTriggered(ctx, evt)`: on an idle event the heartbeat ping is
     * sent like any request, so a future stays pending under its id until the
     * next ping replaces it; other events pass through.
     */
    method UserEventTriggered(idle: bool)
      requires Valid()
      modifies this
      ensures Valid() && rpcProtocol == old(rpcProtocol)
      ensures idle ==>
                && pendingRPC.Keys == old(pendingRPC).Keys + {BEAT_ID}
                && fresh(pendingRPC[BEAT_ID]) && pendingRPC[BEAT_ID].request == BEAT_PING
                && (forall id :: id in old(pendingRPC) && id != BEAT_ID ==> pendingRPC[id] == old(pendingRPC)[id])
                && written == old(written) + [BEAT_PING]
      ensures !idle ==> pendingRPC == old(pendingRPC) && written == old(written)
    {
      if idle {
        var _ := SendRequest(BEAT_PING);
      }
    }

    /** `setRpcProtocol(p)` */
    method SetRpcProtocol(p: RpcProtocol)
      modifies this
      ensures rpcProtocol == Some(p)
      ensures pendingRPC == old(pendingRPC) && written == old(written)
    {
      rpcProtocol := Some(p);
    }

    /**
     * `channelInactive(ctx)`: the manager forgets this connection's endpoint.
     * Before `setRpcProtocol` the endpoint is null and removing it throws.
     */
    method ChannelInactive(manager: ConnectionManager) returns (thrown: Option<string>)
      requires manager.Valid()
      modifies manager
      ensures manager.Valid()
      ensures rpcProtocol.None? ==> thrown == Some(NULL_POINTER) && manager.State() == old(manager.State())
      ensures rpcProtocol.Some? ==>
                thrown.None? && manager.State() == RemoveHandler(old(manager.State()), rpcProtocol.value)
    {
      if rpcProtocol.None? {
        return Some(NULL_POINTER);
      }
      manager.RemoveHandler(rpcProtocol.value);
      thrown := None;
    }
  }

  /** `ConnectionManager` */
  class ConnectionManager {
    var rpcProtocolSet: set<RpcProtocol>
    var connectedServerNodes: map<RpcProtocol, RpcClientHandler>
    /** Dials submitted to the thread pool whose outcome has not arrived yet. */
    var pendingDials: multiset<RpcProtocol>
    /** The handlers `close()` was called on. */
    var closedHandlers: set<RpcClientHandler>
    var isRunning: bool
    const loadBalance: RpcLoadBalanceRoundRobin

    /** The manager's bookkeeping as a value of the registry specification. */
    function State(): Registry<RpcClientHandler>
      reads this
    {
      Registry(rpcProtocolSet, connectedServerNodes, pendingDials, closedHandlers, isRunning)
    }

    ghost predicate Valid()
      reads this, loadBalance
    {
      Inv(State()) && loadBalance.Valid()
    }

    constructor ()
      ensures Valid() && State() == Initial()
      ensures fresh(loadBalance) && loadBalance.roundRobin == 0
    {
      rpcProtocolSet := {};
      connectedServerNodes := map[];
      pendingDials := multiset{};
      closedHandlers := {};
      isRunning := true;
      loadBalance := new RpcLoadBalanceRoundRobin();
    }

    /** `connectServerNode(p)`, up to submitting the dial. */
    method ConnectServerNode(p: RpcProtocol)
      requires Valid()
      modifies this
      ensures Valid() && State() == Connect(old(State()), p)
    {
      if p.serviceInfoList.None? || |p.serviceInfoList.value| == 0 {
        return;
      }
      rpcProtocolSet := rpcProtocolSet + {p};
      pendingDials := pendingDials + multiset{p};
    }

    /** The dial listener on success: the handler is stored for `p` and learns its endpoint. */
    method DialSucceeded(p: RpcProtocol, handler: RpcClientHandler)
      requires Valid() && p in pendingDials
      modifies this, handler
      ensures Valid() && State() == RegistrySpec.DialSucceeded(old(State()), p, handler)
      ensures handler.rpcProtocol == Some(p)
      ensures handler.pendingRPC == old(handler.pendingRPC) && handler.written == old(handler.written)
    {
      ghost var r0 := State();
      connectedServerNodes := connectedServerNodes[p := handler];
      pendingDials := pendingDials - multiset{p};
      assert State() == RegistrySpec.DialSucceeded(r0, p, handler);
      InvPreservedByDials(r0, p, handler);
      handler.SetRpcProtocol(p);
    }

    /** The dial listener on failure: only logged. */
    method DialFailed(p: RpcProtocol)
      requires Valid() && p in pendingDials
      modifies this
      ensures Valid() && State() == RegistrySpec.DialFailed(old(State()), p)
    {
      pendingDials := pendingDials - multiset{p};
    }

    /** `removeAndCloseHandler(p)` */
    method RemoveAndCloseHandler(p: RpcProtocol)
      requires Valid()
      modifies this
      ensures Valid() && State() == RemoveAndClose(old(State()), p)
    {
      if p in connectedServerNodes {
        var handler := connectedServerNodes[p];
        closedHandlers := closedHandlers + {handler};
      }
      connectedServerNodes := connectedServerNodes - {p};
      rpcProtocolSet := rpcProtocolSet - {p};
      assert closedHandlers == old(closedHandlers) + HandlersOf(old(connectedServerNodes), {p});
    }

    /** `removeHandler(p)` */
    method RemoveHandler(p: RpcProtocol)
      requires Valid()
      modifies this
      ensures Valid() && State() == RegistrySpec.RemoveHandler(old(State()), p)
    {
      rpcProtocolSet := rpcProtocolSet - {p};
      connectedServerNodes := connectedServerNodes - {p};
    }

    /**
     * `updateConnectedServer(serviceList)`. `setOrder` is the iteration order
     * of the listed endpoints' hash set, `knownOrder` that of `rpcProtocolSet`
     * once the new endpoints are added.
     */
    method UpdateConnectedServer(serviceList: Option<seq<RpcProtocol>>,
                                 setOrder: seq<RpcProtocol>, knownOrder: seq<RpcProtocol>)
      requires Valid()
      requires IsEnumeration(setOrder, SnapshotSet(serviceList))
      requires IsEnumeration(knownOrder, rpcProtocolSet + Added(State(), SnapshotSet(serviceList)))
      modifies this
      ensures Valid() && State() == Reconcile(old(State()), serviceList)
    {
      ghost var r0 := State();
      ghost var s := SnapshotSet(serviceList);
      if serviceList.Some? && |serviceList.value| > 0 {
        var serviceSet := CollectListed(serviceList.value);
        assert serviceSet == s;
        ConnectUnknown(setOrder);
        EnumerationElems(setOrder, s);
        ghost var r1 := State();
        assert r1 == ConnectNew(r0, s);
        EnumerationElems(knownOrder, r1.known);
        assert Elems(knownOrder) - serviceSet == r1.known - s;
        RemoveAndCloseUnlisted(knownOrder, serviceSet);
        ReconcileInSteps(r0, serviceList, r1, State());
      } else {
        EmptySnapshotAddsNothing(r0, serviceList);
        EnumerationElems(knownOrder, r0.known);
        assert Elems(knownOrder) - {} == r0.known - s;
        RemoveAndCloseUnlisted(knownOrder, {});
        ReconcileInSteps(r0, serviceList, r0, State());
      }
    }

    /** The first loop of `updateConnectedServer(serviceList)`: the hash set of the listed endpoints. */
    method CollectListed(list: seq<RpcProtocol>) returns (serviceSet: set<RpcProtocol>)
      ensures forall p :: p in serviceSet <==> p in list
    {
      serviceSet := {};
      var i := 0;
      while i < |list|
        invariant 0 <= i <= |list|
        invariant serviceSet == Elems(list[..i])
      {
        ElemsPrefixStep(list, i);
        serviceSet := serviceSet + {list[i]};
        i := i + 1;
      }
      assert list[..i] == list;
    }

    /**
     * The connect loop of `updateConnectedServer(serviceList)`: each endpoint
     * of `order` not yet in `rpcProtocolSet` is connected.
     */
    method ConnectUnknown(order: seq<RpcProtocol>)
      requires Valid()
      requires forall i, j :: 0 <= i < j < |order| ==> order[i] != order[j]
      modifies this
      ensures Valid() && State() == ConnectNew(old(State()), Elems(order))
    {
      ghost var r0 := State();
      assert Elems(order[..0]) == {};
      assert Added(r0, {}) == {};
      assert multiset(Added(r0, {})) == multiset{};
      var j := 0;
      while j < |order|
        invariant 0 <= j <= |order|
        invariant Valid()
        invariant State() == ConnectNew(r0, Elems(order[..j]))
      {
        var p := order[j];
        DistinctPrefix(order, j);
        ElemsPrefixStep(order, j);
        ConnectNewStep(r0, Elems(order[..j]), p);
        if p !in rpcProtocolSet {
          ConnectServerNode(p);
        }
        j := j + 1;
      }
      assert order[..j] == order;
    }

    /**
     * The removal loop of `updateConnectedServer(serviceList)`: each endpoint
     * of `order` that `keep` does not hold is removed and its handler closed.
     */
    method RemoveAndCloseUnlisted(order: seq<RpcProtocol>, keep: set<RpcProtocol>)
      requires Valid()
      requires forall i, j :: 0 <= i < j < |order| ==> order[i] != order[j]
      modifies this
      ensures Valid() && State() == RemoveAllAndClose(old(State()), Elems(order) - keep)
    {
      ghost var r0 := State();
      var k := 0;
      while k < |order|
        invariant 0 <= k <= |order|
        invariant Valid()
        invariant State() == RemoveAllAndClose(r0, Elems(order[..k]) - keep)
      {
        var p := order[k];
        RemoveUnlistedStep(r0, order, k, keep);
        if p !in keep {
          RemoveAndCloseHandler(p);
        }
        k := k + 1;
      }
      assert order[..k] == order;
    }

    /** `updateConnectedServer(p, type)`: an accepted event updates the state, a rejected one throws and changes nothing. */
    method UpdateConnectedServerEvent(p: Option<RpcProtocol>, t: EventType) returns (thrown: Option<string>)
      requires Valid()
      modifies this
      ensures Valid()
      ensures ApplyEvent(old(State()), p, t).Success? ==>
                thrown.None? && State() == ApplyEvent(old(State()), p, t).value
      ensures ApplyEvent(old(State()), p, t).Failure? ==>
                thrown == Some(ApplyEvent(old(State()), p, t).error) && State() == old(State())
    {
      if p.None? {
        return None;
      }
      var rpcProtocol := p.value;
      if t == ChildAdded && rpcProtocol !in rpcProtocolSet {
        ConnectServerNode(rpcProtocol);
      } else if t == ChildUpdated {
        RemoveAndCloseHandler(rpcProtocol);
        ConnectServerNode(rpcProtocol);
      } else if t == ChildRemoved {
        RemoveAndCloseHandler(rpcProtocol);
      } else {
        return Some("java.lang.IllegalArgumentException: Unknow type:" + EventTypeName(t));
      }
      thrown := None;
    }

    /**
     * `chooseHandler(serviceKey)` once its wait loop has ended (a connection
     * exists or the manager was stopped), with the connected map's key set
     * iterated in `order`: the handler of the endpoint the round robin picks,
     * or the routing error.
     */
    method ChooseHandler(serviceKey: string, order: seq<RpcProtocol>) returns (r: Result<RpcClientHandler>)
      requires Valid()
      requires |connectedServerNodes| > 0 || !isRunning
      requires IsEnumeration(order, connectedServerNodes.Keys)
      modifies loadBalance
      ensures Valid() && AllListed(order)
      ensures var q := Routed(order, serviceKey, old(loadBalance.roundRobin));
              if q.None? then
                r == Failure(NoConnection(serviceKey)) && loadBalance.roundRobin == old(loadBalance.roundRobin)
              else
                && q.value in connectedServerNodes
                && r == Success(connectedServerNodes[q.value])
                && loadBalance.roundRobin == Wrap(old(loadBalance.roundRobin) + 1)
    {
      assert AllListed(order) by {
        forall i | 0 <= i < |order| ensures order[i].serviceInfoList.Some? {
          assert order[i] in connectedServerNodes;
        }
      }
      ghost var c := loadBalance.roundRobin;
      var routed := loadBalance.Route(serviceKey, connectedServerNodes, order);
      if routed.Failure? {
        return Failure(routed.error);
      }
      var rpcProtocol := routed.value;
      RoutedEndpointAdvertises(order, serviceKey, c);
      r := Success(connectedServerNodes[rpcProtocol]);
    }

    /** `stop()`, with `rpcProtocolSet` iterated in `order`. */
    method Stop(order: seq<RpcProtocol>)
      requires Valid()
      requires IsEnumeration(order, rpcProtocolSet)
      modifies this
      ensures Valid() && State() == RegistrySpec.Stop(old(State()))
    {
      isRunning := false;
      ghost var r0 := State();
      var k := 0;
      while k < |order|
        invariant 0 <= k <= |order|
        invariant Valid()
        invariant State() == RemoveAllAndClose(r0, Elems(order[..k]))
      {
        var p := order[k];
        DistinctPrefix(order, k);
        ElemsPrefixStep(order, k);
        RemoveAllStep(r0, Elems(order[..k]), p);
        RemoveAndCloseHandler(p);
        k := k + 1;
      }
      assert order[..k] == order;
    }
  }

  /** Every connected endpoint has a service list, so the routing functions apply to the connected map. */
  lemma ConnectedAllListed(manager: ConnectionManager, order: seq<RpcProtocol>)
    requires manager.Valid() && IsEnumeration(order, manager.connectedServerNodes.Keys)
    ensures AllListed(order)
  {
    forall i | 0 <= i < |order| ensures order[i].serviceInfoList.Some? {
      assert order[i] in manager.connectedServerNodes;
    }
  }

  /** The endpoints a sequence holds. */
  ghost function Elems(s: seq<RpcProtocol>): set<RpcProtocol>
  {
    set q | q in s
  }

  /** An enumeration holds exactly the elements of the set it enumerates. */
  lemma EnumerationElems(order: seq<RpcProtocol>, keys: set<RpcProtocol>)
    requires IsEnumeration(order, keys)
    ensures Elems(order) == keys
  {
  }

  /** One step of the removal loop: removing `order[k]` unless `keep` holds it extends the removed prefix by one. */
  lemma RemoveUnlistedStep<H>(r: Registry<H>, order: seq<RpcProtocol>, k: nat, keep: set<RpcProtocol>)
    requires k < |order|
    requires forall i, j :: 0 <= i < j < |order| ==> order[i] != order[j]
    ensures order[k] !in keep ==>
      RemoveAndClose(RemoveAllAndClose(r, Elems(order[..k]) - keep), order[k]) == RemoveAllAndClose(r, Elems(order[..k + 1]) - keep)
    ensures order[k] in keep ==>
      RemoveAllAndClose(r, Elems(order[..k]) - keep) == RemoveAllAndClose(r, Elems(order[..k + 1]) - keep)
  {
    DistinctPrefix(order, k);
    ElemsPrefixStep(order, k);
    if order[k] !in keep {
      RemoveAllStep(r, Elems(order[..k]) - keep, order[k]);
      assert Elems(order[..k + 1]) - keep == (Elems(order[..k]) - keep) + {order[k]};
    } else {
      assert Elems(order[..k + 1]) - keep == Elems(order[..k]) - keep;
    }
  }

  /** Taking one more element of a sequence adds that element. */
  lemma ElemsPrefixStep(s: seq<RpcProtocol>, k: nat)
    requires k < |s|
    ensures Elems(s[..k + 1]) == Elems(s[..k]) + {s[k]}
  {
    assert s[..k + 1] == s[..k] + [s[k]];
  }

  /** In a sequence without repetitions, no element occurs before its own position. */
  lemma DistinctPrefix(s: seq<RpcProtocol>, k: nat)
    requires k < |s|
    requires forall i, j :: 0 <= i < j < |s| ==> s[i] != s[j]
    ensures s[k] !in Elems(s[..k])
  {
    forall m | 0 <= m < k ensures s[..k][m] != s[k] {
      assert s[..k][m] == s[m];
    }
  }

  /** One more listed endpoint adds itself to what a reconcile dials exactly when it is new and has services. */
  lemma AddedStep<H>(r: Registry<H>, done: set<RpcProtocol>, p: RpcProtocol)
    requires p !in done
    ensures p !in Added(r, done)
    ensures Added(r, done + {p}) == if p !in r.known && HasServices(p) then Added(r, done) + {p} else Added(r, done)
  {
  }

  /** One step of the connect loop: the next listed endpoint is connected unless already known. */
  lemma ConnectNewStep<H>(r: Registry<H>, done: set<RpcProtocol>, p: RpcProtocol)
    requires p !in done
    ensures var before := ConnectNew(r, done);
            ConnectNew(r, done + {p}) == if p in before.known then before else Connect(before, p)
  {
    AddedStep(r, done, p);
    var a := Added(r, done);
    if p !in r.known && HasServices(p) {
      assert multiset(a + {p}) == multiset(a) + multiset{p};
    }
  }
}
