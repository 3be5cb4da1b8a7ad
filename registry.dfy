/**
 * The client's view of the server endpoints, as a value: the endpoints known
 * from the registry, the endpoints with an open connection and their
 * handlers, the dials still in flight, the handlers asked to close, and the
 * running flag. Every operation of the connection manager is a function on
 * this value; the manager's methods are proved to follow them.
 */
module RegistrySpec {
  import opened Wrappers
  import opened Protocol

  /** Curator's `PathChildrenCacheEvent.Type`. */
  datatype EventType =
    | ChildAdded | ChildUpdated | ChildRemoved
    | ConnectionSuspended | ConnectionReconnected | ConnectionLost | Initialized

  /** The enum constant's name, as `toString` gives it. */
  function EventTypeName(t: EventType): string
  {
    match t
    case ChildAdded => "CHILD_ADDED"
    case ChildUpdated => "CHILD_UPDATED"
    case ChildRemoved => "CHILD_REMOVED"
    case ConnectionSuspended => "CONNECTION_SUSPENDED"
    case ConnectionReconnected => "CONNECTION_RECONNECTED"
    case ConnectionLost => "CONNECTION_LOST"
    case Initialized => "INITIALIZED"
  }

  /**
   * `rpcProtocolSet` is `known`, `connectedServerNodes` is `connected`,
   * `isRunning` is `running`; `dialing` holds one entry per connection
   * attempt submitted and not yet completed, `closed` the handlers that were
   * told to close.
   */
  datatype Registry<H> = Registry(
    known: set<RpcProtocol>,
    connected: map<RpcProtocol, H>,
    dialing: multiset<RpcProtocol>,
    closed: set<H>,
    running: bool)

  /** The manager as constructed: empty and running. */
  function Initial<H>(): Registry<H>
  {
    Registry({}, map[], multiset{}, {}, true)
  }

  /** An endpoint worth connecting to: its service list is neither null nor empty. */
  predicate HasServices(p: RpcProtocol)
  {
    p.serviceInfoList.Some? && |p.serviceInfoList.value| > 0
  }

  /** Only endpoints with services are ever known, dialed or connected. */
  ghost predicate Inv<H>(r: Registry<H>)
  {
    && (forall p :: p in r.known ==> HasServices(p))
    && (forall p :: p in r.dialing ==> HasServices(p))
    && (forall p :: p in r.connected ==> HasServices(p))
  }

  /** `connectServerNode(p)`: skipped without services, else known at once and a dial submitted. */
  function Connect<H>(r: Registry<H>, p: RpcProtocol): (r': Registry<H>)
    ensures r'.connected == r.connected && r'.closed == r.closed && r'.running == r.running
    ensures r.known <= r'.known && r.dialing <= r'.dialing
  {
    if !HasServices(p) then r
    else r.(known := r.known + {p}, dialing := r.dialing + multiset{p})
  }

  /** The listener of a successful dial: an unconditional put. */
  function DialSucceeded<H>(r: Registry<H>, p: RpcProtocol, h: H): Registry<H>
    requires p in r.dialing
  {
    r.(connected := r.connected[p := h], dialing := r.dialing - multiset{p})
  }

  /** The listener of a failed dial: only logged. */
  function DialFailed<H>(r: Registry<H>, p: RpcProtocol): Registry<H>
    requires p in r.dialing
  {
    r.(dialing := r.dialing - multiset{p})
  }

  /** The handlers of those endpoints in `ps` that have one. */
  function HandlersOf<H>(connected: map<RpcProtocol, H>, ps: set<RpcProtocol>): set<H>
  {
    set p | p in ps && p in connected :: connected[p]
  }

  /** `removeAndCloseHandler(p)`: closes its handler if it has one, then forgets it in both collections. */
  function RemoveAndClose<H>(r: Registry<H>, p: RpcProtocol): (r': Registry<H>)
    ensures p !in r'.known && p !in r'.connected
    ensures forall q :: q != p ==> (q in r'.known <==> q in r.known)
    ensures forall q :: q != p ==> (q in r'.connected <==> q in r.connected)
    ensures r'.closed == if p in r.connected then r.closed + {r.connected[p]} else r.closed
    ensures r'.dialing == r.dialing && r'.running == r.running
  {
    r.(connected := r.connected - {p}, known := r.known - {p}, closed := r.closed + HandlersOf(r.connected, {p}))
  }

  /** `removeAndCloseHandler` applied to every endpoint of `ps`, in any order. */
  function RemoveAllAndClose<H>(r: Registry<H>, ps: set<RpcProtocol>): Registry<H>
  {
    r.(connected := r.connected - ps, known := r.known - ps, closed := r.closed + HandlersOf(r.connected, ps))
  }

  /** `removeHandler(p)`: forgets `p` in both collections without closing anything. */
  function RemoveHandler<H>(r: Registry<H>, p: RpcProtocol): Registry<H>
  {
    r.(known := r.known - {p}, connected := r.connected - {p})
  }

  /** The endpoints a snapshot lists: none when the list is null or empty. */
  function SnapshotSet(snapshot: Option<seq<RpcProtocol>>): set<RpcProtocol>
  {
    if snapshot.None? then {} else set p | p in snapshot.value
  }

  /** The endpoints of `s` a reconcile dials: not yet known, and with services. */
  function Added<H>(r: Registry<H>, s: set<RpcProtocol>): set<RpcProtocol>
  {
    set p | p in s && p !in r.known && HasServices(p)
  }

  /** The first loop of `updateConnectedServer(list)`: every listed, unknown endpoint is connected. */
  function ConnectNew<H>(r: Registry<H>, s: set<RpcProtocol>): Registry<H>
  {
    r.(known := r.known + Added(r, s), dialing := r.dialing + multiset(Added(r, s)))
  }

  /**
   * `updateConnectedServer(list)`: connect to what is new, then remove and
   * close every known endpoint the snapshot does not list. A null or empty
   * list removes every known endpoint.
   */
  function Reconcile<H>(r: Registry<H>, snapshot: Option<seq<RpcProtocol>>): (r': Registry<H>)
    ensures r'.known <= SnapshotSet(snapshot)
    ensures r'.connected.Keys <= r.connected.Keys && r.dialing <= r'.dialing
    ensures r'.running == r.running
  {
    var s := SnapshotSet(snapshot);
    var r1 := ConnectNew(r, s);
    RemoveAllAndClose(r1, r1.known - s)
  }

  /** A null or empty snapshot lists nothing, so its first loop dials nothing. */
  lemma EmptySnapshotAddsNothing<H>(r: Registry<H>, snapshot: Option<seq<RpcProtocol>>)
    requires snapshot.None? || |snapshot.value| == 0
    ensures SnapshotSet(snapshot) == {} && ConnectNew(r, SnapshotSet(snapshot)) == r
  {
    assert Added(r, {}) == {};
    assert multiset(Added(r, {})) == multiset{};
  }

  /** `Reconcile` is its two loops run one after the other. */
  lemma ReconcileInSteps<H>(r: Registry<H>, snapshot: Option<seq<RpcProtocol>>, r1: Registry<H>, r2: Registry<H>)
    requires r1 == ConnectNew(r, SnapshotSet(snapshot))
    requires r2 == RemoveAllAndClose(r1, r1.known - SnapshotSet(snapshot))
    ensures r2 == Reconcile(r, snapshot)
  {
  }

  /** `updateConnectedServer(p, type)`: one registry event. */
  function ApplyEvent<H>(r: Registry<H>, p: Option<RpcProtocol>, t: EventType): (r': Result<Registry<H>>)
    ensures r'.Failure? <==> p.Some? && (t == ChildAdded ==> p.value in r.known) && t !in {ChildUpdated, ChildRemoved}
    ensures r'.Success? ==>
              && r'.value.connected.Keys <= r.connected.Keys && r.dialing <= r'.value.dialing
              && r'.value.running == r.running
  {
    if p.None? then Success(r)
    else if t == ChildAdded && p.value !in r.known then Success(Connect(r, p.value))
    else if t == ChildUpdated then Success(Connect(RemoveAndClose(r, p.value), p.value))
    else if t == ChildRemoved then Success(RemoveAndClose(r, p.value))
    else Failure("java.lang.IllegalArgumentException: Unknow type:" + EventTypeName(t))
  }

  /** `stop()`: no longer running, and every known endpoint removed and closed. */
  function Stop<H>(r: Registry<H>): (r': Registry<H>)
    ensures !r'.running && r'.known == {}
    ensures r'.dialing == r.dialing
  {
    RemoveAllAndClose(r.(running := false), r.known)
  }

  // ---------------------------------------------------------------------------
  // Properties

  /** Removing a set one endpoint at a time is removing it all at once. */
  lemma RemoveAllStep<H>(r: Registry<H>, ps: set<RpcProtocol>, p: RpcProtocol)
    requires p !in ps
    ensures RemoveAndClose(RemoveAllAndClose(r, ps), p) == RemoveAllAndClose(r, ps + {p})
  {
    var left := RemoveAndClose(RemoveAllAndClose(r, ps), p);
    var right := RemoveAllAndClose(r, ps + {p});
    assert left.closed == right.closed by {
      assert HandlersOf(r.connected - ps, {p}) == HandlersOf(r.connected, {p});
    }
    assert left.connected == right.connected;
  }

  /** Connecting, removing and stopping keep `Inv`: nothing without services is ever known, dialed or connected. */
  lemma InvPreservedByUpdates<H>(r: Registry<H>, p: RpcProtocol, ps: set<RpcProtocol>)
    requires Inv(r)
    ensures Inv(Connect(r, p)) && Inv(RemoveAndClose(r, p)) && Inv(RemoveHandler(r, p))
    ensures Inv(RemoveAllAndClose(r, ps)) && Inv(Stop(r))
  {
  }

  /** Completing a dial, either way, keeps `Inv`. */
  lemma InvPreservedByDials<H>(r: Registry<H>, p: RpcProtocol, h: H)
    requires Inv(r) && p in r.dialing
    ensures Inv(DialSucceeded(r, p, h)) && Inv(DialFailed(r, p))
  {
  }

  /** A reconcile keeps `Inv`. */
  lemma InvPreservedByReconcile<H>(r: Registry<H>, snapshot: Option<seq<RpcProtocol>>)
    requires Inv(r)
    ensures Inv(Reconcile(r, snapshot))
  {
    var s := SnapshotSet(snapshot);
    var r1 := ConnectNew(r, s);
    forall p | p in r1.dialing ensures HasServices(p) {
      assert p in r.dialing || p in multiset(Added(r, s));
    }
    InvPreservedByUpdates(r1, RpcProtocol(None, 0, None), r1.known - s);
  }

  /** An accepted registry event keeps `Inv`. */
  lemma InvPreservedByEvent<H>(r: Registry<H>, q: Option<RpcProtocol>, t: EventType)
    requires Inv(r)
    ensures ApplyEvent(r, q, t).Success? ==> Inv(ApplyEvent(r, q, t).value)
  {
    if q.Some? {
      InvPreservedByUpdates(r, q.value, {});
      InvPreservedByUpdates(RemoveAndClose(r, q.value), q.value, {});
    }
  }

  /**
   * After a reconcile the known endpoints are exactly the listed endpoints
   * that have services; every new one of them has a dial submitted, and no
   * endpoint that stays known is dialed again.
   */
  lemma ReconcileKnownIsSnapshot<H>(r: Registry<H>, snapshot: Option<seq<RpcProtocol>>)
    requires Inv(r)
    ensures Reconcile(r, snapshot).known == set p | p in SnapshotSet(snapshot) && HasServices(p)
    ensures Reconcile(r, snapshot).dialing
         == r.dialing + multiset(set p | p in SnapshotSet(snapshot) && p !in r.known && HasServices(p))
  {
  }

  /**
   * A reconcile removes and closes exactly the known endpoints the snapshot
   * omits; connections of other endpoints are untouched, and nothing is
   * connected by the reconcile itself.
   */
  lemma ReconcileRemovesStale<H>(r: Registry<H>, snapshot: Option<seq<RpcProtocol>>, p: RpcProtocol)
    ensures var r' := Reconcile(r, snapshot);
            p in r'.connected <==> p in r.connected && (p in SnapshotSet(snapshot) || p !in r.known)
    ensures var r' := Reconcile(r, snapshot);
            p in r'.connected ==> r'.connected[p] == r.connected[p]
    ensures var r' := Reconcile(r, snapshot);
            r'.closed == r.closed + HandlersOf(r.connected, r.known - SnapshotSet(snapshot))
  {
    var s := SnapshotSet(snapshot);
    var r1 := ConnectNew(r, s);
    assert r1.known - s == r.known - s;
  }

  /** A null or empty snapshot forgets every known endpoint in both collections. */
  lemma EmptySnapshotRemovesAll<H>(r: Registry<H>, snapshot: Option<seq<RpcProtocol>>)
    requires snapshot.None? || |snapshot.value| == 0
    ensures Reconcile(r, snapshot).known == {}
    ensures Reconcile(r, snapshot).connected == r.connected - r.known
    ensures Reconcile(r, snapshot).dialing == r.dialing
  {
    assert SnapshotSet(snapshot) == {};
    assert Added(r, {}) == {};
  }

  /**
   * Applying the same snapshot twice with no event in between changes
   * nothing the second time: no endpoint is dialed or removed again.
   */
  lemma ReconcileIdempotent<H>(r: Registry<H>, snapshot: Option<seq<RpcProtocol>>)
    ensures Reconcile(Reconcile(r, snapshot), snapshot) == Reconcile(r, snapshot)
  {
    var s := SnapshotSet(snapshot);
    var r2 := Reconcile(r, snapshot);
    forall p | p in s && HasServices(p) ensures p in r2.known {
      if p !in r.known {
        assert p in Added(r, s);
      }
    }
    assert Added(r2, s) == {};
    ReconcileSettled(r2, snapshot);
  }

  /** A state that already knows every listed endpoint with services, and nothing else, is left as it is. */
  lemma ReconcileSettled<H>(r: Registry<H>, snapshot: Option<seq<RpcProtocol>>)
    requires Added(r, SnapshotSet(snapshot)) == {} && r.known <= SnapshotSet(snapshot)
    ensures Reconcile(r, snapshot) == r
  {
    var s := SnapshotSet(snapshot);
    assert multiset(Added(r, s)) == multiset{};
    var r1 := ConnectNew(r, s);
    assert r1.known == r.known && r1.dialing == r.dialing;
    assert r1 == r;
    assert r1.known - s == {};
    assert HandlersOf(r.connected, {}) == {};
    assert r.connected - {} == r.connected;
  }

  /**
   * An endpoint dialed by a reconcile whose dial then fails stays known, so
   * the next identical snapshot does not dial it again.
   */
  lemma FailedDialNotRetried<H>(r: Registry<H>, snapshot: Option<seq<RpcProtocol>>, p: RpcProtocol)
    requires p in SnapshotSet(snapshot) && p !in r.known && HasServices(p)
    ensures p in Reconcile(r, snapshot).dialing
    ensures var failed := DialFailed(Reconcile(r, snapshot), p);
            p in failed.known && Reconcile(failed, snapshot) == failed
  {
    var s := SnapshotSet(snapshot);
    var r2 := Reconcile(r, snapshot);
    assert p in Added(r, s);
    var failed := DialFailed(r2, p);
    forall q | q in s && HasServices(q) ensures q in failed.known {
      if q !in r.known {
        assert q in Added(r, s);
      }
    }
    assert Added(failed, s) == {};
    ReconcileSettled(failed, snapshot);
  }

  /**
   * The connected map is not kept inside the known set: a dial that completes
   * after its endpoint was removed puts it back into `connected` only.
   */
  lemma LateDialLeavesUnknownConnection<H>(r: Registry<H>, p: RpcProtocol, h: H)
    requires HasServices(p) && p !in r.known
    ensures var r' := DialSucceeded(RemoveAndClose(Connect(r, p), p), p, h);
            p in r'.connected && p !in r'.known
  {
  }

  /** `stop()` forgets every known endpoint in both collections and clears the running flag. */
  lemma StopForgetsKnown<H>(r: Registry<H>)
    ensures !Stop(r).running && Stop(r).known == {}
    ensures forall p :: p in r.known ==> p !in Stop(r).connected
    ensures Stop(r).closed == r.closed + HandlersOf(r.connected, r.known)
  {
  }

  /**
   * UPDATED of an endpoint with services closes exactly the handler it had,
   * drops its connection, keeps it known and submits exactly one new dial;
   * every other endpoint keeps its place in both collections.
   */
  lemma UpdatedEventRedials<H>(r: Registry<H>, p: RpcProtocol)
    requires HasServices(p)
    ensures ApplyEvent(r, Some(p), ChildUpdated).Success?
    ensures var r' := ApplyEvent(r, Some(p), ChildUpdated).value;
            && r'.closed == r.closed + HandlersOf(r.connected, {p})
            && p !in r'.connected && p in r'.known
            && r'.dialing == r.dialing + multiset{p}
            && (forall q :: q != p ==> (q in r'.connected <==> q in r.connected) && (q in r'.known <==> q in r.known))
  {
    var r1 := RemoveAndClose(r, p);
    assert r1.closed == r.closed + HandlersOf(r.connected, {p}) by {
      if p in r.connected {
        assert HandlersOf(r.connected, {p}) == {r.connected[p]};
      } else {
        assert HandlersOf(r.connected, {p}) == {};
      }
    }
  }

  /**
   * A second ADDED of a known endpoint is rejected with the "Unknow type"
   * error and changes nothing, though the type is known.
   */
  lemma AddedTwiceRejected<H>(r: Registry<H>, p: RpcProtocol)
    requires HasServices(p)
    ensures ApplyEvent(Connect(r, p), Some(p), ChildAdded)
         == Failure("java.lang.IllegalArgumentException: Unknow type:CHILD_ADDED")
  {
  }

  /** A connect never connects: `connected` changes only when a dial completes. */
  lemma ConnectOnlyDials<H>(r: Registry<H>, p: RpcProtocol)
    ensures Connect(r, p).connected == r.connected
    ensures HasServices(p) <==> p in Connect(r, p).known && Connect(r, p).dialing[p] == r.dialing[p] + 1
  {
  }
}
