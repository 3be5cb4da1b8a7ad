/**
 * `RpcLoadBalanceRoundRobin`: one 32-bit counter, shared by every service
 * key, picks the next endpoint from the list of endpoints that advertise the
 * requested key.
 */
module RoundRobin {
  import opened Wrappers
  import opened JavaLang
  import opened Protocol
  import opened LoadBalance

  /**
   * The index as written: `(counter + size) % size` in `int` arithmetic. Once
   * the counter has wrapped to a negative value the sum may still be negative,
   * and Java's `%` then gives a negative index.
   */
  function IndexAsWritten(counter: int, size: int): (i: int)
    requires size > 0
    ensures -size < i < size
    ensures i < 0 ==> Wrap(counter + size) < 0
  {
    Rem(Wrap(counter + size), size)
  }

  /** The index the rotation is meant to use: the counter modulo the list size. */
  function RoundRobinIndex(counter: int, size: int): (i: int)
    requires size > 0
    ensures 0 <= i < size
  {
    counter % size
  }

  /**
   * With three endpoints the sum `counter + 3` first wraps at the counter
   * value `INT_MAX - 2`, reached after 2^31 - 3 calls: the index as written
   * is then -2, and `addressList.get(-2)` throws. It is -2 again once the
   * counter itself has wrapped to `INT_MIN`.
   */
  lemma AsWrittenNegativeAfterWrap()
    ensures Wrap(INT_MAX + 1) == INT_MIN
    ensures IndexAsWritten(INT_MAX - 2, 3) == -2
    ensures IndexAsWritten(INT_MIN, 3) == -2
  {
  }

  /** Before any wrap-around the index as written and the intended index agree. */
  lemma AsWrittenAgreesBeforeWrap(counter: int, size: int)
    requires size > 0 && 0 <= counter && counter + size <= INT_MAX
    ensures IndexAsWritten(counter, size) == RoundRobinIndex(counter, size)
  {
    assert Wrap(counter + size) == counter + size;
    ModShift(counter, 1, size);
  }

  /** `(a + k * n) % n == a % n` */
  lemma ModShift(a: int, k: int, n: int)
    requires n > 0
    ensures (a + k * n) % n == a % n
  {
    var q := a / n;
    var r := a % n;
    assert a == q * n + r;
    assert a + k * n == (q + k) * n + r;
    ModUnique(a + k * n, q + k, r, n);
  }

  /** The only multiple of `n` strictly between `-n` and `n` is zero. */
  lemma MultipleInOpenRange(d: int, n: int)
    requires n > 0 && -n < d * n < n
    ensures d == 0
  {
    MulAtLeast(if d >= 0 then d else 0, n);
    MulAtLeast(if d <= 0 then -d else 0, n);
    assert (-d) * n == -(d * n);
  }

  /** A positive multiple of `n` is at least `n`. */
  lemma {:induction false} MulAtLeast(x: nat, n: int)
    requires n > 0
    ensures x >= 1 ==> x * n >= n
  {
    if x > 1 {
      MulAtLeast(x - 1, n);
      assert x * n == (x - 1) * n + n;
    }
  }

  /** The remainder is the unique value in `[0, n)` that differs from `y` by a multiple of `n`. */
  lemma ModUnique(y: int, q: int, r: int, n: int)
    requires n > 0 && 0 <= r < n && y == q * n + r
    ensures y % n == r && y / n == q
  {
    var q' := y / n;
    var r' := y % n;
    assert y == q' * n + r';
    assert (q - q') * n == r' - r;
    MultipleInOpenRange(q - q', n);
  }

  /** Adding to a wrapped sum wraps like adding to the exact sum. */
  lemma WrapAdd(a: int, b: int)
    ensures Wrap(Wrap(a) + b) == Wrap(a + b)
  {
    var q := (a - INT_MIN) / TWO_POW_32;
    assert Wrap(a) - INT_MIN == (a - INT_MIN) - q * TWO_POW_32;
    assert Wrap(a) + b - INT_MIN == (a + b - INT_MIN) + (-q) * TWO_POW_32;
    ModShift(a + b - INT_MIN, -q, TWO_POW_32);
  }

  /** The index chosen by the call made `t` calls after the counter stood at `counter`. */
  function IndexAfter(counter: int, t: nat, size: int): int
    requires size > 0
  {
    RoundRobinIndex(Wrap(counter + t), size)
  }

  /** The indices chosen by the next `size` calls, in call order. */
  function Rotation(counter: int, size: int): seq<int>
    requires size > 0
  {
    seq(size, t requires 0 <= t < size => IndexAfter(counter, t, size))
  }

  /**
   * Fairness: from a counter that does not wrap within the next `size` calls,
   * `size` consecutive calls visit every index of the list exactly once.
   */
  lemma RotationVisitsEachIndexOnce(counter: int, size: int)
    requires size > 0 && IsInt(counter) && counter + size - 1 <= INT_MAX
    ensures forall a, b :: 0 <= a < size && 0 <= b < size && Rotation(counter, size)[a] == Rotation(counter, size)[b]
              ==> a == b
    ensures forall i :: 0 <= i < size ==> i in Rotation(counter, size)
  {
    var v := Rotation(counter, size);
    forall a, b | 0 <= a < size && 0 <= b < size && v[a] == v[b]
      ensures a == b
    {
      IndexAfterInjective(counter, size, a, b);
    }
    forall i | 0 <= i < size
      ensures i in v
    {
      var t := IndexAfterReaches(counter, size, i);
      assert v[t] == i;
    }
  }

  /** Without wrap, two calls among the next `size` pick the same index only if they are the same call. */
  lemma IndexAfterInjective(counter: int, size: int, a: nat, b: nat)
    requires size > 0 && IsInt(counter) && counter + size - 1 <= INT_MAX
    requires a < size && b < size && IndexAfter(counter, a, size) == IndexAfter(counter, b, size)
    ensures a == b
  {
    assert Wrap(counter + a) == counter + a && Wrap(counter + b) == counter + b;
    var qa := (counter + a) / size;
    var qb := (counter + b) / size;
    var r := (counter + a) % size;
    assert r == (counter + b) % size;
    assert counter + a == qa * size + r;
    assert counter + b == qb * size + r;
    assert (qb - qa) * size == b - a;
    MultipleInOpenRange(qb - qa, size);
  }

  /** Without wrap, every index of the list is picked by one of the next `size` calls. */
  lemma IndexAfterReaches(counter: int, size: int, i: int) returns (t: nat)
    requires size > 0 && IsInt(counter) && counter + size - 1 <= INT_MAX
    requires 0 <= i < size
    ensures t < size && IndexAfter(counter, t, size) == i
  {
    t := (i - counter) % size;
    var q := (i - counter) / size;
    assert i - counter == q * size + t;
    assert counter + t == (-q) * size + i;
    ModUnique(counter + t, -q, i, size);
    assert Wrap(counter + t) == counter + t;
  }

  /**
   * `calls` consecutive `doRoute(addressList)` calls on one balancer, in call
   * order: call `t` picks the index of the counter value `t` steps on, so
   * `size` calls pick the indices of `Rotation`, and when the counter does
   * not wrap meanwhile, every endpoint of the list.
   */
  method DoRouteRepeatedly(lb: RpcLoadBalanceRoundRobin, addressList: seq<RpcProtocol>, calls: nat)
    returns (picks: seq<RpcProtocol>)
    requires lb.Valid() && |addressList| > 0
    modifies lb
    ensures lb.Valid() && lb.roundRobin == Wrap(old(lb.roundRobin) + calls)
    ensures |picks| == calls
    ensures forall t :: 0 <= t < calls ==> picks[t] == addressList[IndexAfter(old(lb.roundRobin), t, |addressList|)]
    ensures calls == |addressList| ==>
              forall t :: 0 <= t < calls ==> picks[t] == addressList[Rotation(old(lb.roundRobin), calls)[t]]
    ensures calls == |addressList| && old(lb.roundRobin) + calls - 1 <= INT_MAX ==>
              forall i :: 0 <= i < |addressList| ==> addressList[i] in picks
  {
    var c := lb.roundRobin;
    var n := |addressList|;
    picks := [];
    var t := 0;
    while t < calls
      invariant 0 <= t <= calls
      invariant lb.Valid() && lb.roundRobin == Wrap(c + t)
      invariant |picks| == t
      invariant forall k :: 0 <= k < t ==> picks[k] == addressList[IndexAfter(c, k, n)]
    {
      var r := lb.DoRoute(addressList);
      picks := picks + [r.value];
      WrapAdd(c + t, 1);
      t := t + 1;
    }
    if calls == n && c + calls - 1 <= INT_MAX {
      RotationPicksEach(addressList, c, picks);
    }
  }

  /** Picks made in `Rotation` order from a counter that does not wrap include every endpoint of the list. */
  lemma RotationPicksEach(addressList: seq<RpcProtocol>, counter: int, picks: seq<RpcProtocol>)
    requires |addressList| > 0 && IsInt(counter) && counter + |addressList| - 1 <= INT_MAX
    requires |picks| == |addressList|
    requires forall t :: 0 <= t < |picks| ==> picks[t] == addressList[Rotation(counter, |addressList|)[t]]
    ensures forall i :: 0 <= i < |addressList| ==> addressList[i] in picks
  {
    var n := |addressList|;
    RotationVisitsEachIndexOnce(counter, n);
    var v := Rotation(counter, n);
    forall i | 0 <= i < n
      ensures addressList[i] in picks
    {
      assert i in v;
      var k :| 0 <= k < n && v[k] == i;
      assert picks[k] == addressList[i];
    }
  }

  /** The text of `new Exception("Can not find connection for service: " + key)`. */
  function NoConnection(serviceKey: string): string
  {
    "java.lang.Exception: Can not find connection for service: " + serviceKey
  }

  const DIVIDE_BY_ZERO: string := "java.lang.ArithmeticException: / by zero"

  /** Whatever `route` returns is a connected endpoint that advertises the requested key. */
  lemma RoutedEndpointAdvertises(order: seq<RpcProtocol>, serviceKey: string, counter: int)
    requires AllListed(order)
    requires forall i, j :: 0 <= i < j < |order| ==> order[i] != order[j]
    ensures var q := Routed(order, serviceKey, counter);
            q.Some? ==>
              q.value in order &&
              exists i :: 0 <= i < |q.value.serviceInfoList.value| && ServiceKey(q.value.serviceInfoList.value[i]) == serviceKey
  {
    var q := Routed(order, serviceKey, counter);
    if q.Some? {
      ListedIffAdvertised(order, serviceKey, q.value);
    }
  }

  /**
   * The endpoint `route` picks for `serviceKey` when the counter reads
   * `counter`: the one at the round-robin position of the service's list, or
   * none when no connected endpoint advertises the service.
   */
  function Routed(order: seq<RpcProtocol>, serviceKey: string, counter: int): (q: Option<RpcProtocol>)
    requires AllListed(order)
    ensures q.None? <==> |Get(ServiceMapSpec(order), serviceKey)| == 0
    ensures q.Some? ==> q.value in Get(ServiceMapSpec(order), serviceKey)
  {
    var list := Get(ServiceMapSpec(order), serviceKey);
    if |list| == 0 then None else Some(list[RoundRobinIndex(counter, |list|)])
  }

  class RpcLoadBalanceRoundRobin {
    /** `roundRobin`: an `AtomicInteger`, so it wraps at 2^31. */
    var roundRobin: int

    ghost predicate Valid()
      reads this
    {
      IsInt(roundRobin)
    }

    constructor ()
      ensures Valid() && roundRobin == 0
    {
      roundRobin := 0;
    }

    /**
     * `doRoute(addressList)`: the counter advances on every call, and the
     * endpoint at the counter's rotation index is returned; an empty list
     * divides by zero.
     */
    method DoRoute(addressList: seq<RpcProtocol>) returns (r: Result<RpcProtocol>)
      requires Valid()
      modifies this
      ensures Valid() && roundRobin == Wrap(old(roundRobin) + 1)
      ensures |addressList| == 0 ==> r == Failure(DIVIDE_BY_ZERO)
      ensures |addressList| > 0 ==>
                r == Success(addressList[RoundRobinIndex(old(roundRobin), |addressList|)])
    {
      var size := |addressList|;
      var c := roundRobin;
      roundRobin := Wrap(roundRobin + 1);
      if size == 0 {
        return Failure(DIVIDE_BY_ZERO);
      }
      var index := RoundRobinIndex(c, size);
      r := Success(addressList[index]);
    }

    /**
     * `route(serviceKey, connectedServerNodes)`, with the map's key set
     * iterated in `order`: the rotation over the endpoints listed under the
     * key, or the "Can not find connection" error with the counter untouched.
     */
    method Route<H>(serviceKey: string, connectedServerNodes: map<RpcProtocol, H>, order: seq<RpcProtocol>)
      returns (r: Result<RpcProtocol>)
      requires Valid()
      requires IsEnumeration(order, connectedServerNodes.Keys) && AllListed(order)
      modifies this
      ensures Valid()
      ensures var q := Routed(order, serviceKey, old(roundRobin));
              if q.None? then
                r == Failure(NoConnection(serviceKey)) && roundRobin == old(roundRobin)
              else
                r == Success(q.value) && roundRobin == Wrap(old(roundRobin) + 1)
    {
      var serviceMap := GetServiceMap(connectedServerNodes, order);
      var addressList := if serviceKey in serviceMap then serviceMap[serviceKey] else [];
      if |addressList| > 0 {
        r := DoRoute(addressList);
      } else {
        r := Failure(NoConnection(serviceKey));
      }
    }
  }
}
