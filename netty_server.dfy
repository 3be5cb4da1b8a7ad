/**
 * `NettyServer`: the table of service beans by service key, and the start-up
 * steps that read the `host:port` address and register the services.
 */
module Server {
  import opened Wrappers
  import opened JavaLang
  import opened ServiceUtil
  import opened Protocol
  import opened Registration

  /** The `toString` of the exception `array[i]` raises on an array of length `n`. */
  function OutOfBounds(i: nat, n: nat): string
  {
    "java.lang.ArrayIndexOutOfBoundsException: Index " + Decimal(i) + " out of bounds for length " + Decimal(n)
  }

  /**
   * The address parsing in `start`: split at ':', part 0 is the host and
   * `parseInt` of part 1 the port; parts after the second are ignored.
   */
  function ParseServerAddress(serverAddress: string): (r: Result<(string, int)>)
    ensures |Split(serverAddress, ':')| < 2 ==> r.Failure?
    ensures r.Success? ==> IsInt(r.value.1)
    ensures |Split(serverAddress, ':')| >= 2 ==>
              (r.Success? <==> ParseInt(Split(serverAddress, ':')[1]).Success?)
  {
    var parts := Split(serverAddress, ':');
    if |parts| == 0 then Failure(OutOfBounds(0, 0))
    else if |parts| == 1 then Failure(OutOfBounds(1, 1))
    else
      var host := parts[0];
      match ParseInt(parts[1])
      case Success(port) => Success((host, port))
      case Failure(e) => Failure(e)
  }

  /** A host without ':' and a non-negative `int` port are read back from `host + ":" + port`. */
  lemma AddressRoundTrip(host: string, port: nat)
    requires ':' !in host && port <= INT_MAX
    ensures ParseServerAddress(host + ":" + Decimal(port)) == Success((host, port))
  {
    var d := Decimal(port);
    assert ':' !in d by {
      forall i | 0 <= i < |d| ensures d[i] != ':' {
        assert IsDigit(d[i]);
      }
    }
    assert host + ":" + d == host + [':'] + d;
    SplitPair(host, ':', d);
    ParseIntDecimal(port);
  }

  /** An address without ':' has no port part. */
  lemma AddressWithoutPort(serverAddress: string)
    requires ':' !in serverAddress
    ensures ParseServerAddress(serverAddress) == Failure(OutOfBounds(1, 1))
  {
  }

  /** An address made only of ':' splits into no pieces, so reading the host already fails at index 0. */
  lemma AddressOnlySeparators(serverAddress: string)
    requires |serverAddress| > 0 && forall i :: 0 <= i < |serverAddress| ==> serverAddress[i] == ':'
    ensures ParseServerAddress(serverAddress) == Failure(OutOfBounds(0, 0))
  {
    SplitEmptyIff(serverAddress, ':');
  }

  class NettyServer {
    const serverAddress: string
    /** `serviceMap`: service key to the bean implementing it. */
    var serviceMap: map<string, Value>

    constructor (serverAddress: string)
      ensures this.serverAddress == serverAddress && serviceMap == map[]
    {
      this.serverAddress := serverAddress;
      serviceMap := map[];
    }

    /** `addService(interfaceName, version, serviceBean)`: the bean is stored under the service key, replacing any earlier one. */
    method AddService(interfaceName: string, version: Option<string>, serviceBean: Value)
      modifies this
      ensures serviceMap == old(serviceMap)[MakeServiceKey(interfaceName, version) := serviceBean]
    {
      var serviceKey := MakeServiceKey(interfaceName, version);
      serviceMap := serviceMap[serviceKey := serviceBean];
    }

    /**
     * The bookkeeping of `start`: parse the address, bind to it, then
     * register the services (keys in `keyOrder`) under that host and port. A
     * parse failure, or a port `bind` rejects, is caught and logged, and
     * nothing is registered. So every endpoint a server publishes can be
     * turned into a socket address.
     */
    method Start(keyOrder: seq<string>) returns (r: Result<RpcProtocol>)
      requires KeyEnumeration(keyOrder, serviceMap.Keys)
      ensures ParseServerAddress(serverAddress).Failure? ==> r == Failure(ParseServerAddress(serverAddress).error)
      ensures ParseServerAddress(serverAddress).Success? ==>
                var (host, port) := ParseServerAddress(serverAddress).value;
                if SocketAddressValid(Some(host), port) then
                  r == Success(RpcProtocol(Some(host), port, Some(ServiceInfos(keyOrder))))
                else
                  r == Failure(SocketAddressError(Some(host), port))
      ensures r.Success? ==> SocketAddressValid(r.value.host, r.value.port)
    {
      var address := ParseServerAddress(serverAddress);
      if address.Failure? {
        return Failure(address.error);
      }
      var (host, port) := address.value;
      if !SocketAddressValid(Some(host), port) {
        return Failure(SocketAddressError(Some(host), port));
      }
      var descriptor := RegisterService(host, port, serviceMap, keyOrder);
      r := Success(descriptor);
    }
  }

  /** A null, empty or whitespace-only version registers under the bare interface name. */
  lemma BlankVersionsShareKey(interfaceName: string, version: string)
    requires IsBlank(version)
    ensures MakeServiceKey(interfaceName, None) == interfaceName
    ensures MakeServiceKey(interfaceName, Some(version)) == interfaceName
  {
  }

  /** Adding two different non-blank versions of one interface keeps both beans. */
  lemma VersionsCoexist(serviceMap: map<string, Value>, name: string, v1: string, v2: string, b1: Value, b2: Value)
    requires !IsBlank(v1) && !IsBlank(v2) && v1 != v2
    ensures var k1 := MakeServiceKey(name, Some(v1));
            var k2 := MakeServiceKey(name, Some(v2));
            var m := serviceMap[k1 := b1][k2 := b2];
            m[k1] == b1 && m[k2] == b2
  {
    DistinctVersionsDistinctKeys(name, v1, v2);
  }
}
