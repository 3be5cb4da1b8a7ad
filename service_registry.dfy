/**
 * `ServiceRegistry.registerService`: each key of the server's service table
 * is split at `#` back into a service name and a version, and the endpoint
 * is published with the list of those service infos.
 */
module Registration {
  import opened Wrappers
  import opened JavaLang
  import opened ServiceUtil
  import opened Protocol

  /**
   * One key as the registration loop reads it: the pieces of `split("#")`;
   * none means the key is skipped, otherwise piece 0 is the name and piece 1
   * the version when there are exactly two pieces, else the version is "".
   * Only a non-empty key made of separators alone splits into nothing.
   */
  function ParseServiceKey(key: string): (info: Option<RpcServiceInfo>)
    ensures info.None? <==> |key| > 0 && forall i :: 0 <= i < |key| ==> key[i] == SERVICE_CONCAT_TOKEN
  {
    SplitEmptyIff(key, SERVICE_CONCAT_TOKEN);
    var serviceInfo := Split(key, SERVICE_CONCAT_TOKEN);
    if |serviceInfo| > 0 then
      Some(RpcServiceInfo(serviceInfo[0], if |serviceInfo| == 2 then serviceInfo[1] else ""))
    else
      None
  }

  /** Parsing undoes `makeServiceKey` for a name and a non-blank version that hold no `#`. */
  lemma ParseRoundTrip(name: string, version: string)
    requires SERVICE_CONCAT_TOKEN !in name && SERVICE_CONCAT_TOKEN !in version && !IsBlank(version)
    ensures ParseServiceKey(MakeServiceKey(name, Some(version))) == Some(RpcServiceInfo(name, version))
  {
    SplitPair(name, SERVICE_CONCAT_TOKEN, version);
  }

  /** A key without `#` is a name with the empty version. */
  lemma ParseWithoutSeparator(key: string)
    requires SERVICE_CONCAT_TOKEN !in key
    ensures ParseServiceKey(key) == Some(RpcServiceInfo(key, ""))
  {
  }

  /** A key with three pieces keeps only the first, with the empty version. */
  lemma ParseThreePieces(a: string, b: string, c: string)
    requires SERVICE_CONCAT_TOKEN !in a && SERVICE_CONCAT_TOKEN !in b && SERVICE_CONCAT_TOKEN !in c && c != ""
    ensures ParseServiceKey(a + "#" + b + "#" + c) == Some(RpcServiceInfo(a, ""))
  {
    var key := a + "#" + b + "#" + c;
    assert key == a + [SERVICE_CONCAT_TOKEN] + (b + [SERVICE_CONCAT_TOKEN] + c);
    assert key[|a|] == SERVICE_CONCAT_TOKEN;
    PiecesAfterFirstSep(a, SERVICE_CONCAT_TOKEN, b + [SERVICE_CONCAT_TOKEN] + c);
    PiecesAfterFirstSep(b, SERVICE_CONCAT_TOKEN, c);
    PiecesNoSep(c, SERVICE_CONCAT_TOKEN);
    assert Pieces(key, SERVICE_CONCAT_TOKEN) == [a, b, c];
  }

  /** A trailing `#` is dropped by `split`, so the version is empty. */
  lemma ParseTrailingSeparator(name: string)
    requires SERVICE_CONCAT_TOKEN !in name && name != ""
    ensures ParseServiceKey(name + "#") == Some(RpcServiceInfo(name, ""))
  {
    SplitTrailingSep(name, SERVICE_CONCAT_TOKEN);
  }

  /** The service infos the loop collects from the keys taken in order, skipping keys that split into nothing. */
  function ServiceInfos(keys: seq<string>): (infos: seq<RpcServiceInfo>)
    ensures |infos| <= |keys|
  {
    if |keys| == 0 then []
    else
      var last := ParseServiceKey(keys[|keys| - 1]);
      ServiceInfos(keys[..|keys| - 1]) + (if last.Some? then [last.value] else [])
  }

  /** The published list holds exactly the infos parsed from the keys. */
  lemma {:induction false} ServiceInfosExactly(keys: seq<string>, info: RpcServiceInfo)
    ensures info in ServiceInfos(keys) <==> exists k :: k in keys && ParseServiceKey(k) == Some(info)
  {
    if |keys| > 0 {
      var init := keys[..|keys| - 1];
      var last := keys[|keys| - 1];
      ServiceInfosExactly(init, info);
      assert keys == init + [last];
      if exists k :: k in keys && ParseServiceKey(k) == Some(info) {
        var k :| k in keys && ParseServiceKey(k) == Some(info);
        assert k in init || k == last;
      }
    }
  }

  /** When every key parses, there is one info per key. */
  lemma {:induction false} ServiceInfosOnePerKey(keys: seq<string>)
    requires forall i :: 0 <= i < |keys| ==> ParseServiceKey(keys[i]).Some?
    ensures |ServiceInfos(keys)| == |keys|
  {
    if |keys| > 0 {
      var init := keys[..|keys| - 1];
      assert forall i :: 0 <= i < |init| ==> init[i] == keys[i];
      ServiceInfosOnePerKey(init);
    }
  }

  /** `keyOrder` lists every key of the table once: the iteration order of its key set. */
  ghost predicate KeyEnumeration(keyOrder: seq<string>, keys: set<string>)
  {
    && (forall i, j :: 0 <= i < j < |keyOrder| ==> keyOrder[i] != keyOrder[j])
    && (forall k :: k in keyOrder <==> k in keys)
  }

  /**
   * `registerService(host, port, serviceMap)` with the key set iterated in
   * `keyOrder`: the endpoint descriptor it publishes.
   */
  method RegisterService(host: string, port: int, serviceMap: map<string, Value>, keyOrder: seq<string>)
    returns (descriptor: RpcProtocol)
    requires KeyEnumeration(keyOrder, serviceMap.Keys)
    ensures descriptor == RpcProtocol(Some(host), port, Some(ServiceInfos(keyOrder)))
  {
    var serviceInfoList: seq<RpcServiceInfo> := [];
    var i := 0;
    while i < |keyOrder|
      invariant 0 <= i <= |keyOrder|
      invariant serviceInfoList == ServiceInfos(keyOrder[..i])
    {
      var key := keyOrder[i];
      var serviceInfo := Split(key, SERVICE_CONCAT_TOKEN);
      if |serviceInfo| > 0 {
        var version := if |serviceInfo| == 2 then serviceInfo[1] else "";
        serviceInfoList := serviceInfoList + [RpcServiceInfo(serviceInfo[0], version)];
      }
      assert keyOrder[..i + 1][..i] == keyOrder[..i];
      i := i + 1;
    }
    assert keyOrder[..i] == keyOrder;
    descriptor := RpcProtocol(Some(host), port, Some(serviceInfoList));
  }
}
