/**
 * The service key shared by client routing and server dispatch: an interface
 * name, followed by `#` and the version when the version is not blank.
 */
module ServiceUtil {
  import opened Wrappers
  import opened JavaLang

  const SERVICE_CONCAT_TOKEN: char := '#'

  /**
   * `makeServiceKey(interfaceName, version)`; a null version is `None`. The
   * version is tested after `trim` but appended as given.
   */
  function MakeServiceKey(interfaceName: string, version: Option<string>): (key: string)
    ensures interfaceName <= key
    ensures version.None? ==> key == interfaceName
    ensures version.Some? && IsBlank(version.value) ==> key == interfaceName
    ensures version.Some? && !IsBlank(version.value) ==>
              key == interfaceName + [SERVICE_CONCAT_TOKEN] + version.value
  {
    var v := if version.Some? then version.value else "";
    TrimEmptyIffBlank(v);
    if version.Some? && |Trim(version.value)| > 0 then
      interfaceName + [SERVICE_CONCAT_TOKEN] + version.value
    else
      interfaceName
  }

  /** The empty version and any non-blank version give different keys for one interface. */
  lemma EmptyVersionDistinct(name: string, version: string)
    requires !IsBlank(version)
    ensures MakeServiceKey(name, Some("")) != MakeServiceKey(name, Some(version))
  {
    assert |MakeServiceKey(name, Some(version))| > |name|;
  }

  /** Two different non-blank versions of one interface give different keys. */
  lemma DistinctVersionsDistinctKeys(name: string, v1: string, v2: string)
    requires !IsBlank(v1) && !IsBlank(v2) && v1 != v2
    ensures MakeServiceKey(name, Some(v1)) != MakeServiceKey(name, Some(v2))
  {
    var k1 := MakeServiceKey(name, Some(v1));
    var k2 := MakeServiceKey(name, Some(v2));
    assert k1[|name| + 1..] == v1;
    assert k2[|name| + 1..] == v2;
  }
}
