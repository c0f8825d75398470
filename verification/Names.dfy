/** The names a requested volume gets on a DSM (pkg/models/dsm.go). A char stands for one byte of a Go string. */
module Names {
  const DEVICE_PREFIX := "k8s-csi"  // also the target, subsystem and share prefix
  const MAX_SHARE_LEN := 32

  function GenBackendName(volName: string): string {
    DEVICE_PREFIX + "-" + volName
  }

  function GenShareName(volName: string): string {
    var shareName := DEVICE_PREFIX + "-" + volName;
    if |shareName| > MAX_SHARE_LEN then shareName[..MAX_SHARE_LEN] else shareName
  }

  // The part of a requested name that survives in a share name.
  function Head24(volName: string): string {
    if |volName| > 24 then volName[..24] else volName
  }

  predicate IsCsiName(name: string) {
    DEVICE_PREFIX <= name
  }

  // The test GetVolumeByName applies to the name of a backing resource.
  predicate NameMatches(volName: string, name: string) {
    name == GenBackendName(volName) || name == GenShareName(volName)
  }

  lemma PrefixCancels(a: string, b: string)
    ensures GenBackendName(a) == GenBackendName(b) <==> a == b
  {
    assert GenBackendName(a)[8..] == a;
    assert GenBackendName(b)[8..] == b;
  }

  lemma ShareNameIsBackendOfHead(a: string)
    ensures GenShareName(a) == GenBackendName(Head24(a))
  {
  }

  // Two requests share a share name exactly when their first 24 bytes agree.
  lemma ShareNamesCollide(a: string, b: string)
    ensures GenShareName(a) == GenShareName(b) <==> Head24(a) == Head24(b)
  {
    ShareNameIsBackendOfHead(a);
    ShareNameIsBackendOfHead(b);
    PrefixCancels(Head24(a), Head24(b));
  }

  // No name belongs to two requests exactly when their first 24 bytes differ.
  lemma NamesApart(a: string, b: string)
    ensures Head24(a) != Head24(b) <==> forall name :: !(NameMatches(a, name) && NameMatches(b, name))
  {
    ShareNamesCollide(a, b);
    ShareNameIsBackendOfHead(a);
    ShareNameIsBackendOfHead(b);
    PrefixCancels(a, Head24(b));
    PrefixCancels(b, Head24(a));
    PrefixCancels(a, b);
    if Head24(a) == Head24(b) {
      assert NameMatches(a, GenShareName(a)) && NameMatches(b, GenShareName(a));
    }
  }

  lemma GeneratedNamesAreCsi(volName: string)
    ensures IsCsiName(GenBackendName(volName)) && IsCsiName(GenShareName(volName))
  {
    ShareNameIsBackendOfHead(volName);
  }
}
