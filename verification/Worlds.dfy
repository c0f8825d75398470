/** The volumes the service can see on its DSMs, and which of them it can read when some calls fail. */
module Worlds {
  import opened Names
  import opened Stores
  import opened Volumes

  datatype Box = Box(isUc: bool, nvmeof: bool, store: Store)

  type World = map<string, Box>

  // ---- visibility ----

  // v is a LUN with the CSI prefix that a target of the box serves.
  ghost predicate LunVisible(box: Box, v: Volume) {
    && v.LunVolume?
    && v.targetId in box.store.targets && v.target == box.store.targets[v.targetId]
    && Maps(v.target.mapped, v.lunId)
    && v.lunId in box.store.luns && v.lun == box.store.luns[v.lunId]
    && IsCsiName(v.lun.name)
  }

  // v is a namespace with the CSI prefix attached to a subsystem, on a box with NVMe-oF.
  ghost predicate NamespaceVisible(box: Box, v: Volume) {
    && v.NamespaceVolume? && box.nvmeof
    && v.nsId in box.store.namespaces && v.ns == box.store.namespaces[v.nsId]
    && IsCsiName(v.ns.name) && v.ns.subsystem != "" && v.subsystemId == v.ns.subsystem
    && v.subsystemId in box.store.subsystems && v.subsystem == box.store.subsystems[v.subsystemId]
  }

  // v is a share with the CSI prefix on a box that is not a UC; it counts as NFS once it has an NFS rule.
  ghost predicate ShareVisible(box: Box, v: Volume) {
    && v.ShareVolume? && !box.isUc
    && v.shareName in box.store.shares && v.share == box.store.shares[v.shareName]
    && IsCsiName(v.shareName) && v.shareProtocol == ShareProtocol(v.share)
  }

  function ShareProtocol(share: Share): Protocol {
    if share.exported then Nfs else Smb
  }

  ghost predicate Visible(w: World, v: Volume) {
    v.ip in w && VisibleInBox(w[v.ip], v)
  }

  ghost predicate VisibleInBox(box: Box, v: Volume) {
    LunVisible(box, v) || NamespaceVisible(box, v) || ShareVisible(box, v)
  }

  // ---- failing reads ----

  // The read calls of a lookup, by the object they are made for.
  datatype ReadCall =
    | ShareList
    | PrivilegeLoad(share: string)
    | TargetList
    | LunGet(target: TargetId, lun: Uuid)
    | NamespaceList
    | SubsystemGet(namespace: Uuid)

  datatype Call = Call(ip: string, read: ReadCall)

  // Every call needed to read v got an answer.
  ghost predicate Answered(faults: set<Call>, v: Volume) {
    match v
    case LunVolume(ip, lunId, _, targetId, _) => Call(ip, TargetList) !in faults
        && Call(ip, LunGet(targetId, lunId)) !in faults
    case NamespaceVolume(ip, nsId, _, _, _) => Call(ip, NamespaceList) !in faults
        && Call(ip, SubsystemGet(nsId)) !in faults
    case ShareVolume(ip, name, _, _) => Call(ip, ShareList) !in faults && Call(ip, PrivilegeLoad(name)) !in faults
  }

  ghost predicate Readable(w: World, faults: set<Call>, v: Volume) {
    Visible(w, v) && Answered(faults, v)
  }

  ghost predicate IscsiIncomplete(ip: string, box: Box, faults: set<Call>) {
    || Call(ip, TargetList) in faults
    || exists t, m | t in box.store.targets && m in box.store.targets[t].mapped ::
          Call(ip, LunGet(t, m.lun)) in faults || m.lun !in box.store.luns
  }

  ghost predicate NvmeIncomplete(ip: string, box: Box, faults: set<Call>) {
    && box.nvmeof
    && (|| Call(ip, NamespaceList) in faults
        || exists n | n in box.store.namespaces && IsAttachedCsi(box.store.namespaces[n]) ::
            Call(ip, SubsystemGet(n)) in faults || box.store.namespaces[n].subsystem !in box.store.subsystems)
  }

  predicate IsAttachedCsi(ns: Namespace) {
    IsCsiName(ns.name) && ns.subsystem != ""
  }

  ghost predicate SharesIncomplete(ip: string, box: Box, faults: set<Call>) {
    && !box.isUc
    && (|| Call(ip, ShareList) in faults
        || exists n | n in box.store.shares && IsCsiName(n) :: Call(ip, PrivilegeLoad(n)) in faults)
  }

  ghost predicate InScope(dsmIp: string, ip: string) {
    dsmIp == "" || dsmIp == ip
  }

  ghost predicate NoDuplicates<T(!new)>(s: seq<T>) {
    forall i, j | 0 <= i < j < |s| :: s[i] != s[j]
  }

  // ---- what the listings answer ----

  datatype Kind = Luns | Namespaces | Shares

  predicate IsOfKind(kind: Kind, v: Volume) {
    match kind
    case Luns => v.LunVolume?
    case Namespaces => v.NamespaceVolume?
    case Shares => v.ShareVolume?
  }

  ghost predicate VisibleOn(kind: Kind, box: Box, v: Volume) {
    match kind
    case Luns => LunVisible(box, v)
    case Namespaces => NamespaceVisible(box, v)
    case Shares => ShareVisible(box, v)
  }

  ghost predicate Incomplete(kind: Kind, ip: string, box: Box, faults: set<Call>) {
    match kind
    case Luns => IscsiIncomplete(ip, box, faults)
    case Namespaces => NvmeIncomplete(ip, box, faults)
    case Shares => SharesIncomplete(ip, box, faults)
  }

  // A listing holds each readable volume of its kind once, and reports failure exactly when one may be missing.
  ghost predicate Listed(kind: Kind, w: World, dsmIp: string, faults: set<Call>, infos: seq<Volume>, failed: bool) {
    && NoDuplicates(infos)
    && (forall v :: v in infos <==> IsOfKind(kind, v) && InScope(dsmIp, v.ip) && Readable(w, faults, v))
    && (failed <==> exists ip | ip in w && InScope(dsmIp, ip) :: Incomplete(kind, ip, w[ip], faults))
  }

  // ---- what the lookups answer ----

  datatype Lookup = Found(volume: Volume) | Absent | Unknown

  // Shares are matched before they are classified, the rest as volumes.
  ghost predicate Hit(matchShare: (string, Share) -> bool, matchVolume: Volume -> bool, v: Volume) {
    if v.ShareVolume? then matchShare(v.shareName, v.share) else matchVolume(v)
  }

  ghost predicate ShareListingsAnswer(w: World, faults: set<Call>) {
    forall ip | ip in w && !w[ip].isUc :: Call(ip, ShareList) !in faults
  }

  // findSMBorNFSVolume: absent exactly when every share list was read and nothing matches.
  ghost predicate ShareLookup(w: World, faults: set<Call>, matchShare: (string, Share) -> bool, r: Lookup) {
    && (r.Found? ==>
        r.volume.ShareVolume? && Readable(w, faults, r.volume) && matchShare(r.volume.shareName, r.volume.share))
    && (r.Absent? <==> ShareListingsAnswer(w, faults)
                       && forall v | Visible(w, v) && v.ShareVolume? :: !matchShare(v.shareName, v.share))
    // A readable match is found unless another match could not be classified.
    && (forall v | Readable(w, faults, v) && v.ShareVolume? && matchShare(v.shareName, v.share) ::
          r.Found? || exists u | Visible(w, u) && u.ShareVolume? && matchShare(u.shareName, u.share) ::
                       Call(u.ip, ShareList) !in faults && Call(u.ip, PrivilegeLoad(u.shareName)) in faults)
    && (r.Unknown? ==> !ShareListingsAnswer(w, faults)
                       || exists u | Visible(w, u) && u.ShareVolume? && matchShare(u.shareName, u.share) ::
                             Call(u.ip, PrivilegeLoad(u.shareName)) in faults)
  }

  ghost predicate LookupComplete(w: World, faults: set<Call>) {
    && ShareListingsAnswer(w, faults)
    && forall ip | ip in w :: !IscsiIncomplete(ip, w[ip], faults) && !NvmeIncomplete(ip, w[ip], faults)
  }

  // findVolume: what is found exists and matches; absent exactly when every listing was complete and nothing
  // matches, so a match that a failed call hid is never reported absent.
  ghost predicate VolumeLookup(w: World, faults: set<Call>, matchShare: (string, Share) -> bool,
                               matchVolume: Volume -> bool, r: Lookup) {
    && (r.Found? ==> Readable(w, faults, r.volume) && Hit(matchShare, matchVolume, r.volume))
    && (r.Absent? <==> LookupComplete(w, faults) && forall v | Visible(w, v) :: !Hit(matchShare, matchVolume, v))
    && (r.Unknown? ==> !LookupComplete(w, faults)
                       || exists u | Visible(w, u) && u.ShareVolume? && matchShare(u.shareName, u.share) ::
                             Call(u.ip, PrivilegeLoad(u.shareName)) in faults)
  }

  // The fast share lookup against the full listing, for a predicate that at most one visible share satisfies
  // and the same failing calls: it finds exactly what the listing holds, and fails only when the listing fails.
  lemma FastLookupRefinesListing(w: World, faults: set<Call>, matchShare: (string, Share) -> bool, r: Lookup,
                                 infos: seq<Volume>, failed: bool)
    requires ShareLookup(w, faults, matchShare, r) && Listed(Shares, w, "", faults, infos, failed)
    requires forall u, v | Visible(w, u) && Visible(w, v) && u.ShareVolume? && v.ShareVolume?
                           && matchShare(u.shareName, u.share) && matchShare(v.shareName, v.share) :: u == v
    ensures forall v :: r == Found(v) <==> v in infos && matchShare(v.shareName, v.share)
    ensures r.Unknown? ==> failed
    ensures r.Absent? ==> forall v | v in infos :: !matchShare(v.shareName, v.share)
  {
    forall v | v in infos && matchShare(v.shareName, v.share) ensures r == Found(v) {
      assert Readable(w, faults, v);
    }
    if r.Unknown? {
      if ip :| ip in w && !w[ip].isUc && Call(ip, ShareList) in faults {
        assert Incomplete(Shares, ip, w[ip], faults);
      } else {
        var u :| Visible(w, u) && u.ShareVolume? && matchShare(u.shareName, u.share)
            && Call(u.ip, PrivilegeLoad(u.shareName)) in faults;
        assert Incomplete(Shares, u.ip, w[u.ip], faults);
      }
    }
  }

  ghost predicate WorldValid(w: World) {
    forall ip | ip in w :: w[ip].store.Valid()
  }

  // When every call is answered a lookup decides.
  lemma NoFaultsDecide(w: World, matchShare: (string, Share) -> bool, matchVolume: Volume -> bool, r: Lookup)
    requires WorldValid(w) && VolumeLookup(w, {}, matchShare, matchVolume, r)
    ensures !r.Unknown?
    ensures r.Found? <==> exists v :: Visible(w, v) && Hit(matchShare, matchVolume, v)
  {
    forall ip | ip in w ensures !IscsiIncomplete(ip, w[ip], {}) {
      var s := w[ip].store;
      assert s.Valid();
      forall t, m | t in s.targets && m in s.targets[t].mapped ensures m.lun in s.luns {
        assert MappingsExist(s.targets[t].mapped, s.luns);
      }
    }
    assert LookupComplete(w, {});
  }
}
