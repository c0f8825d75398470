/** When a creation succeeds on DSMs that answer every call, and when its result has the size asked for. */
module Demands {
  import opened Results
  import opened Sizes
  import opened Stores
  import opened Dsms
  import opened Volumes
  import opened Worlds
  import opened Lookups
  import IscsiVolumes
  import NvmeVolumes
  import ShareVolumes

  // ---- on one DSM ----

  // What a DSM holding s needs to create a volume from nothing at the location.
  ghost predicate Hosts(dsm: Dsm, p: Params, location: string, s: Store) {
    match p.protocol
    case Iscsi => IscsiVolumes.Hosts(dsm, p.lunType, location)
    case Nvme => dsm.supportNvmeof && location in dsm.volumes && !s.HasSubsystemNamed(p.subsystemName)
    case Smb => HostsShare(dsm, location)
    case Nfs => HostsShare(dsm, location) && ServesNfs(dsm, p.nfsVersion)
  }

  ghost predicate HostsShare(dsm: Dsm, location: string) {
    location in dsm.volumes && dsm.volumes[location].fs != Ext4
  }

  // The version a request names; none named asks for what the DSM has.
  function NfsVersion(version: string, major: nat, minor: nat): Option<(nat, nat)> {
    if version == "" then Some((major, minor))
    else if version == "3" then Some((3, 0))
    else if version == "4" || version == "4.0" then Some((4, 0))
    else if version == "4.1" then Some((4, 1))
    else None
  }

  predicate ServesNfs(dsm: Dsm, version: string) {
    match NfsVersion(version, dsm.nfsMajor, dsm.nfsMinor)
    case None => false
    case Some((major, minor)) => major < dsm.nfsMajor || (major == dsm.nfsMajor && minor <= dsm.nfsMinor)
  }

  // The highest version a DSM supports decides; any other text is served nowhere.
  lemma ServesNfsIff(dsm: Dsm, version: string)
    ensures ServesNfs(dsm, version) <==>
            || version == "" || (version == "3" && dsm.nfsMajor >= 3)
            || ((version == "4" || version == "4.0") && dsm.nfsMajor >= 4)
            || (version == "4.1" && (dsm.nfsMajor > 4 || (dsm.nfsMajor == 4 && dsm.nfsMinor >= 1)))
  {
  }

  // What it needs to make one from a volume.
  ghost predicate Clones(p: Params, src: Volume, s: Store, nvmeof: bool) {
    match p.protocol
    case Iscsi => src.LunVolume? && src.lunId in s.luns && RestoreSizeAllowed(p.size, src.lun.size)
    case Nvme =>
      && nvmeof && src.NamespaceVolume? && src.nsId in s.namespaces && RestoreSizeAllowed(p.size, src.ns.size)
      && !s.HasSubsystemNamed(p.subsystemName)
    case _ =>
      && src.ShareVolume? && src.shareName != "" && src.shareName in s.shares
      && (p.size == 0 || RestoreSizeAllowed(BytesToMBCeil(p.size), src.share.quotaMB))
  }

  // What it needs to make one from a snapshot.
  ghost predicate Restores(dsm: Dsm, p: Params, src: Snapshot, s: Store) {
    match p.protocol
    case Iscsi => RestoreSizeAllowed(p.size, src.size) && dsm.HasLunSource(s, FromSnapshot(src.parentUuid, src.uuid))
    case Nvme =>
      && dsm.supportNvmeof && RestoreSizeAllowed(p.size, src.size) && src.uuid in dsm.snapshots
      && !s.HasSubsystemNamed(p.subsystemName)
    case _ => ShareVolumes.SourceServes(dsm, p, src, s)
  }

  // A clone asked for smaller than its source is refused for its size. For a share, a source that is none counts as
  // an empty one.
  predicate CloneTooSmall(p: Params, src: Volume) {
    match p.protocol
    case Iscsi => src.LunVolume? && !RestoreSizeAllowed(p.size, src.lun.size)
    case Nvme => src.NamespaceVolume? && !RestoreSizeAllowed(p.size, src.ns.size)
    case _ =>
      p.size != 0 && !RestoreSizeAllowed(BytesToMBCeil(p.size), if src.ShareVolume? then src.share.quotaMB else 0)
  }

  // So is a restored LUN or namespace; a restored share only by the quota its copy came with.
  predicate RestoreTooSmall(dsm: Dsm, p: Params, src: Snapshot, s: Store) {
    if p.protocol.IsShare() then
      dsm.HasShareSource(s, src.parentName, Some(src.uuid)) && !ShareVolumes.QuotaAllows(dsm, p, s, src.parentName)
    else !RestoreSizeAllowed(p.size, src.size)
  }

  // ---- a location to pick ----

  // The DSM serves the protocol and has room at path: asked without a location it may pick this one.
  ghost predicate MayPick(dsm: Dsm, p: Params, path: string) {
    && (p.protocol == Nvme ==> dsm.supportNvmeof) && (p.protocol == Nfs ==> ServesNfs(dsm, p.nfsVersion))
    && path in dsm.volumes && HasRoom(dsm.volumes[path], p.size, p.protocol.IsShare())
  }

  // What is picked serves, but for a LUN without a type on an unknown file system and a subsystem name that is taken.
  lemma PickHostsIff(dsm: Dsm, p: Params, path: string, s: Store)
    requires MayPick(dsm, p, path)
    ensures Hosts(dsm, p, path, s) <==>
            && (p.protocol == Iscsi && p.lunType == "" ==> dsm.volumes[path].fs != OtherFs)
            && (p.protocol == Nvme ==> !s.HasSubsystemNamed(p.subsystemName))
  {
  }

  // Asked without a location, the DSM has picked the one given, or has none to pick.
  ghost predicate PickedOn(dsm: Dsm, p: Params, s: Store, location: string, ok: bool) {
    if location == "" then !ok && forall path :: !MayPick(dsm, p, path)
    else MayPick(dsm, p, location) && (ok <==> Hosts(dsm, p, location, s))
  }

  lemma ChosenIsPicked(dsm: Dsm, p: Params, location: string, s: Store)
    requires dsm.Valid() && dsm.reliable && IscsiVolumes.Chosen(dsm, p.size, p.protocol.IsShare(), "", location)
    requires (p.protocol == Nvme ==> dsm.supportNvmeof) && (p.protocol == Nfs ==> ServesNfs(dsm, p.nfsVersion))
    ensures PickedOn(dsm, p, s, location, Hosts(dsm, p, location, s))
  {
  }

  // ---- over all DSMs ----

  ghost predicate Reliable(service: DsmService) {
    forall ip | ip in service.dsms :: service.dsms[ip].reliable
  }

  predicate Invited(p: Params, ip: string) {
    p.dsmIp == "" || p.dsmIp == ip
  }

  ghost predicate Serves(service: DsmService, ip: string, p: Params, location: string, s: Store)
    requires ip in service.dsms
  {
    Invited(p, ip) && Hosts(service.dsms[ip], p, location, s)
  }

  ghost predicate SomeServes(service: DsmService, p: Params, location: string, w: World)
    requires w.Keys == service.dsms.Keys
  {
    exists ip | ip in service.dsms :: Serves(service, ip, p, location, w[ip].store)
  }

  ghost predicate NoneServes(service: DsmService, rest: set<string>, p: Params, location: string, w: World)
    requires w.Keys == service.dsms.Keys
  {
    forall ip | ip in service.dsms && ip !in rest :: !Serves(service, ip, p, location, w[ip].store)
  }

  lemma NextServesNot(service: DsmService, rest: set<string>, ip: string, p: Params, location: string, w: World)
    requires w.Keys == service.dsms.Keys && ip in w
    ensures Reliable(service) ==> service.dsms[ip].reliable
    ensures NoneServes(service, rest, p, location, w) && !Serves(service, ip, p, location, w[ip].store) ==>
              NoneServes(service, rest - {ip}, p, location, w)
  {
  }

  lemma SomeServed(service: DsmService, ip: string, p: Params, location: string, w: World)
    requires w.Keys == service.dsms.Keys && ip in w
    ensures Reliable(service) ==> service.dsms[ip].reliable
    ensures Serves(service, ip, p, location, w[ip].store) ==> SomeServes(service, p, location, w)
  {
  }

  lemma NoneServed(service: DsmService, p: Params, location: string, w: World)
    requires w.Keys == service.dsms.Keys
    ensures NoneServes(service, {}, p, location, w) ==> !SomeServes(service, p, location, w)
  {
  }

  // ---- a location for all DSMs ----

  // Without a location, the first DSM tried that has one to pick picks it for all that come after it.
  ghost predicate PickedBy(service: DsmService, p: Params, ip: string, path: string) {
    ip in service.dsms && Invited(p, ip) && MayPick(service.dsms[ip], p, path)
  }

  // Some DSM can serve at a location that may be picked.
  ghost predicate SomePickServes(service: DsmService, p: Params, w: World)
    requires w.Keys == service.dsms.Keys
  {
    exists a, b, path | b in w && PickedBy(service, p, a, path) :: Serves(service, b, p, path, w[b].store)
  }

  // There is a location to pick, and whichever it is, some DSM not passed by before can serve there.
  ghost predicate EveryPickServes(service: DsmService, p: Params, w: World)
    requires w.Keys == service.dsms.Keys
  {
    && (exists a, path :: PickedBy(service, p, a, path))
    && forall a, path | PickedBy(service, p, a, path) :: PickServed(service, p, w, path)
  }

  // Some DSM that would have picked a location itself, and so comes later, can serve there.
  ghost predicate PickServed(service: DsmService, p: Params, w: World, path: string)
    requires w.Keys == service.dsms.Keys
  {
    exists b, other | b in w && PickedBy(service, p, b, other) :: Serves(service, b, p, path, w[b].store)
  }

  ghost predicate PickDecides(service: DsmService, p: Params, w: World, ok: bool)
    requires w.Keys == service.dsms.Keys
  {
    (ok ==> SomePickServes(service, p, w)) && (EveryPickServes(service, p, w) ==> ok)
  }

  // If every location that may be picked serves where it is picked, it is enough that there is one.
  lemma PicksAlike(service: DsmService, p: Params, w: World)
    requires w.Keys == service.dsms.Keys
    requires forall a, path | PickedBy(service, p, a, path) ::
               && (p.protocol == Iscsi && p.lunType == "" ==> service.dsms[a].volumes[path].fs != OtherFs)
               && (p.protocol == Nvme ==> !w[a].store.HasSubsystemNamed(p.subsystemName))
    ensures SomePickServes(service, p, w) <==> exists a, path :: PickedBy(service, p, a, path)
    ensures EveryPickServes(service, p, w) <==> exists a, path :: PickedBy(service, p, a, path)
  {
    hide Hosts, MayPick;
    forall a, path | PickedBy(service, p, a, path) ensures Serves(service, a, p, path, w[a].store) {
      PickHostsIff(service.dsms[a], p, path, w[a].store);
    }
  }

  // One DSM alone is asked: it may serve if it can at some location it may pick, and must if it can at any of them.
  lemma OneDsmPicks(service: DsmService, p: Params, w: World, ip: string)
    requires w.Keys == service.dsms.Keys && ip in w && forall other | other in w :: Invited(p, other) <==> other == ip
    ensures var dsm, s := service.dsms[ip], w[ip].store;
            && (SomePickServes(service, p, w) <==> exists path | MayPick(dsm, p, path) :: Hosts(dsm, p, path, s))
            && (EveryPickServes(service, p, w) <==>
                  && (exists path :: MayPick(dsm, p, path))
                  && forall path | MayPick(dsm, p, path) :: Hosts(dsm, p, path, s))
  {
    OneDsmMayPick(service, p, w, ip);
    OneDsmMustPick(service, p, w, ip);
  }

  lemma OneDsmMayPick(service: DsmService, p: Params, w: World, ip: string)
    requires w.Keys == service.dsms.Keys && ip in w && forall other | other in w :: Invited(p, other) <==> other == ip
    ensures SomePickServes(service, p, w) <==>
            exists path | MayPick(service.dsms[ip], p, path) :: Hosts(service.dsms[ip], p, path, w[ip].store)
  {
    hide Hosts, MayPick;
    if path :| MayPick(service.dsms[ip], p, path) && Hosts(service.dsms[ip], p, path, w[ip].store) {
      assert PickedBy(service, p, ip, path) && Serves(service, ip, p, path, w[ip].store);
    }
  }

  lemma OneDsmMustPick(service: DsmService, p: Params, w: World, ip: string)
    requires w.Keys == service.dsms.Keys && ip in w && forall other | other in w :: Invited(p, other) <==> other == ip
    ensures var dsm, s := service.dsms[ip], w[ip].store;
            EveryPickServes(service, p, w) <==>
            (exists path :: MayPick(dsm, p, path)) && forall path | MayPick(dsm, p, path) :: Hosts(dsm, p, path, s)
  {
    hide Hosts, MayPick, Serves, PickServed;
    var dsm, s := service.dsms[ip], w[ip].store;
    forall path | MayPick(dsm, p, path)
      ensures PickedBy(service, p, ip, path) && (PickServed(service, p, w, path) <==> Hosts(dsm, p, path, s))
    {
      OneDsmServes(service, p, w, ip, path);
    }
    forall a, path | PickedBy(service, p, a, path) ensures a == ip && MayPick(dsm, p, path) {
    }
  }

  lemma OneDsmServes(service: DsmService, p: Params, w: World, ip: string, path: string)
    requires w.Keys == service.dsms.Keys && ip in w && forall other | other in w :: Invited(p, other) <==> other == ip
    requires MayPick(service.dsms[ip], p, path)
    ensures PickServed(service, p, w, path) <==> Hosts(service.dsms[ip], p, path, w[ip].store)
  {
    hide Hosts, MayPick;
    assert PickedBy(service, p, ip, path);
  }

  // What the outcome depends on when every DSM answers every call: on a source that is there and fits, or, without
  // one, on some DSM that can host the volume at the location asked for.
  ghost predicate SourceDecides(service: DsmService, p: Params, faults: set<Call>, location: string, w: World,
                                r: Result<Volume, Code>)
  {
    service.dsms.Keys == w.Keys &&
    match p.source
    case NoSource =>
      if location != "" then r.Ok? <==> SomeServes(service, p, location, w)
      else PickDecides(service, p, w, r.Ok?)
    case SourceVolume(id) => faults == {} ==> CloneFrom(p, id, w, r)
    case SourceSnapshot(found) => RestoreFrom(service, p, found, location, w, r)
  }

  ghost predicate CloneFrom(p: Params, id: string, w: World, r: Result<Volume, Code>) {
    if forall v | Visible(w, v) :: v.VolumeId() != id then r == Err(NotFound)
    else exists v | Visible(w, v) && v.VolumeId() == id :: ClonedAs(p, v, w[v.ip], r) && OnDsm(v.ip, r)
  }

  // A copy is made on the DSM of its source, a clone even if another is asked for.
  predicate OnDsm(ip: string, r: Result<Volume, Code>) {
    r.Ok? ==> r.value.ip == ip
  }

  // Success exactly if the source can be cloned, and the error that tells a size that does not fit.
  ghost predicate ClonedAs(p: Params, src: Volume, box: Box, r: Result<Volume, Code>) {
    && (r.Ok? <==> Clones(p, src, box.store, box.nvmeof))
    && (r == Err(OutOfRange) <==> CloneTooSmall(p, src))
  }

  ghost predicate RestoreFrom(service: DsmService, p: Params, found: Option<Snapshot>, location: string, w: World,
                              r: Result<Volume, Code>)
    requires service.dsms.Keys == w.Keys
  {
    if found.None? then r == Err(NotFound)
    else if !SnapshotFits(p, location, found.value) then r == Err(InvalidArgument)
    else if found.value.ip !in w then r == Err(Internal)
    else
      var dsm, box := service.dsms[found.value.ip], w[found.value.ip];
      OnDsm(found.value.ip, r) && (dsm.reliable ==> RestoredAs(dsm, p, found.value, box.store, r))
  }

  ghost predicate RestoredAs(dsm: Dsm, p: Params, src: Snapshot, s: Store, r: Result<Volume, Code>) {
    && (r.Ok? <==> Restores(dsm, p, src, s))
    && (r == Err(OutOfRange) <==> RestoreTooSmall(dsm, p, src, s))
  }

  predicate SnapshotFits(p: Params, location: string, snap: Snapshot) {
    && (p.dsmIp == "" || p.dsmIp == snap.ip)
    && (location == "" || location == snap.rootPath)
    && (p.protocol == Iscsi || snap.protocol == Iscsi ==> p.protocol == snap.protocol)
  }

  // ---- sizes ----

  // The object of v was there before its creation.
  predicate Adopted(a: Store, v: Volume) {
    match v
    case LunVolume(_, lunId, _, _, _) => lunId in a.luns
    case NamespaceVolume(_, nsId, _, _, _) => nsId in a.namespaces
    case ShareVolume(_, name, _, _) => name in a.shares
  }

  // The size it had then suits the request: creating from nothing leaves it, a copy grows it, and the quota of a share
  // restored from a snapshot is made to fit.
  predicate AdoptedFits(p: Params, a: Store, v: Volume)
    requires Adopted(a, v)
  {
    match v
    case LunVolume(_, lunId, _, _, _) => SizeSuits(p, a.luns[lunId].size)
    case NamespaceVolume(_, nsId, _, _, _) => SizeSuits(p, a.namespaces[nsId].size)
    case ShareVolume(_, name, _, _) => QuotaSuits(p, a.shares[name].quotaMB)
  }

  predicate SizeSuits(p: Params, size: nat) {
    if p.source.NoSource? then size == p.size else size <= p.size
  }

  predicate QuotaSuits(p: Params, quotaMB: int) {
    var asked := BytesToMBCeil(p.size);
    match p.source
    case NoSource => BytesToMB(MBToBytes(quotaMB)) == asked
    case SourceSnapshot(_) => true
    case SourceVolume(_) => quotaMB == 0 || asked > quotaMB || BytesToMB(MBToBytes(quotaMB)) == asked
  }

  // The new volume passes the size check exactly if it is new or what it adopted suits the request. A new copy of a LUN
  // or namespace has to have kept its source's size for that.
  ghost predicate SizeDecided(p: Params, a: Store, keepsSize: bool, v: Volume) {
    (Adopted(a, v) || keepsSize || p.source.NoSource? || v.ShareVolume?) &&
    0 < p.size < TWO_63 ==>
      (SizeFits(v, p.size) <==> (Adopted(a, v) ==> AdoptedFits(p, a, v)))
  }

  // A volume made from a source is at least as large as requested.
  ghost predicate Delivers(size: nat, v: Volume) {
    if v.ShareVolume? then ShareVolumes.QuotaDelivers(size, v.share.quotaMB) else v.SizeInBytes() >= size
  }

  function LocationOf(v: Volume): string {
    match v
    case LunVolume(_, _, lun, _, _) => lun.location
    case NamespaceVolume(_, _, ns, _, _) => ns.location
    case ShareVolume(_, _, share, _) => share.volPath
  }

  // A new volume lies at the location asked for, but for a cloned share, which stays with its source whatever was
  // asked, and a restored LUN or namespace, for which the DSM decides.
  predicate Located(p: Params, location: string, a: Store, v: Volume) {
    && location != "" && !Adopted(a, v)
    && (p.source.SourceVolume? ==> !p.protocol.IsShare()) && (p.source.SourceSnapshot? ==> p.protocol.IsShare()) ==>
      LocationOf(v) == location
  }

  // What was asked for: the protocol, the location, and the size as far as it is decided.
  ghost predicate Fulfils(p: Params, location: string, a: Store, keepsSize: bool, v: Volume) {
    && Located(p, location, a, v)
    && v.Protocol() == p.protocol && (v.ShareVolume? ==> p.protocol.IsShare())
    && (!p.source.NoSource? ==> Delivers(p.size, v))
    && SizeDecided(p, a, keepsSize, v)
  }

  // A clone is made on the DSM of its source, any other volume on one asked for.
  ghost predicate ResultFulfils(service: DsmService, p: Params, location: string, w: World, r: Result<Volume, Code>) {
    r.Ok? ==>
      && r.value.ip in service.dsms && r.value.ip in w && (!p.source.SourceVolume? ==> Invited(p, r.value.ip))
      && Fulfils(p, location, w[r.value.ip].store, service.dsms[r.value.ip].copiesKeepSize, r.value)
  }

  // A quota of the requested MiB passes the check, whatever the size.
  lemma AskedQuotaFits(size: int)
    ensures BytesToMB(MBToBytes(BytesToMBCeil(size))) == BytesToMBCeil(size)
  {
    var bytes := Wrap(size + UNIT_MB - 1);
    var mb := DivTrunc(bytes, UNIT_MB);
    assert -TWO_63 <= mb * UNIT_MB < TWO_63;
    WholeMegabytes(mb);
  }

  lemma AskedQuotaIsPositive(size: int)
    requires 0 < size < TWO_63
    ensures BytesToMBCeil(size) != 0
  {
    if size > MAX_SHARE_BYTES {
      RoundTripCovers(size);
      assert Wrap(size + UNIT_MB - 1) == size + UNIT_MB - 1 - TWO_64;
    }
  }

  lemma NewSizeDecided(p: Params, a: Store, keepsSize: bool, v: Volume)
    requires p.source.NoSource?
    requires match v
             case LunVolume(_, lunId, lun, _, _) => lun.size == if lunId in a.luns then a.luns[lunId].size else p.size
             case NamespaceVolume(_, nsId, ns, _, _) =>
               ns.size == if nsId in a.namespaces then a.namespaces[nsId].size else p.size
             case ShareVolume(_, name, share, _) =>
               share.quotaMB == if name in a.shares then a.shares[name].quotaMB else BytesToMBCeil(p.size)
    ensures SizeDecided(p, a, keepsSize, v)
  {
    AskedQuotaFits(p.size);
  }

  lemma NamespaceSizeDecided(p: Params, a: Store, keepsSize: bool, sourceSize: nat, v: Volume)
    requires v.NamespaceVolume? && RestoreSizeAllowed(p.size, sourceSize)
    requires IscsiVolumes.CopyDelivers(p.size, sourceSize, keepsSize, NvmeVolumes.NamespaceBefore(a, v.nsId), v.ns.size)
    requires !p.source.NoSource?
    ensures SizeDecided(p, a, keepsSize, v)
  {
  }

  lemma RestoredShareSizeDecided(p: Params, a: Store, keepsSize: bool, v: Volume)
    requires v.ShareVolume? && p.source.SourceSnapshot?
    requires BytesToMBCeil(p.size) != 0 ==> v.share.quotaMB == BytesToMBCeil(p.size)
    ensures SizeDecided(p, a, keepsSize, v)
  {
    AskedQuotaFits(p.size);
    if 0 < p.size < TWO_63 {
      AskedQuotaIsPositive(p.size);
    }
  }

  lemma LunSizeDecided(p: Params, a: Store, keepsSize: bool, sourceSize: nat, v: Volume)
    requires v.LunVolume? && RestoreSizeAllowed(p.size, sourceSize)
    requires IscsiVolumes.CopyDelivers(p.size, sourceSize, keepsSize, IscsiVolumes.LunBefore(a, v.lunId), v.lun.size)
    requires !p.source.NoSource?
    ensures SizeDecided(p, a, keepsSize, v)
  {
  }

  // A cloned share, whether or not clones on its DSM come with their source's quota.
  lemma ShareSizeDecided(dsm: Dsm, p: Params, a: Store, source: string, v: Volume)
    requires v.ShareVolume? && p.source.SourceVolume?
    requires v.shareName in a.shares
             || (source in a.shares
                 && (p.size == 0 || RestoreSizeAllowed(BytesToMBCeil(p.size), a.shares[source].quotaMB)))
    requires v.share.quotaMB
             == ShareVolumes.GrownQuota(ShareVolumes.FirstQuota(dsm, a, v.shareName, source), BytesToMBCeil(p.size))
    ensures SizeDecided(p, a, dsm.copiesKeepSize, v)
  {
    AskedQuotaFits(p.size);
    if 0 < p.size < TWO_63 {
      AskedQuotaIsPositive(p.size);
    }
  }

  // ---- the session limit ----

  predicate SessionsFit(p: Params, a: Store, b: Store, v: Volume) {
    v.LunVolume? ==> IscsiVolumes.SessionsSet(p.multiSession, a.targets, b.targets, v.targetId)
  }

  // ---- where shares may appear ----

  // A creation changes the shares of a DSM only if it is of a share; without a source only on DSMs it is open to, with
  // one only on one DSM.
  ghost predicate SharesSpared(p: Params, w: World, w': World) {
    w'.Keys == w.Keys &&
    forall ip | ip in w && w'[ip].store.shares != w[ip].store.shares ::
      && p.protocol.IsShare()
      && if p.source.NoSource? then Invited(p, ip)
         else forall other | other in w && other != ip :: w'[other].store.shares == w[other].store.shares
  }
}
