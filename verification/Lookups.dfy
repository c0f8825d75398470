/** Listing and finding volumes across the DSMs (DsmService in pkg/dsm/service/dsm.go and its two siblings). */
module Lookups {
  import opened Results
  import opened Names
  import opened Stores
  import opened Dsms
  import opened Volumes
  import opened Worlds

  ghost function BoxOf(dsm: Dsm): Box
    reads dsm
  {
    Box(dsm.isUc, dsm.supportNvmeof, dsm.store)
  }

  class DsmService {
    const dsms: map<string, Dsm>

    constructor (dsms: map<string, Dsm>)
      ensures this.dsms == dsms
    {
      this.dsms := dsms;
    }

    ghost function Members(): set<Dsm> {
      set ip | ip in dsms :: dsms[ip]
    }

    ghost predicate Valid()
      reads Members()
    {
      forall ip | ip in dsms :: dsms[ip].ip == ip && dsms[ip].Valid()
    }

    ghost function World(): World
      reads Members()
    {
      map ip | ip in dsms :: BoxOf(dsms[ip])
    }

    // ---- listISCSIVolumes, listNVMeVolumes, listSMBorNFSVolumes ----

    method List(kind: Kind, dsmIp: string, faults: set<Call>) returns (infos: seq<Volume>, failed: bool)
      requires Valid()
      ensures Listed(kind, World(), dsmIp, faults, infos, failed)
    {
      hide Incomplete, LunVisible, NamespaceVisible, ShareVisible, Answered, NoDuplicates, Dsm.Valid;
      infos, failed := [], false;
      ghost var w := World();
      NothingListed();
      var rest := dsms.Keys;
      while rest != {}
        invariant rest <= dsms.Keys
        invariant NoDuplicates(infos)
        invariant forall v :: v in infos <==>
                  IsOfKind(kind, v) && InScope(dsmIp, v.ip) && v.ip !in rest && Readable(w, faults, v)
        invariant failed <==>
                  exists ip | ip in w && ip !in rest && InScope(dsmIp, ip) :: Incomplete(kind, ip, w[ip], faults)
        decreases |rest|
      {
        var ip :| ip in rest;
        rest := rest - {ip};
        if dsmIp != "" && dsmIp != ip {
          continue;
        }
        assert dsms[ip].ip == ip && w[ip] == BoxOf(dsms[ip]);
        var more, incomplete := ListOn(kind, dsms[ip], faults);
        KindOnBox(kind, w);
        infos := Append(infos, more);
        failed := failed || incomplete;
      }
    }

    method ListOn(kind: Kind, dsm: Dsm, faults: set<Call>) returns (infos: seq<Volume>, failed: bool)
      requires dsm.Valid()
      ensures NoDuplicates(infos)
      ensures forall v :: v in infos <==> v.ip == dsm.ip && VisibleOn(kind, BoxOf(dsm), v) && Answered(faults, v)
      ensures failed <==> Incomplete(kind, dsm.ip, BoxOf(dsm), faults)
    {
      match kind {
        case Luns => infos, failed := ListLunsOf(dsm, faults);
        case Namespaces => infos, failed := ListNamespacesOf(dsm, faults);
        case Shares => infos, failed := ListSharesOf(dsm, faults);
      }
    }

    method ListNamespacesOf(dsm: Dsm, faults: set<Call>) returns (infos: seq<Volume>, failed: bool)
      ensures NoDuplicates(infos)
      ensures forall v :: v in infos <==> v.ip == dsm.ip && NamespaceVisible(BoxOf(dsm), v) && Answered(faults, v)
      ensures failed <==> NvmeIncomplete(dsm.ip, BoxOf(dsm), faults)
    {
      infos, failed := [], false;
      ghost var box := BoxOf(dsm);
      if !dsm.supportNvmeof {
        return;
      }
      if Call(dsm.ip, NamespaceList) in faults {
        failed := true;
        return;
      }
      var rest := dsm.store.namespaces.Keys;
      while rest != {}
        invariant rest <= dsm.store.namespaces.Keys
        invariant NoDuplicates(infos)
        invariant forall v :: v in infos <==>
                  v.ip == dsm.ip && NamespaceVisible(box, v) && v.nsId !in rest && Answered(faults, v)
        invariant failed <==>
                  exists n | n in dsm.store.namespaces && n !in rest && IsAttachedCsi(dsm.store.namespaces[n]) ::
                                Call(dsm.ip, SubsystemGet(n)) in faults
                                    || dsm.store.namespaces[n].subsystem !in dsm.store.subsystems
      {
        var nsId :| nsId in rest;
        rest := rest - {nsId};
        var ns := dsm.store.namespaces[nsId];
        if !IsAttachedCsi(ns) {
          continue;
        }
        if Call(dsm.ip, SubsystemGet(nsId)) in faults || ns.subsystem !in dsm.store.subsystems {
          failed := true;
          continue;
        }
        infos := infos + [NamespaceVolume(dsm.ip, nsId, ns, ns.subsystem, dsm.store.subsystems[ns.subsystem])];
      }
    }

    method ListSharesOf(dsm: Dsm, faults: set<Call>) returns (infos: seq<Volume>, failed: bool)
      ensures NoDuplicates(infos)
      ensures forall v :: v in infos <==> v.ip == dsm.ip && ShareVisible(BoxOf(dsm), v) && Answered(faults, v)
      ensures failed <==> SharesIncomplete(dsm.ip, BoxOf(dsm), faults)
    {
      infos, failed := [], false;
      ghost var box := BoxOf(dsm);
      if dsm.isUc {
        return;
      }
      if Call(dsm.ip, ShareList) in faults {
        failed := true;
        return;
      }
      var rest := dsm.store.shares.Keys;
      while rest != {}
        invariant rest <= dsm.store.shares.Keys
        invariant NoDuplicates(infos)
        invariant forall v :: v in infos <==>
                  v.ip == dsm.ip && ShareVisible(box, v) && v.shareName !in rest && Answered(faults, v)
        invariant failed <==>
                  exists n | n in dsm.store.shares && n !in rest && IsCsiName(n) ::
                        Call(dsm.ip, PrivilegeLoad(n)) in faults
      {
        var name :| name in rest;
        rest := rest - {name};
        if !IsCsiName(name) {
          continue;
        }
        if Call(dsm.ip, PrivilegeLoad(name)) in faults {
          failed := true;
          continue;
        }
        var share := dsm.store.shares[name];
        infos := infos + [ShareVolume(dsm.ip, name, share, ShareProtocol(share))];
      }
    }

    // ---- findSMBorNFSVolume ----

    // classified counts the shares whose protocol was asked for.
    method FindShare(faults: set<Call>, matchShare: (string, Share) -> bool) returns (r: Lookup, classified: nat)
      requires Valid()
      ensures ShareLookup(World(), faults, matchShare, r)
      ensures classified <= 1
      ensures (forall v | Visible(World(), v) && v.ShareVolume? :: !matchShare(v.shareName, v.share)) ==>
                classified == 0
    {
      hide ShareLookup, Visible, Dsm.Valid;
      r, classified := Absent, 0;
      ghost var w := World();
      var rest := dsms.Keys;
      while rest != {}
        invariant rest <= dsms.Keys
        invariant !r.Found? && classified == 0
        invariant r.Absent? <==> forall ip | ip in w && !w[ip].isUc && ip !in rest :: Call(ip, ShareList) !in faults
        invariant forall ip | ip in w && ip !in rest && Call(ip, ShareList) !in faults :: NoMatchOn(w[ip], matchShare)
        decreases |rest|
      {
        var ip :| ip in rest;
        rest := rest - {ip};
        var dsm := dsms[ip];
        assert dsm.ip == ip && w[ip] == BoxOf(dsm);
        if dsm.isUc {
          continue;
        }
        if Call(ip, ShareList) in faults {
          r := Unknown;
          continue;
        }
        var name := FirstMatch(dsm, matchShare);
        assert World() == w;
        if name.Some? {
          classified := 1;
          MatchIsVisible(w, ip, matchShare, name.value);
          var share := dsm.store.shares[name.value];
          r := if Call(ip, PrivilegeLoad(name.value)) in faults then Unknown
               else Found(ShareVolume(ip, name.value, share, ShareProtocol(share)));
          PickedShare(w, faults, matchShare, ip, name.value, r);
          return;
        }
      }
      assert World() == w;
      NoSharePicked(w, faults, matchShare, r);
    }

    // Some share of the list with the CSI prefix that matches.
    method FirstMatch(dsm: Dsm, matchShare: (string, Share) -> bool) returns (r: Option<string>)
      requires !dsm.isUc
      ensures r.Some? ==> MatchOn(BoxOf(dsm), matchShare, r.value)
      ensures r.None? ==> NoMatchOn(BoxOf(dsm), matchShare)
    {
      var rest := dsm.store.shares.Keys;
      while rest != {}
        invariant rest <= dsm.store.shares.Keys
        invariant forall n | n !in rest :: !MatchOn(BoxOf(dsm), matchShare, n)
        decreases |rest|
      {
        var name :| name in rest;
        rest := rest - {name};
        if IsCsiName(name) && matchShare(name, dsm.store.shares[name]) {
          return Some(name);
        }
      }
      return None;
    }

    // ---- findVolume and its callers ----

    method FindVolume(faults: set<Call>, matchShare: (string, Share) -> bool, matchVolume: Volume -> bool)
      returns (r: Lookup)
      requires Valid()
      ensures VolumeLookup(World(), faults, matchShare, matchVolume, r)
    {
      hide ShareLookup, VolumeLookup, Listed, Dsm.Valid;
      var share, _ := FindShare(faults, matchShare);
      ghost var w := World();
      if share.Found? {
        FoundShare(w, faults, matchShare, matchVolume, share);
        return share;
      }
      var luns, iscsiFailed := List(Luns, "", faults);
      assert World() == w;
      var lun := FirstVolume(luns, matchVolume);
      if lun.Some? {
        FoundInListing(Luns, w, faults, luns, iscsiFailed, matchShare, matchVolume, lun.value);
        assert World() == w;
        return Found(lun.value);
      }
      var namespaces, nvmeFailed := List(Namespaces, "", faults);
      assert World() == w;
      var ns := FirstVolume(namespaces, matchVolume);
      if ns.Some? {
        FoundInListing(Namespaces, w, faults, namespaces, nvmeFailed, matchShare, matchVolume, ns.value);
        assert World() == w;
        return Found(ns.value);
      }
      assert World() == w;
      ExhaustedLookup(w, faults, matchShare, matchVolume, share, luns, iscsiFailed, namespaces, nvmeFailed);
      return if share.Unknown? || iscsiFailed || nvmeFailed then Unknown else Absent;
    }

    // GetVolume
    method GetVolume(faults: set<Call>, volId: string) returns (r: Lookup)
      requires Valid()
      ensures VolumeLookup(World(), faults, IdShare(volId), IdVolume(volId), r)
    {
      r := FindVolume(faults, IdShare(volId), IdVolume(volId));
    }

    // GetVolumeByName
    method GetVolumeByName(faults: set<Call>, volName: string) returns (r: Lookup)
      requires Valid()
      ensures VolumeLookup(World(), faults, NameShare(volName), NameVolume(volName), r)
    {
      r := FindVolume(faults, NameShare(volName), NameVolume(volName));
    }

    method ListLunsOf(dsm: Dsm, faults: set<Call>) returns (infos: seq<Volume>, failed: bool)
      requires dsm.Valid()
      ensures NoDuplicates(infos)
      ensures forall v :: v in infos <==> v.ip == dsm.ip && LunVisible(BoxOf(dsm), v) && Answered(faults, v)
      ensures failed <==> IscsiIncomplete(dsm.ip, BoxOf(dsm), faults)
    {
      infos, failed := [], false;
      ghost var box := BoxOf(dsm);
      if Call(dsm.ip, TargetList) in faults {
        failed := true;
        return;
      }
      var rest := dsm.store.targets.Keys;
      while rest != {}
        invariant rest <= dsm.store.targets.Keys
        invariant NoDuplicates(infos)
        invariant forall v :: v in infos <==>
                  v.ip == dsm.ip && LunVisible(box, v) && v.targetId !in rest && Answered(faults, v)
        invariant failed <==> exists t, m | t in dsm.store.targets && t !in rest && m in dsm.store.targets[t].mapped ::
                                Call(dsm.ip, LunGet(t, m.lun)) in faults || m.lun !in dsm.store.luns
      {
        var id :| id in rest;
        var more, incomplete := ListLunsOfTarget(dsm, id, faults);
        infos := Append(infos, more);
        failed := failed || incomplete;
        rest := rest - {id};
      }
    }

    method ListLunsOfTarget(dsm: Dsm, id: TargetId, faults: set<Call>) returns (infos: seq<Volume>, failed: bool)
      requires dsm.Valid() && id in dsm.store.targets
      requires Call(dsm.ip, TargetList) !in faults
      ensures NoDuplicates(infos)
      ensures forall v :: v in infos <==>
              v.ip == dsm.ip && LunVisible(BoxOf(dsm), v) && v.targetId == id && Answered(faults, v)
      ensures failed <==>
              exists m | m in dsm.store.targets[id].mapped ::
                    Call(dsm.ip, LunGet(id, m.lun)) in faults || m.lun !in dsm.store.luns
    {
      infos, failed := [], false;
      ghost var box := BoxOf(dsm);
      var target := dsm.store.targets[id];
      for i := 0 to |target.mapped|
        invariant NoDuplicates(infos)
        invariant forall v :: v in infos <==>
                  v.ip == dsm.ip && LunVisible(box, v) && v.targetId == id && Maps(target.mapped[..i], v.lunId)
                      && Answered(faults, v)
        invariant failed <==>
                  exists m | m in target.mapped[..i] ::
                        Call(dsm.ip, LunGet(id, m.lun)) in faults || m.lun !in dsm.store.luns
      {
        assert target.mapped[..i + 1] == target.mapped[..i] + [target.mapped[i]];
        var uuid := target.mapped[i].lun;
        if Call(dsm.ip, LunGet(id, uuid)) in faults || uuid !in dsm.store.luns {
          failed := true;
          continue;
        }
        var lun := dsm.store.luns[uuid];
        if !(DEVICE_PREFIX <= lun.name) {
          continue;
        }
        infos := infos + [LunVolume(dsm.ip, uuid, lun, id, target)];
      }
      assert target.mapped[..|target.mapped|] == target.mapped;
    }
  }

  // Joins two listings that have nothing in common.
  function Append(a: seq<Volume>, b: seq<Volume>): (r: seq<Volume>)
    requires NoDuplicates(a) && NoDuplicates(b) && forall v | v in a :: v !in b
    ensures NoDuplicates(r)
    ensures forall v :: v in r <==> v in a || v in b
  {
    JoinedHasNoDuplicates(a, b);
    a + b
  }

  lemma JoinedHasNoDuplicates(a: seq<Volume>, b: seq<Volume>)
    requires NoDuplicates(a) && NoDuplicates(b) && forall v | v in a :: v !in b
    ensures NoDuplicates(a + b)
  {
    forall i, j | 0 <= i < j < |a + b| ensures (a + b)[i] != (a + b)[j] {
      if i < |a| <= j {
        assert (a + b)[i] in a && (a + b)[j] in b;
      }
    }
  }

  lemma KindOnBox(kind: Kind, w: World)
    ensures forall v :: IsOfKind(kind, v) && Visible(w, v) <==> v.ip in w && VisibleOn(kind, w[v.ip], v)
  {
  }

  lemma NothingListed()
    ensures NoDuplicates<Volume>([])
  {
  }

  // name is a share of the box that a lookup with matchShare would pick.
  ghost predicate MatchOn(box: Box, matchShare: (string, Share) -> bool, name: string) {
    !box.isUc && name in box.store.shares && IsCsiName(name) && matchShare(name, box.store.shares[name])
  }

  ghost predicate NoMatchOn(box: Box, matchShare: (string, Share) -> bool) {
    forall n :: !MatchOn(box, matchShare, n)
  }

  ghost function Classified(ip: string, name: string, share: Share): Volume {
    ShareVolume(ip, name, share, ShareProtocol(share))
  }

  lemma MatchIsVisible(w: World, ip: string, matchShare: (string, Share) -> bool, name: string)
    requires ip in w && MatchOn(w[ip], matchShare, name)
    ensures Visible(w, Classified(ip, name, w[ip].store.shares[name]))
  {
  }

  // A matching share that was listed decides the lookup, whichever way its classification went.
  lemma PickedShare(w: World, faults: set<Call>, matchShare: (string, Share) -> bool, ip: string, name: string,
                    r: Lookup)
    requires ip in w && MatchOn(w[ip], matchShare, name) && Call(ip, ShareList) !in faults
    requires r == if Call(ip, PrivilegeLoad(name)) in faults then Unknown
             else Found(Classified(ip, name, w[ip].store.shares[name]))
    ensures ShareLookup(w, faults, matchShare, r)
  {
    MatchIsVisible(w, ip, matchShare, name);
    var picked := Classified(ip, name, w[ip].store.shares[name]);
    assert Visible(w, picked) && picked.ShareVolume? && matchShare(picked.shareName, picked.share);
  }

  // No share list that was read holds a match.
  lemma NoSharePicked(w: World, faults: set<Call>, matchShare: (string, Share) -> bool, r: Lookup)
    requires !r.Found? && (r.Absent? <==> ShareListingsAnswer(w, faults))
    requires forall ip | ip in w && Call(ip, ShareList) !in faults :: NoMatchOn(w[ip], matchShare)
    ensures ShareLookup(w, faults, matchShare, r)
  {
    forall v | Visible(w, v) && v.ShareVolume? && Call(v.ip, ShareList) !in faults
      ensures !matchShare(v.shareName, v.share)
    {
      assert !MatchOn(w[v.ip], matchShare, v.shareName);
    }
  }

  method FirstVolume(infos: seq<Volume>, matchVolume: Volume -> bool) returns (r: Option<Volume>)
    ensures r.Some? ==> r.value in infos && matchVolume(r.value)
    ensures r.None? ==> forall v | v in infos :: !matchVolume(v)
  {
    for i := 0 to |infos|
      invariant forall j | 0 <= j < i :: !matchVolume(infos[j])
    {
      if matchVolume(infos[i]) {
        return Some(infos[i]);
      }
    }
    return None;
  }

  function IdShare(volId: string): (string, Share) -> bool {
    (name: string, share: Share) => share.uuid == volId
  }

  function IdVolume(volId: string): Volume -> bool {
    (v: Volume) => v.VolumeId() == volId
  }

  function NameShare(volName: string): (string, Share) -> bool {
    (name: string, share: Share) => name == GenShareName(volName)
  }

  function NameVolume(volName: string): Volume -> bool {
    (v: Volume) => NameMatches(volName, v.Name())
  }

  lemma FoundShare(w: World, faults: set<Call>, matchShare: (string, Share) -> bool, matchVolume: Volume -> bool,
                   r: Lookup)
    requires ShareLookup(w, faults, matchShare, r) && r.Found?
    ensures VolumeLookup(w, faults, matchShare, matchVolume, r)
  {
    assert Visible(w, r.volume) && Hit(matchShare, matchVolume, r.volume);
  }

  lemma FoundInListing(kind: Kind, w: World, faults: set<Call>, infos: seq<Volume>, failed: bool,
                       matchShare: (string, Share) -> bool, matchVolume: Volume -> bool, v: Volume)
    requires Listed(kind, w, "", faults, infos, failed) && kind != Shares
    requires v in infos && matchVolume(v)
    ensures VolumeLookup(w, faults, matchShare, matchVolume, Found(v))
  {
    assert Readable(w, faults, v) && Hit(matchShare, matchVolume, v);
  }

  // No share was found and neither listing holds a match.
  lemma ExhaustedLookup(w: World, faults: set<Call>, matchShare: (string, Share) -> bool, matchVolume: Volume -> bool,
                        share: Lookup, luns: seq<Volume>, iscsiFailed: bool, namespaces: seq<Volume>, nvmeFailed: bool)
    requires ShareLookup(w, faults, matchShare, share) && !share.Found?
    requires Listed(Luns, w, "", faults, luns, iscsiFailed) && Listed(Namespaces, w, "", faults, namespaces, nvmeFailed)
    requires (forall v | v in luns :: !matchVolume(v)) && (forall v | v in namespaces :: !matchVolume(v))
    ensures var r := if share.Unknown? || iscsiFailed || nvmeFailed then Unknown else Absent;
            VolumeLookup(w, faults, matchShare, matchVolume, r)
  {
    if !iscsiFailed && !nvmeFailed {
      forall ip | ip in w ensures !IscsiIncomplete(ip, w[ip], faults) && !NvmeIncomplete(ip, w[ip], faults) {
        assert InScope("", ip) && !Incomplete(Luns, ip, w[ip], faults) && !Incomplete(Namespaces, ip, w[ip], faults);
      }
      forall v | Visible(w, v) && !v.ShareVolume? ensures !matchVolume(v) {
        CompleteListingsShow(w, faults, luns, namespaces, v);
      }
    }
  }

  lemma CompleteListingsShow(w: World, faults: set<Call>, luns: seq<Volume>, namespaces: seq<Volume>, v: Volume)
    requires Listed(Luns, w, "", faults, luns, false) && Listed(Namespaces, w, "", faults, namespaces, false)
    requires Visible(w, v) && !v.ShareVolume?
    ensures v in luns || v in namespaces
  {
    assert !Incomplete(Luns, v.ip, w[v.ip], faults) && !Incomplete(Namespaces, v.ip, w[v.ip], faults);
    if v.LunVolume? {
      var m :| m in v.target.mapped && m.lun == v.lunId;
      assert Call(v.ip, LunGet(v.targetId, m.lun)) !in faults;
      assert Readable(w, faults, v);
    } else {
      assert IsAttachedCsi(w[v.ip].store.namespaces[v.nsId]);
      assert Readable(w, faults, v);
    }
  }
}
