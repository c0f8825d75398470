/** Creating a share volume (pkg/dsm/service/share_volume.go). */
module ShareVolumes {
  import opened Results
  import opened Sizes
  import opened Stores
  import opened Undoing
  import opened Outcomes
  import opened Dsms
  import opened Rollback
  import opened Volumes
  import IscsiVolumes

  ghost predicate ShareVolumeCreated(spec: CreateSpec, ip: string, a: Trace, b: Trace, v: Volume) {
    && NothingUndone(a, b)
    && ShareBuilt(spec.Names(), a.store, b.store)
    && v == ShareVolume(ip, spec.shareName, b.store.shares[spec.shareName], spec.protocol)
  }

  // createSMBorNFSVolumeByDsm
  method CreateVolumeByDsm(dsm: Dsm, spec: CreateSpec) returns (r: Result<Volume, Code>)
    requires dsm.Valid()
    modifies dsm, spec`location
    ensures dsm.Valid()
    ensures r.Ok? ==> ShareVolumeCreated(spec, dsm.ip, old(dsm.Now()), dsm.Now(), r.value)
    ensures r.Ok? && spec.shareName !in old(dsm.store).shares ==>
              r.value.share.quotaMB == BytesToMBCeil(spec.size) && r.value.share.volPath == spec.location
    ensures r.Ok? && spec.shareName in old(dsm.store).shares ==> r.value.share == old(dsm.store).shares[spec.shareName]
    ensures r.Ok? ==> spec.location in dsm.volumes && dsm.volumes[spec.location].fs != Ext4
    ensures r.Err? ==> RolledBack(spec.Names(), old(dsm.Now()), dsm.Now())
    ensures IscsiVolumes.Chosen(dsm, spec.size, true, old(spec.location), spec.location)
    ensures dsm.reliable ==> (r.Ok? <==> spec.location in dsm.volumes && dsm.volumes[spec.location].fs != Ext4)
  {
    var rollback := new CreateRollback();
    ghost var start := dsm.Now();
    r := TryVolumeByDsm(dsm, spec, rollback);
    if r.Err? {
      RollBack(dsm, rollback, spec.Names(), start);
    }
  }

  method TryVolumeByDsm(dsm: Dsm, spec: CreateSpec, rollback: CreateRollback) returns (r: Result<Volume, Code>)
    requires dsm.Valid() && rollback.steps == []
    modifies dsm, spec`location, rollback
    ensures dsm.Valid()
    ensures r.Ok? ==> ShareVolumeCreated(spec, dsm.ip, old(dsm.Now()), dsm.Now(), r.value)
    ensures r.Ok? && spec.shareName !in old(dsm.store).shares ==>
              r.value.share.quotaMB == BytesToMBCeil(spec.size) && r.value.share.volPath == spec.location
    ensures r.Ok? && spec.shareName in old(dsm.store).shares ==> r.value.share == old(dsm.store).shares[spec.shareName]
    ensures r.Ok? ==> spec.location in dsm.volumes && dsm.volumes[spec.location].fs != Ext4
    ensures r.Err? ==> Pending(spec.Names(), old(dsm.Now()), dsm.Now(), rollback.steps)
    ensures IscsiVolumes.Chosen(dsm, spec.size, true, old(spec.location), spec.location)
    ensures dsm.reliable ==> (r.Ok? <==> spec.location in dsm.volumes && dsm.volumes[spec.location].fs != Ext4)
  {
    hide Store.Valid, Registered, Pending, ShareVolumeCreated;
    ghost var own, start := spec.Names(), dsm.Now();
    NothingRegistered(own, start);
    RegisteredIsPending(own, start, start, []);

    var fs := IscsiVolumes.ChooseLocation(dsm, spec, true);
    if fs.Err? {
      return Err(fs.error);
    }
    if fs.value == Ext4 {
      return Err(InvalidArgument);
    }

    var sizeInMB := BytesToMBCeil(spec.size);
    var created := dsm.ShareCreate(spec.shareName, spec.location, sizeInMB);
    if created.Err? {
      if created.error != AlreadyExist {
        return Err(Internal);
      }
    } else {
      rollback.Add(UndoShare(spec.shareName));
      ShareRegistered(own, start, dsm.Now());
      assert rollback.steps == [UndoShare(spec.shareName)];
    }
    RegisteredIsPending(own, start, dsm.Now(), rollback.steps);

    var got := dsm.ShareGet(spec.shareName);
    if got.Err? {
      return Err(Internal);
    }
    r := Ok(ShareVolume(dsm.ip, spec.shareName, got.value, spec.protocol));
    ShareVolumeFromParts(spec, dsm.ip, start, dsm.Now(), rollback.steps, r.value);
  }

  // createSMBorNFSVolumeBySnapshot: the request is checked against the quota the copy came back with.
  method CreateVolumeBySnapshot(dsm: Dsm, spec: CreateSpec, src: Snapshot) returns (r: Result<Volume, Code>)
    requires dsm.Valid()
    modifies dsm
    ensures dsm.Valid()
    ensures r.Ok? ==> ShareVolumeCreated(spec, dsm.ip, old(dsm.Now()), dsm.Now(), r.value)
    ensures r.Ok? ==> QuotaDelivers(spec.size, r.value.share.quotaMB)
    ensures r.Ok? ==>
              && src.parentName in old(dsm.store).shares
              && QuotaAllows(dsm, spec.Asked(), old(dsm.store), src.parentName)
    ensures r.Ok? && spec.shareName !in old(dsm.store).shares ==> r.value.share.volPath == src.rootPath
    ensures r.Err? ==> RolledBack(spec.Names(), old(dsm.Now()), dsm.Now())
    ensures dsm.reliable ==> (r.Ok? <==> SourceServes(dsm, spec.Asked(), src, old(dsm.store)))
    ensures dsm.reliable ==>
              (r == Err(OutOfRange) <==>
                 && dsm.HasShareSource(old(dsm.store), src.parentName, Some(src.uuid))
                 && !QuotaAllows(dsm, spec.Asked(), old(dsm.store), src.parentName))
    ensures r.Ok? && BytesToMBCeil(spec.size) != 0 ==> r.value.share.quotaMB == BytesToMBCeil(spec.size)
  {
    var rollback := new CreateRollback();
    ghost var start := dsm.Now();
    r := TryVolumeBySnapshot(dsm, spec, src, rollback);
    if r.Err? {
      RollBack(dsm, rollback, spec.Names(), start);
    }
  }

  // The quota of the share found under the name, else what a copy of the source starts with.
  function FirstQuota(dsm: Dsm, s: Store, name: string, source: string): int {
    if name in s.shares then s.shares[name].quotaMB
    else if dsm.copiesKeepQuota && source in s.shares then s.shares[source].quotaMB
    else 0
  }

  // The size check of a restore looks at that quota only: a copy that came without one passes whatever its source had.
  predicate QuotaAllows(dsm: Dsm, p: Params, s: Store, source: string) {
    var quotaMB := FirstQuota(dsm, s, p.own.share, source);
    quotaMB == 0 || RestoreSizeAllowed(BytesToMBCeil(p.size), quotaMB)
  }

  predicate SourceServes(dsm: Dsm, p: Params, src: Snapshot, s: Store) {
    dsm.HasShareSource(s, src.parentName, Some(src.uuid)) && QuotaAllows(dsm, p, s, src.parentName)
  }

  // A new share restored to less than its source's quota is refused exactly if clones on the DSM keep their quota.
  lemma SmallerRestoreIsRefusedIff(dsm: Dsm, p: Params, src: Snapshot, s: Store)
    requires dsm.HasShareSource(s, src.parentName, Some(src.uuid)) && p.own.share !in s.shares
    requires 0 < BytesToMBCeil(p.size) < s.shares[src.parentName].quotaMB
    ensures !SourceServes(dsm, p, src, s) <==> dsm.copiesKeepQuota
  {
  }

  // For example: a source of 2 GiB, asked for as 1 GiB.
  lemma SmallerRestoreSucceeds(dsm: Dsm, own: Own, src: Snapshot) returns (p: Params, s: Store)
    requires src.parentName != "" && src.parentName != own.share && src.uuid in dsm.snapshots && !dsm.copiesKeepQuota
    ensures p.own == own && p.source == SourceSnapshot(Some(src)) && p.size == UNIT_GB
    ensures src.parentName in s.shares && MBToBytes(s.shares[src.parentName].quotaMB) == 2 * UNIT_GB
    ensures SourceServes(dsm, p, src, s)
  {
    p := Params(own, "", "", UNIT_GB, "", false, SourceSnapshot(Some(src)), Smb, "");
    s := Store(map[], map[], map[], map[], map[src.parentName := Share("1", src.rootPath, 2048, false)]);
  }

  // That quota was kept unless it was missing or too small.
  function GrownQuota(firstMB: int, requestedMB: int): int {
    if firstMB == 0 || requestedMB > firstMB then requestedMB else firstMB
  }

  // The quota covers the request in whole MiB.
  ghost predicate QuotaDelivers(requested: nat, quotaMB: int) {
    quotaMB >= BytesToMBCeil(requested)
  }

  method TryVolumeBySnapshot(dsm: Dsm, spec: CreateSpec, src: Snapshot, rollback: CreateRollback)
    returns (r: Result<Volume, Code>)
    requires dsm.Valid() && rollback.steps == []
    modifies dsm, rollback
    ensures dsm.Valid()
    ensures r.Ok? ==> ShareVolumeCreated(spec, dsm.ip, old(dsm.Now()), dsm.Now(), r.value)
    ensures r.Ok? ==> QuotaDelivers(spec.size, r.value.share.quotaMB)
    ensures r.Ok? ==>
              && src.parentName in old(dsm.store).shares
              && QuotaAllows(dsm, spec.Asked(), old(dsm.store), src.parentName)
    ensures r.Ok? && spec.shareName !in old(dsm.store).shares ==> r.value.share.volPath == src.rootPath
    ensures r.Err? ==> Pending(spec.Names(), old(dsm.Now()), dsm.Now(), rollback.steps)
    ensures dsm.reliable ==> (r.Ok? <==> SourceServes(dsm, spec.Asked(), src, old(dsm.store)))
    ensures dsm.reliable ==>
              (r == Err(OutOfRange) <==>
                 && dsm.HasShareSource(old(dsm.store), src.parentName, Some(src.uuid))
                 && !QuotaAllows(dsm, spec.Asked(), old(dsm.store), src.parentName))
    ensures r.Ok? && BytesToMBCeil(spec.size) != 0 ==> r.value.share.quotaMB == BytesToMBCeil(spec.size)
  {
    hide Store.Valid, Registered, Pending, ShareVolumeCreated;
    ghost var own, start := spec.Names(), dsm.Now();
    NothingRegistered(own, start);
    RegisteredIsPending(own, start, start, []);

    var source := dsm.ShareGet(src.parentName);
    if source.Err? {
      return Err(Internal);
    }
    var cloned := dsm.ShareClone(spec.shareName, src.parentName, Some(src.uuid), src.rootPath);
    if cloned.Err? {
      if cloned.error != AlreadyExist {
        return Err(Internal);
      }
      // Adopted: nothing to undo.
    } else {
      rollback.Add(UndoShare(spec.shareName));
      ShareRegistered(own, start, dsm.Now());
      assert rollback.steps == [UndoShare(spec.shareName)];
    }
    RegisteredIsPending(own, start, dsm.Now(), rollback.steps);
    ghost var afterClone := dsm.Now();

    var got := dsm.ShareGet(spec.shareName);
    if got.Err? {
      return Err(Internal);
    }
    var share := got.value;
    var newSizeInMB := BytesToMBCeil(spec.size);
    if share.quotaMB == 0 {
      var set0 := dsm.SetShareQuota(spec.shareName, newSizeInMB);
      if set0.Err? {
        return Err(Internal);
      }
      share := share.(quotaMB := newSizeInMB);
      QuotaKeepsRegistered(own, start, afterClone, dsm.Now(), rollback.steps, newSizeInMB);
      RegisteredIsPending(own, start, dsm.Now(), rollback.steps);
    }
    if !RestoreSizeAllowed(newSizeInMB, share.quotaMB) {
      return Err(OutOfRange);
    }
    ghost var afterQuota := dsm.Now();
    if newSizeInMB > share.quotaMB {
      var raised := dsm.SetShareQuota(spec.shareName, newSizeInMB);
      if raised.Err? {
        return Err(Internal);
      }
      share := share.(quotaMB := newSizeInMB);
      QuotaKeepsRegistered(own, start, afterQuota, dsm.Now(), rollback.steps, newSizeInMB);
      RegisteredIsPending(own, start, dsm.Now(), rollback.steps);
    }
    r := Ok(ShareVolume(dsm.ip, spec.shareName, share, spec.protocol));
    ShareVolumeFromParts(spec, dsm.ip, start, dsm.Now(), rollback.steps, r.value);
  }

  // createSMBorNFSVolumeByVolume; srcShare is empty and its name "" when the source volume is not a share.
  method CreateVolumeByVolume(dsm: Dsm, spec: CreateSpec, srcName: string, srcShare: Share)
    returns (r: Result<Volume, Code>)
    requires dsm.Valid()
    modifies dsm
    ensures dsm.Valid()
    ensures r.Ok? ==> ShareVolumeCreated(spec, dsm.ip, old(dsm.Now()), dsm.Now(), r.value)
    ensures r.Ok? ==> QuotaDelivers(spec.size, r.value.share.quotaMB)
    ensures r.Err? ==> RolledBack(spec.Names(), old(dsm.Now()), dsm.Now())
    ensures r.Ok? && spec.shareName !in old(dsm.store).shares ==> r.value.share.volPath == srcShare.volPath
    ensures r == Err(OutOfRange) <==> spec.size != 0 && !RestoreSizeAllowed(BytesToMBCeil(spec.size), srcShare.quotaMB)
    ensures r == Err(OutOfRange) ==> dsm.Now() == old(dsm.Now())
    ensures dsm.reliable ==>
              (r.Ok? <==>
                 && (spec.size == 0 || RestoreSizeAllowed(BytesToMBCeil(spec.size), srcShare.quotaMB))
                 && srcName != "" && srcName in old(dsm.store).shares)
    ensures r.Ok? ==>
              r.value.share.quotaMB
              == GrownQuota(FirstQuota(dsm, old(dsm.store), spec.shareName, srcName), BytesToMBCeil(spec.size))
    ensures r.Ok? ==> spec.shareName in old(dsm.store).shares || (srcName != "" && srcName in old(dsm.store).shares)
  {
    var rollback := new CreateRollback();
    ghost var start := dsm.Now();
    if spec.size != 0 && !RestoreSizeAllowed(BytesToMBCeil(spec.size), srcShare.quotaMB) {
      NothingRegistered(spec.Names(), start);
      return Err(OutOfRange);
    }
    r := TryVolumeByVolume(dsm, spec, srcName, srcShare, rollback);
    if r.Err? {
      RollBack(dsm, rollback, spec.Names(), start);
    }
  }

  method TryVolumeByVolume(dsm: Dsm, spec: CreateSpec, srcName: string, srcShare: Share, rollback: CreateRollback)
    returns (r: Result<Volume, Code>)
    requires dsm.Valid() && rollback.steps == []
    modifies dsm, rollback
    ensures dsm.Valid()
    ensures r != Err(OutOfRange)
    ensures r.Ok? ==> ShareVolumeCreated(spec, dsm.ip, old(dsm.Now()), dsm.Now(), r.value)
    ensures r.Ok? ==> QuotaDelivers(spec.size, r.value.share.quotaMB)
    ensures r.Ok? && spec.shareName !in old(dsm.store).shares ==> r.value.share.volPath == srcShare.volPath
    ensures r.Err? ==> Pending(spec.Names(), old(dsm.Now()), dsm.Now(), rollback.steps)
    ensures dsm.reliable ==> (r.Ok? <==> srcName != "" && srcName in old(dsm.store).shares)
    ensures r.Ok? ==>
              r.value.share.quotaMB
              == GrownQuota(FirstQuota(dsm, old(dsm.store), spec.shareName, srcName), BytesToMBCeil(spec.size))
    ensures r.Ok? ==> spec.shareName in old(dsm.store).shares || (srcName != "" && srcName in old(dsm.store).shares)
  {
    hide Store.Valid, Registered, Pending, ShareVolumeCreated;
    ghost var own, start := spec.Names(), dsm.Now();
    NothingRegistered(own, start);
    RegisteredIsPending(own, start, start, []);

    var cloned := dsm.ShareClone(spec.shareName, srcName, None, srcShare.volPath);
    if cloned.Err? {
      if cloned.error != AlreadyExist {
        return Err(Internal);
      }
    } else {
      rollback.Add(UndoShare(spec.shareName));
      ShareRegistered(own, start, dsm.Now());
      assert rollback.steps == [UndoShare(spec.shareName)];
    }
    RegisteredIsPending(own, start, dsm.Now(), rollback.steps);
    ghost var afterClone := dsm.Now();

    var got := dsm.ShareGet(spec.shareName);
    if got.Err? {
      return Err(Internal);
    }
    var share := got.value;
    var newSizeInMB := BytesToMBCeil(spec.size);
    // Without a quota the copy gets the requested one; a smaller quota is raised.
    if share.quotaMB == 0 || newSizeInMB > share.quotaMB {
      var set_ := dsm.SetShareQuota(spec.shareName, newSizeInMB);
      if set_.Err? {
        return Err(Internal);
      }
      share := share.(quotaMB := newSizeInMB);
      QuotaKeepsRegistered(own, start, afterClone, dsm.Now(), rollback.steps, newSizeInMB);
      RegisteredIsPending(own, start, dsm.Now(), rollback.steps);
    }
    r := Ok(ShareVolume(dsm.ip, spec.shareName, share, spec.protocol));
    ShareVolumeFromParts(spec, dsm.ip, start, dsm.Now(), rollback.steps, r.value);
  }

  lemma ShareRegistered(own: Own, a: Trace, b: Trace)
    requires own.share !in a.store.shares && own.share in b.store.shares && !b.store.shares[own.share].exported
    requires b.store == a.store.(shares := a.store.shares[own.share := b.store.shares[own.share]])
    requires b.made == a.made + [UndoShare(own.share)] && b.tried == a.tried
    ensures Registered(own, a, b, [UndoShare(own.share)])
  {
  }

  lemma QuotaKeepsRegistered(own: Own, a: Trace, b: Trace, c: Trace, steps: seq<Undo>, n: int)
    requires Registered(own, a, b, steps) && c.made == b.made && c.tried == b.tried
    requires own.share in b.store.shares
    requires c.store == b.store.(shares := b.store.shares[own.share := b.store.shares[own.share].(quotaMB := n)])
    ensures Registered(own, a, c, steps)
  {
  }

  lemma ShareVolumeFromParts(spec: CreateSpec, ip: string, a: Trace, b: Trace, steps: seq<Undo>, v: Volume)
    requires Registered(spec.Names(), a, b, steps)
    requires steps == [] || steps == [UndoShare(spec.shareName)]
    requires b.store == a.store.(shares := b.store.shares) && spec.shareName in b.store.shares
    requires spec.shareName !in a.store.shares ==> !b.store.shares[spec.shareName].exported
    requires v == ShareVolume(ip, spec.shareName, b.store.shares[spec.shareName], spec.protocol)
    ensures ShareVolumeCreated(spec, ip, a, b, v)
  {
    forall n | n in b.store.shares && n !in a.store.shares ensures n == spec.shareName {
      assert UndoShare(n) in StepSet(steps);
    }
  }
}
