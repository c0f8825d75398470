/** Creating a LUN and the target that serves it (pkg/dsm/service/dsm.go). */
module IscsiVolumes {
  import opened Results
  import opened Sizes
  import opened Stores
  import opened Undoing
  import opened Outcomes
  import opened Dsms
  import opened Rollback
  import opened Volumes

  // getLunTypeByInputParams: an explicit type wins; otherwise the file system has to be a known one.
  function LunType(lunType: string, fs: FsType): Option<string> {
    if lunType != "" then Some(lunType)
    else match fs
      case Ext4 => Some("ADV or FILE")
      case Btrfs => Some("BLUN or BLUN_THICK")
      case OtherFs => None
  }

  method CreateMappingTarget(dsm: Dsm, spec: CreateSpec, lunId: Uuid) returns (r: Result<(TargetId, Target), Code>)
    requires dsm.Valid()
    modifies dsm
    ensures dsm.Valid()
    ensures r.Ok? ==> TargetMapped(spec, old(dsm.Now()), dsm.Now(), lunId, r.value.0)
    ensures r.Err? ==> RolledBack(spec.Names(), old(dsm.Now()), dsm.Now())
    ensures dsm.reliable ==> (r.Ok? <==> lunId in old(dsm.store).luns)
    ensures dsm.store.shares == old(dsm.store.shares)
  {
    // A failure undoes the target here and leaves the LUN to the caller.
    var rollback := new CreateRollback();
    ghost var start := dsm.Now();
    r := TryMappingTarget(dsm, spec, lunId, rollback);
    if r.Err? {
      RollBack(dsm, rollback, spec.Names(), start);
    }
  }

  // A target takes any number of sessions if that is asked for; else one if it is new, or as many as before.
  predicate SessionsSet(multiSession: bool, a: map<TargetId, Target>, b: map<TargetId, Target>, id: TargetId) {
    id in b && b[id].maxSessions == if multiSession then 0 else if id in a then a[id].maxSessions else 1
  }

  ghost predicate TargetMapped(spec: CreateSpec, a: Trace, b: Trace, lunId: Uuid, id: TargetId) {
    && NothingUndone(a, b)
    && TargetBuilt(spec.Names(), a.store.targets, b.store.targets, lunId, id)
    && b.store == a.store.(targets := b.store.targets)
    && SessionsSet(spec.multipleSession, a.store.targets, b.store.targets, id)
  }

  method TryMappingTarget(dsm: Dsm, spec: CreateSpec, lunId: Uuid, rollback: CreateRollback)
    returns (r: Result<(TargetId, Target), Code>)
    requires dsm.Valid() && rollback.steps == []
    modifies dsm`store, dsm`made, rollback
    ensures dsm.Valid()
    ensures r.Ok? ==> TargetMapped(spec, old(dsm.Now()), dsm.Now(), lunId, r.value.0)
    ensures r.Err? ==> Pending(spec.Names(), old(dsm.Now()), dsm.Now(), rollback.steps)
    ensures dsm.reliable ==> (r.Ok? <==> lunId in old(dsm.store).luns)
    ensures dsm.store.shares == old(dsm.store.shares)
    ensures forall step | step in rollback.steps :: !step.UndoShare?
  {
    hide Store.Valid, Registered, Pending, TargetMapped;
    ghost var own, start := spec.Names(), dsm.Now();
    NothingRegistered(own, start);
    var created := dsm.TargetCreate(spec.targetName);
    if created.Err? {
      if created.error != AlreadyExist {
        RegisteredIsPending(own, start, dsm.Now(), []);
        return Err(Internal);
      }
      // Adopted: nothing to undo.
    } else {
      rollback.Add(UndoTarget(created.value));
      TargetRegistered(own, start, dsm.Now(), created.value);
      assert rollback.steps == [UndoTarget(created.value)] && dsm.store.targets[created.value].name == spec.targetName;
    }
    RegisteredIsPending(own, start, dsm.Now(), rollback.steps);

    ghost var afterCreate := dsm.Now();
    var got := dsm.TargetGetByName(spec.targetName);
    if got.Err? {
      return Err(Internal);
    }
    var id := got.value;
    var info := dsm.store.targets[id];

    if spec.multipleSession {
      var done := dsm.TargetSet(id, 0);
      if done.Err? {
        return Err(Internal);
      }
      SessionsKeepRegistered(own, start, afterCreate, dsm.Now(), rollback.steps, id, 0);
      RegisteredIsPending(own, start, dsm.Now(), rollback.steps);
    }

    ghost var afterSet := dsm.Now();
    var mapped := dsm.LunMapTarget(id, lunId);
    if mapped.Err? {
      return Err(Internal);
    }
    ghost var newId := if created.Ok? then created.value else 0;
    TargetBuiltFromParts(spec, start, afterCreate, afterSet, dsm.Now(), newId, lunId, id);
    return Ok((id, info));
  }

  lemma TargetRegistered(own: Own, a: Trace, b: Trace, id: TargetId)
    requires id !in a.store.targets && b.made == a.made + [UndoTarget(id)] && b.tried == a.tried
    requires b.store == a.store.(targets := a.store.targets[id := Target(own.target, 1, [])])
    ensures Registered(own, a, b, [UndoTarget(id)])
  {
  }

  lemma SessionsKeepRegistered(own: Own, a: Trace, b: Trace, c: Trace, steps: seq<Undo>, id: TargetId, n: nat)
    requires Registered(own, a, b, steps) && c.made == b.made && c.tried == b.tried
    requires id in b.store.targets && b.store.targets[id].name == own.target
    requires c.store == b.store.(targets := b.store.targets[id := b.store.targets[id].(maxSessions := n)])
    ensures Registered(own, a, c, steps)
  {
  }

  // A target created as newId or found under its name, its session limit perhaps raised, and the LUN mapped to it.
  lemma TargetBuiltFromParts(spec: CreateSpec, a: Trace, b: Trace, c: Trace, d: Trace, newId: TargetId, lunId: Uuid,
                             id: TargetId)
    requires b.store.Valid() && a.made <= b.made && c.made == d.made == b.made
    requires a.tried == b.tried == c.tried == d.tried
    requires b.store == a.store
             || (newId !in a.store.targets
                 && b.store == a.store.(targets := a.store.targets[newId := Target(spec.targetName, 1, [])]))
    requires id in b.store.targets && b.store.targets[id].name == spec.targetName
    requires c.store == if spec.multipleSession
                        then b.store.(targets := b.store.targets[id := b.store.targets[id].(maxSessions := 0)])
                        else b.store
    requires id in d.store.targets && MappedOnce(c.store.targets[id].mapped, d.store.targets[id].mapped, lunId)
    requires d.store
             == c.store.(targets := c.store.targets[id := c.store.targets[id].(mapped := d.store.targets[id].mapped)])
    ensures TargetMapped(spec, a, d, lunId, id)
  {
    assert newId in b.store.targets && newId !in a.store.targets ==> id == newId;
  }

  // ---- LUN volumes ----

  // v is the LUN of the spec's names, mapped to the target of those names; everything else is as it was.
  ghost predicate LunVolumeCreated(spec: CreateSpec, ip: string, a: Trace, b: Trace, v: Volume) {
    && v.LunVolume? && v.ip == ip
    && NothingUndone(a, b)
    && IscsiBuilt(spec.Names(), a.store, b.store, v.lunId, v.targetId)
    && v.lun == b.store.luns[v.lunId]
    && SessionsSet(spec.multipleSession, a.store.targets, b.store.targets, v.targetId)
  }

  // What a DSM that answers every call needs to create the LUN at the given location.
  predicate Hosts(dsm: Dsm, lunType: string, location: string) {
    location in dsm.volumes && LunType(lunType, dsm.volumes[location].fs).Some?
  }

  // The location a creation ends up with: the one asked for, else one with room, else none.
  ghost predicate Chosen(dsm: Dsm, size: nat, forShare: bool, asked: string, location: string) {
    if asked != "" then location == asked
    else if location == "" then
      dsm.reliable ==> forall path | path in dsm.volumes :: !HasRoom(dsm.volumes[path], size, forShare)
    else location in dsm.volumes && HasRoom(dsm.volumes[location], size, forShare)
  }

  // The location asked for or a first available one, and its file system.
  method ChooseLocation(dsm: Dsm, spec: CreateSpec, forShare: bool) returns (r: Result<FsType, Code>)
    requires dsm.Valid()
    modifies spec`location
    ensures Chosen(dsm, spec.size, forShare, old(spec.location), spec.location)
    ensures r.Ok? ==> spec.location in dsm.volumes && r.value == dsm.volumes[spec.location].fs
    ensures dsm.reliable ==> (r.Ok? <==> spec.location in dsm.volumes)
  {
    if spec.location == "" {
      var available := dsm.FirstAvailableVolume(spec.size, forShare);
      if available.Err? {
        return Err(Internal);
      }
      spec.location := available.value;
    }
    var fs := dsm.VolumeGet(spec.location);
    if fs.Err? {
      return Err(InvalidArgument);
    }
    return Ok(fs.value);
  }

  // createVolumeByDsm
  method CreateVolumeByDsm(dsm: Dsm, spec: CreateSpec) returns (r: Result<Volume, Code>)
    requires dsm.Valid()
    modifies dsm, spec`location
    ensures dsm.Valid()
    ensures r.Ok? ==> LunVolumeCreated(spec, dsm.ip, old(dsm.Now()), dsm.Now(), r.value)
    ensures r.Ok? ==> r.value.lun == if r.value.lunId in old(dsm.store).luns then old(dsm.store).luns[r.value.lunId]
                                     else Lun(spec.backendName, spec.size, spec.location)
    ensures r.Ok? ==> spec.location in dsm.volumes
    ensures r.Err? ==> RolledBack(spec.Names(), old(dsm.Now()), dsm.Now())
    ensures Chosen(dsm, spec.size, false, old(spec.location), spec.location)
    ensures dsm.reliable ==> (r.Ok? <==> Hosts(dsm, spec.lunType, spec.location))
    ensures dsm.store.shares == old(dsm.store.shares)
  {
    var rollback := new CreateRollback();
    ghost var start := dsm.Now();
    r := TryVolumeByDsm(dsm, spec, rollback);
    if r.Err? {
      RollBack(dsm, rollback, spec.Names(), start);
    }
  }

  method TryVolumeByDsm(dsm: Dsm, spec: CreateSpec, rollback: CreateRollback) returns (r: Result<Volume, Code>)
    requires dsm.Valid() && rollback.steps == []
    modifies dsm, spec`location, rollback
    ensures dsm.Valid()
    ensures r.Ok? ==> LunVolumeCreated(spec, dsm.ip, old(dsm.Now()), dsm.Now(), r.value)
    ensures r.Ok? ==> r.value.lun == if r.value.lunId in old(dsm.store).luns then old(dsm.store).luns[r.value.lunId]
                                     else Lun(spec.backendName, spec.size, spec.location)
    ensures r.Ok? ==> spec.location in dsm.volumes
    ensures r.Err? ==> Pending(spec.Names(), old(dsm.Now()), dsm.Now(), rollback.steps)
    ensures Chosen(dsm, spec.size, false, old(spec.location), spec.location)
    ensures dsm.reliable ==> (r.Ok? <==> Hosts(dsm, spec.lunType, spec.location))
    ensures dsm.store.shares == old(dsm.store.shares)
    ensures forall step | step in rollback.steps :: !step.UndoShare?
  {
    hide Store.Valid, Registered, Pending, TargetMapped, LunVolumeCreated, RolledBack;
    ghost var own, start := spec.Names(), dsm.Now();
    NothingRegistered(own, start);
    RegisteredIsPending(own, start, start, []);

    var fs := ChooseLocation(dsm, spec, false);
    if fs.Err? {
      return Err(fs.error);
    }
    if LunType(spec.lunType, fs.value).None? {
      return Err(InvalidArgument);
    }

    var created := dsm.LunCreate(Lun(spec.backendName, spec.size, spec.location));
    if created.Err? {
      if created.error != AlreadyExist {
        return Err(Internal);
      }
    } else {
      rollback.Add(UndoLun(spec.backendName));
      LunRegistered(own, start, dsm.Now(), created.value);
      assert rollback.steps == [UndoLun(spec.backendName)];
    }
    RegisteredIsPending(own, start, dsm.Now(), rollback.steps);

    var got := dsm.LunGetByName(spec.backendName);
    if got.Err? {
      return Err(Internal);
    }
    var lun := dsm.store.luns[got.value];

    ghost var built := dsm.Now();
    var target := CreateMappingTarget(dsm, spec, got.value);
    if target.Err? {
      InnerFailureIsPending(own, start, built, dsm.Now(), rollback.steps);
      return Err(Internal);
    }
    r := Ok(LunVolume(dsm.ip, got.value, lun, target.value.0, target.value.1));
    LunVolumeFromParts(spec, dsm.ip, start, built, dsm.Now(), rollback.steps, r.value);
    NewLunIsTheCreated(start.store, built.store, got.value, spec.backendName);
  }

  // ---- copies: createVolumeBySnapshot and createVolumeByVolume ----

  function Max(a: int, b: int): int {
    if a > b then a else b
  }

  // A copy never under-delivers: it has at least the requested size, more only if what was found under its name or
  // copied was larger. before is the size of the object found, None if the copy is new.
  ghost predicate CopyDelivers(requested: nat, sourceSize: nat, keepsSize: bool, before: Option<nat>, size: nat) {
    && size >= requested
    && (before.Some? ==> size == Max(before.value, requested))
    && (before.None? && keepsSize ==> size == Max(sourceSize, requested))
  }

  ghost function LunBefore(s: Store, lunId: Uuid): Option<nat> {
    if lunId in s.luns then Some(s.luns[lunId].size) else None
  }

  method CreateVolumeBySnapshot(dsm: Dsm, spec: CreateSpec, src: Snapshot) returns (r: Result<Volume, Code>)
    requires dsm.Valid()
    modifies dsm, spec`location
    ensures dsm.Valid()
    ensures r.Ok? ==> LunVolumeCreated(spec, dsm.ip, old(dsm.Now()), dsm.Now(), r.value)
    ensures r.Ok? ==>
              CopyDelivers(spec.size, src.size, dsm.copiesKeepSize, LunBefore(old(dsm.store), r.value.lunId),
                           r.value.lun.size)
    ensures r.Err? ==> RolledBack(spec.Names(), old(dsm.Now()), dsm.Now())
    ensures r == Err(OutOfRange) <==> !RestoreSizeAllowed(spec.size, src.size)
    ensures r == Err(OutOfRange) ==> dsm.Now() == old(dsm.Now())
    ensures dsm.reliable ==>
              (r.Ok? <==>
                 && RestoreSizeAllowed(spec.size, src.size)
                 && dsm.HasLunSource(old(dsm.store), FromSnapshot(src.parentUuid, src.uuid)))
    ensures dsm.store.shares == old(dsm.store.shares)
  {
    var rollback := new CreateRollback();
    ghost var start := dsm.Now();
    if !RestoreSizeAllowed(spec.size, src.size) {
      NothingRegistered(spec.Names(), start);
      return Err(OutOfRange);
    }
    r := TryLunCopy(dsm, spec, FromSnapshot(src.parentUuid, src.uuid), src.size, rollback);
    if r.Err? {
      RollBack(dsm, rollback, spec.Names(), start);
    }
  }

  // srcId is "" and srcLun empty when the source volume is not a LUN.
  method CreateVolumeByVolume(dsm: Dsm, spec: CreateSpec, srcId: Uuid, srcLun: Lun) returns (r: Result<Volume, Code>)
    requires dsm.Valid()
    modifies dsm, spec`location
    ensures dsm.Valid()
    ensures r.Ok? ==> LunVolumeCreated(spec, dsm.ip, old(dsm.Now()), dsm.Now(), r.value)
    ensures r.Ok? ==>
              CopyDelivers(spec.size, srcLun.size, dsm.copiesKeepSize, LunBefore(old(dsm.store), r.value.lunId),
                           r.value.lun.size)
    ensures r.Ok? && r.value.lunId !in old(dsm.store).luns ==>
              r.value.lun.location == if old(spec.location) == "" then srcLun.location else old(spec.location)
    ensures r.Err? ==> RolledBack(spec.Names(), old(dsm.Now()), dsm.Now())
    ensures r == Err(OutOfRange) <==> !RestoreSizeAllowed(spec.size, srcLun.size)
    ensures r == Err(OutOfRange) ==> dsm.Now() == old(dsm.Now())
    ensures dsm.reliable ==> (r.Ok? <==> RestoreSizeAllowed(spec.size, srcLun.size) && srcId in old(dsm.store).luns)
    ensures dsm.store.shares == old(dsm.store.shares)
  {
    var rollback := new CreateRollback();
    ghost var start := dsm.Now();
    if !RestoreSizeAllowed(spec.size, srcLun.size) {
      NothingRegistered(spec.Names(), start);
      return Err(OutOfRange);
    }
    if spec.location == "" {
      spec.location := srcLun.location;
    }
    r := TryLunCopy(dsm, spec, FromVolume(srcId, spec.location), srcLun.size, rollback);
    if r.Err? {
      RollBack(dsm, rollback, spec.Names(), start);
    }
  }

  method TryLunCopy(dsm: Dsm, spec: CreateSpec, from: CopySource, srcSize: nat, rollback: CreateRollback)
    returns (r: Result<Volume, Code>)
    requires dsm.Valid() && rollback.steps == [] && RestoreSizeAllowed(spec.size, srcSize)
    modifies dsm, rollback
    ensures dsm.Valid()
    ensures r != Err(OutOfRange)
    ensures r.Ok? ==> LunVolumeCreated(spec, dsm.ip, old(dsm.Now()), dsm.Now(), r.value)
    ensures r.Ok? ==>
              CopyDelivers(spec.size, srcSize, dsm.copiesKeepSize, LunBefore(old(dsm.store), r.value.lunId),
                           r.value.lun.size)
    ensures r.Ok? && from.FromVolume? && r.value.lunId !in old(dsm.store).luns ==> r.value.lun.location == from.location
    ensures r.Err? ==> Pending(spec.Names(), old(dsm.Now()), dsm.Now(), rollback.steps)
    ensures dsm.reliable ==> (r.Ok? <==> dsm.HasLunSource(old(dsm.store), from))
    ensures dsm.store.shares == old(dsm.store.shares)
    ensures forall step | step in rollback.steps :: !step.UndoShare?
  {
    hide Store.Valid, Registered, Pending, TargetMapped, LunVolumeCreated, RolledBack;
    ghost var own, start := spec.Names(), dsm.Now();
    var copy := CopyLun(dsm, spec, from, srcSize, rollback);
    if copy.Err? {
      return Err(copy.error);
    }
    var (lunId, lun) := copy.value;

    ghost var built := dsm.Now();
    RegisteredIsPending(own, start, built, rollback.steps);
    var target := CreateMappingTarget(dsm, spec, lunId);
    if target.Err? {
      InnerFailureIsPending(own, start, built, dsm.Now(), rollback.steps);
      return Err(Internal);
    }
    r := Ok(LunVolume(dsm.ip, lunId, lun, target.value.0, target.value.1));
    LunVolumeFromParts(spec, dsm.ip, start, built, dsm.Now(), rollback.steps, r.value);
  }

  // The copy or what was found under its name, waited for and grown to the requested size.
  method CopyLun(dsm: Dsm, spec: CreateSpec, from: CopySource, srcSize: nat, rollback: CreateRollback)
    returns (r: Result<(Uuid, Lun), Code>)
    requires dsm.Valid() && rollback.steps == [] && RestoreSizeAllowed(spec.size, srcSize)
    modifies dsm`store, dsm`made, rollback
    ensures dsm.Valid()
    ensures r != Err(OutOfRange)
    ensures r.Ok? ==> Registered(spec.Names(), old(dsm.Now()), dsm.Now(), rollback.steps)
    ensures r.Ok? ==> rollback.steps == [] || rollback.steps == [UndoLun(spec.backendName)]
    ensures r.Ok? ==>
              var (lunId, lun) := r.value;
              && dsm.store == old(dsm.store).(luns := dsm.store.luns)
              && lunId in dsm.store.luns && lun == dsm.store.luns[lunId] && lun.name == spec.backendName
              && CopyDelivers(spec.size, srcSize, dsm.copiesKeepSize, LunBefore(old(dsm.store), lunId), lun.size)
              && (from.FromVolume? && lunId !in old(dsm.store).luns ==> lun.location == from.location)
    ensures r.Err? ==> Pending(spec.Names(), old(dsm.Now()), dsm.Now(), rollback.steps)
    ensures dsm.reliable ==> (r.Ok? <==> dsm.HasLunSource(old(dsm.store), from))
    ensures dsm.store.shares == old(dsm.store.shares)
    ensures forall step | step in rollback.steps :: !step.UndoShare?
  {
    hide Store.Valid, Registered, Pending;
    ghost var own, start := spec.Names(), dsm.Now();
    NothingRegistered(own, start);
    RegisteredIsPending(own, start, start, []);
    var copied := dsm.LunCopy(spec.backendName, from, srcSize);
    if copied.Err? {
      if copied.error != AlreadyExist {
        return Err(Internal);
      }
    } else {
      rollback.Add(UndoLun(spec.backendName));
      LunRegistered(own, start, dsm.Now(), copied.value);
      assert rollback.steps == [UndoLun(spec.backendName)];
    }
    RegisteredIsPending(own, start, dsm.Now(), rollback.steps);
    ghost var afterCopy := dsm.Now();

    var finished := WaitCloneFinished(dsm, spec.backendName, Iscsi);
    if !finished {
      return Err(Internal);
    }
    var got := dsm.LunGetByName(spec.backendName);
    if got.Err? {
      return Err(Internal);
    }
    NewLunIsTheCreated(start.store, afterCopy.store, got.value, spec.backendName);
    var lun := dsm.store.luns[got.value];

    var newSize := NeedsExpandTo(spec.size, lun.size);
    if newSize > 0 {
      var updated := dsm.LunUpdate(got.value, newSize);
      if updated.Err? {
        return Err(Internal);
      }
      lun := lun.(size := newSize);
      GrowthKeepsRegistered(own, start, afterCopy, dsm.Now(), rollback.steps, got.value, newSize);
    }
    return Ok((got.value, lun));
  }

  // waitCloneFinished: asks until the copy is no longer locked, for a limited number of times.
  method WaitCloneFinished(dsm: Dsm, name: string, protocol: Protocol) returns (finished: bool)
    ensures finished && protocol == Iscsi ==> dsm.store.HasLunNamed(name)
    ensures finished && protocol == Nvme ==> dsm.store.HasNamespaceNamed(name)
    ensures dsm.reliable ==>
              (finished <==>
                 && (protocol == Iscsi ==> dsm.store.HasLunNamed(name))
                 && (protocol == Nvme ==> dsm.store.HasNamespaceNamed(name)))
  {
    var polls: nat := *;
    while true
      decreases polls
    {
      if protocol == Iscsi {
        var lun := dsm.LunGetByName(name);
        if lun.Err? {
          return false;
        }
      } else if protocol == Nvme {
        var ns := dsm.NamespaceGetByName(name);
        if ns.Err? {
          return false;
        }
      } else {
        return true;
      }
      var locked: bool := *;
      if !locked || dsm.reliable {
        return true;
      }
      if polls == 0 {
        return false;
      }
      polls := polls - 1;
    }
  }

  lemma GrowthKeepsRegistered(own: Own, a: Trace, b: Trace, c: Trace, steps: seq<Undo>, lunId: Uuid, n: nat)
    requires Registered(own, a, b, steps) && c.made == b.made && c.tried == b.tried
    requires lunId in b.store.luns && b.store.luns[lunId].name == own.backend && b.store.luns[lunId].size <= n
    requires c.store == b.store.(luns := b.store.luns[lunId := b.store.luns[lunId].(size := n)])
    ensures Registered(own, a, c, steps)
  {
    forall u | u in a.store.luns ensures LikeLun(own, a.store.luns[u], c.store.luns[u]) {
      assert LikeLun(own, a.store.luns[u], b.store.luns[u]);
    }
  }

  lemma LunRegistered(own: Own, a: Trace, b: Trace, lunId: Uuid)
    requires lunId !in a.store.luns && lunId in b.store.luns && b.store.luns[lunId].name == own.backend
    requires !a.store.HasLunNamed(own.backend)
    requires b.store == a.store.(luns := a.store.luns[lunId := b.store.luns[lunId]])
    requires b.made == a.made + [UndoLun(own.backend)] && b.tried == a.tried
    ensures Registered(own, a, b, [UndoLun(own.backend)])
  {
  }

  lemma NewLunIsTheCreated(a: Store, b: Store, lunId: Uuid, name: string)
    requires b.Valid() && lunId in b.luns && b.luns[lunId].name == name
    ensures forall u | u in b.luns && u !in a.luns && b.luns[u].name == name :: u == lunId
  {
  }

  // The LUN part, registered or adopted, and the mapped target make up the volume.
  lemma LunVolumeFromParts(spec: CreateSpec, ip: string, a: Trace, b: Trace, c: Trace, steps: seq<Undo>, v: Volume)
    requires Registered(spec.Names(), a, b, steps) && b.store.Valid()
    requires steps == [] || steps == [UndoLun(spec.backendName)]
    requires b.store == a.store.(luns := b.store.luns)
    requires v.LunVolume? && v.ip == ip && v.lunId in b.store.luns && v.lun == b.store.luns[v.lunId]
    requires v.lun.name == spec.backendName
    requires TargetMapped(spec, b, c, v.lunId, v.targetId)
    ensures LunVolumeCreated(spec, ip, a, c, v)
  {
    var own := spec.Names();
    forall u | u in b.store.luns && u !in a.store.luns ensures u == v.lunId {
      assert UndoLun(b.store.luns[u].name) in StepSet(steps);
    }
    forall u | u in a.store.luns && u != v.lunId ensures b.store.luns[u] == a.store.luns[u] {
      assert LikeLun(own, a.store.luns[u], b.store.luns[u]);
    }
  }
}
