/**
 One DSM and the calls the service makes to it. Any call may fail. A failed create, clone, set or map call
 changed nothing; a failed delete may have removed the object all the same, its reply lost.
 */
module Dsms {
  import opened Results
  import opened Sizes
  import opened Stores
  import opened Undoing
  import opened Outcomes

  datatype FsType = Ext4 | Btrfs | OtherFs

  // A storage volume is usable unless it is crashed, read-only, being deleted or on an external SATA disk.
  datatype StorageVolume = StorageVolume(fs: FsType, free: int, usable: bool)

  // Where a volume of the size may go without having been asked for: never ext4 for a share.
  predicate HasRoom(volume: StorageVolume, size: int, forShare: bool) {
    volume.usable && volume.free >= UNIT_GB && volume.free > size && !(forShare && volume.fs == Ext4)
  }

  // A clone of a volume goes to the given location; a clone of a snapshot goes where the DSM puts it.
  datatype CopySource = FromVolume(id: Uuid, location: string) | FromSnapshot(parent: Uuid, snapshot: Uuid)

  class Dsm {
    const ip: string
    const isUc: bool
    const supportNvmeof: bool
    const reliable: bool  // every call gets its answer, and copies finish in time
    const nfsMajor: nat  // the highest NFS version it supports
    const nfsMinor: nat
    const copiesKeepSize: bool  // clones of LUNs and namespaces start at the size of their source
    const copiesKeepQuota: bool  // clones of shares start with the quota of their source, not without one
    const volumes: map<string, StorageVolume>  // storage volumes by path
    const snapshots: set<Uuid>  // snapshots of its LUNs, namespaces and shares

    var store: Store
    ghost var made: seq<Undo>  // undo steps of every object created here, oldest first
    ghost var tried: seq<Attempt>  // undo steps tried here, oldest first

    constructor (ip: string, isUc: bool, supportNvmeof: bool, reliable: bool, nfsMajor: nat, nfsMinor: nat,
                 copiesKeepSize: bool, copiesKeepQuota: bool, volumes: map<string, StorageVolume>,
                 snapshots: set<Uuid>, store: Store)
      requires store.Valid() && "" !in volumes
      ensures Valid() && this.store == store && made == [] && tried == []
      ensures this.ip == ip && this.isUc == isUc && this.supportNvmeof == supportNvmeof && this.reliable == reliable
      ensures this.nfsMajor == nfsMajor && this.nfsMinor == nfsMinor
      ensures this.copiesKeepSize == copiesKeepSize && this.copiesKeepQuota == copiesKeepQuota
      ensures this.volumes == volumes && this.snapshots == snapshots
    {
      this.ip, this.isUc, this.supportNvmeof, this.reliable := ip, isUc, supportNvmeof, reliable;
      this.nfsMajor, this.nfsMinor := nfsMajor, nfsMinor;
      this.copiesKeepSize, this.copiesKeepQuota := copiesKeepSize, copiesKeepQuota;
      this.volumes, this.snapshots, this.store := volumes, snapshots, store;
      made, tried := [], [];
    }

    ghost predicate Valid()
      reads this
    {
      store.Valid() && "" !in volumes
    }

    ghost function Now(): Trace
      reads this
    {
      Trace(store, made, tried)
    }

    // ---- storage volumes ----

    // getFirstAvailableVolume
    method FirstAvailableVolume(size: int, forShare: bool) returns (r: Result<string, ApiError>)
      ensures r.Ok? ==> r.value in volumes && HasRoom(volumes[r.value], size, forShare)
      ensures r.Ok? ==> volumes[r.value].usable && volumes[r.value].free > size
      ensures r.Ok? && forShare ==> volumes[r.value].fs != Ext4
      ensures reliable ==> (r.Ok? <==> exists path | path in volumes :: HasRoom(volumes[path], size, forShare))
    {
      var fault: bool := *;
      var suitable := set path | path in volumes && HasRoom(volumes[path], size, forShare);
      assert forall path | path in volumes && HasRoom(volumes[path], size, forShare) :: path in suitable;
      if (fault && !reliable) || suitable == {} {
        return Err(ApiFailure);
      }
      var path :| path in suitable;
      return Ok(path);
    }

    method VolumeGet(path: string) returns (r: Result<FsType, ApiError>)
      ensures r.Ok? ==> path in volumes && r.value == volumes[path].fs
      ensures reliable ==> (r.Ok? <==> path in volumes)
    {
      var fault: bool := *;
      if (fault && !reliable) || path !in volumes {
        return Err(ApiFailure);
      }
      return Ok(volumes[path].fs);
    }

    // NfsGet: the highest NFS version the DSM supports.
    method NfsGet() returns (r: Result<(nat, nat), ApiError>)
      ensures r.Ok? ==> r.value == (nfsMajor, nfsMinor)
      ensures reliable ==> r.Ok?
    {
      var fault: bool := *;
      return if fault && !reliable then Err(ApiFailure) else Ok((nfsMajor, nfsMinor));
    }

    // NfsSet: which versions are enabled is not part of the model.
    method NfsSet() returns (r: Result<(), ApiError>)
      ensures reliable ==> r.Ok?
    {
      var fault: bool := *;
      return if fault && !reliable then Err(ApiFailure) else Ok(());
    }

    // ---- LUNs ----

    method LunCreate(lun: Lun) returns (r: Result<Uuid, ApiError>)
      requires Valid()
      modifies this`store, this`made
      ensures Valid()
      ensures r.Ok? ==> r.value !in old(store).luns && !old(store).HasLunNamed(lun.name)
      ensures r.Ok? ==>
                store == old(store).(luns := old(store).luns[r.value := lun]) && made == old(made) + [UndoLun(lun.name)]
      ensures r.Err? ==> store == old(store) && made == old(made)
      ensures r == Err(AlreadyExist) ==> store.HasLunNamed(lun.name)
      ensures reliable ==> r.Ok? || r == Err(AlreadyExist)
    {
      if store.HasLunNamed(lun.name) {
        return Err(AlreadyExist);
      }
      var fault: bool := *;
      if fault && !reliable {
        return Err(ApiFailure);
      }
      FreshUuidExists(store.luns.Keys);
      var uuid: Uuid :| uuid != "" && uuid !in store.luns.Keys;
      store := store.(luns := store.luns[uuid := lun]);
      made := made + [UndoLun(lun.name)];
      return Ok(uuid);
    }

    predicate HasLunSource(s: Store, from: CopySource) {
      match from
      case FromVolume(id, _) => id in s.luns
      case FromSnapshot(parent, snapshot) => parent in s.luns && snapshot in snapshots
    }

    // LunClone and SnapshotClone.
    method LunCopy(name: string, from: CopySource, sourceSize: nat) returns (r: Result<Uuid, ApiError>)
      requires Valid()
      modifies this`store, this`made
      ensures Valid()
      ensures r.Ok? ==> r.value !in old(store).luns && !old(store).HasLunNamed(name) && HasLunSource(old(store), from)
      ensures r.Ok? ==> r.value in store.luns && store.luns[r.value].name == name
      ensures r.Ok? && from.FromVolume? ==> store.luns[r.value].location == from.location
      ensures r.Ok? && copiesKeepSize ==> store.luns[r.value].size == sourceSize
      ensures r.Ok? ==> store == old(store).(luns := old(store).luns[r.value := store.luns[r.value]])
      ensures r.Ok? ==> made == old(made) + [UndoLun(name)]
      ensures r.Err? ==> store == old(store) && made == old(made)
      ensures r == Err(AlreadyExist) ==> store.HasLunNamed(name)
      ensures reliable ==> (r.Ok? || r == Err(AlreadyExist) <==> HasLunSource(old(store), from))
    {
      var size: nat := *;
      if copiesKeepSize {
        size := sourceSize;
      }
      if !HasLunSource(store, from) {
        return Err(ApiFailure);
      }
      var anywhere: string := *;
      r := LunCreate(Lun(name, size, if from.FromVolume? then from.location else anywhere));
    }

    method LunGetByName(name: string) returns (r: Result<Uuid, ApiError>)
      ensures r.Ok? ==> r.value in store.luns && store.luns[r.value].name == name
      ensures reliable ==> (r.Ok? <==> store.HasLunNamed(name))
    {
      var fault: bool := *;
      if (fault && !reliable) || !store.HasLunNamed(name) {
        return Err(ApiFailure);
      }
      var uuid :| uuid in store.luns && store.luns[uuid].name == name;
      return Ok(uuid);
    }

    method LunGet(uuid: Uuid) returns (r: Result<Lun, ApiError>)
      ensures r.Ok? ==> uuid in store.luns && r.value == store.luns[uuid]
      ensures r == Err(NoSuchLun) ==> uuid !in store.luns
      ensures reliable ==> r.Ok? || r == Err(NoSuchLun)
    {
      if uuid !in store.luns {
        return Err(NoSuchLun);
      }
      var fault: bool := *;
      if fault && !reliable {
        return Err(ApiFailure);
      }
      return Ok(store.luns[uuid]);
    }

    method LunUpdate(uuid: Uuid, newSize: nat) returns (r: Result<(), ApiError>)
      requires Valid()
      modifies this`store
      ensures Valid()
      ensures r.Ok? ==>
                var s := old(store);
                uuid in s.luns && store == s.(luns := s.luns[uuid := s.luns[uuid].(size := newSize)])
      ensures r.Err? ==> store == old(store)
      ensures reliable ==> (r.Ok? <==> uuid in old(store).luns)
    {
      var fault: bool := *;
      if (fault && !reliable) || uuid !in store.luns {
        return Err(ApiFailure);
      }
      store := store.(luns := store.luns[uuid := store.luns[uuid].(size := newSize)]);
      return Ok(());
    }

    method LunDelete(uuid: Uuid) returns (r: Result<(), ApiError>)
      requires Valid()
      modifies this`store
      ensures Valid()
      ensures r.Ok? ==> uuid in old(store).luns && store == old(store).RemoveLuns({uuid})
      ensures r.Err? ==> store == old(store) || store == old(store).RemoveLuns({uuid})
      ensures reliable ==> (r.Ok? <==> uuid in old(store).luns)
    {
      if uuid !in store.luns {
        return Err(NoSuchLun);
      }
      var refused: bool := *;
      if refused && !reliable {
        return Err(ApiFailure);
      }
      RemoveLunsKeepsValid(store, {uuid});
      store := store.RemoveLuns({uuid});
      var replyLost: bool := *;
      return if replyLost && !reliable then Err(ApiFailure) else Ok(());
    }

    // ---- targets ----

    method TargetCreate(name: string) returns (r: Result<TargetId, ApiError>)
      requires Valid()
      modifies this`store, this`made
      ensures Valid()
      ensures r.Ok? ==> r.value !in old(store).targets && !old(store).HasTargetNamed(name)
      ensures r.Ok? ==>
                store == old(store).(targets := old(store).targets[r.value := Target(name, 1, [])])
                    && made == old(made) + [UndoTarget(r.value)]
      ensures r.Err? ==> store == old(store) && made == old(made)
      ensures r == Err(AlreadyExist) ==> store.HasTargetNamed(name)
      ensures reliable ==> r.Ok? || r == Err(AlreadyExist)
    {
      if store.HasTargetNamed(name) {
        return Err(AlreadyExist);
      }
      var fault: bool := *;
      if fault && !reliable {
        return Err(ApiFailure);
      }
      FreshTargetIdExists(store.targets.Keys);
      var id: TargetId :| id !in store.targets.Keys;
      store := store.(targets := store.targets[id := Target(name, 1, [])]);
      made := made + [UndoTarget(id)];
      return Ok(id);
    }

    method TargetGetByName(name: string) returns (r: Result<TargetId, ApiError>)
      ensures r.Ok? ==> r.value in store.targets && store.targets[r.value].name == name
      ensures reliable ==> (r.Ok? <==> store.HasTargetNamed(name))
    {
      var fault: bool := *;
      if (fault && !reliable) || !store.HasTargetNamed(name) {
        return Err(ApiFailure);
      }
      var id :| id in store.targets && store.targets[id].name == name;
      return Ok(id);
    }

    method TargetSet(id: TargetId, maxSessions: nat) returns (r: Result<(), ApiError>)
      requires Valid()
      modifies this`store
      ensures Valid()
      ensures r.Ok? ==>
                var s := old(store);
                id in s.targets && store == s.(targets := s.targets[id := s.targets[id].(maxSessions := maxSessions)])
      ensures r.Err? ==> store == old(store)
      ensures reliable ==> (r.Ok? <==> id in old(store).targets)
    {
      var fault: bool := *;
      if (fault && !reliable) || id !in store.targets {
        return Err(ApiFailure);
      }
      store := store.(targets := store.targets[id := store.targets[id].(maxSessions := maxSessions)]);
      return Ok(());
    }

    method LunMapTarget(id: TargetId, lunId: Uuid) returns (r: Result<(), ApiError>)
      requires Valid()
      modifies this`store
      ensures Valid()
      ensures r.Ok? ==> id in old(store).targets && lunId in old(store).luns && id in store.targets
      ensures r.Ok? ==> MappedOnce(old(store).targets[id].mapped, store.targets[id].mapped, lunId)
      ensures r.Ok? ==>
                var s := old(store);
                store == s.(targets := s.targets[id := s.targets[id].(mapped := store.targets[id].mapped)])
      ensures r.Err? ==> store == old(store)
      ensures reliable ==> (r.Ok? <==> id in old(store).targets && lunId in old(store).luns)
    {
      hide Store.Valid;
      var fault: bool := *;
      var index: nat := *;
      if (fault && !reliable) || id !in store.targets || lunId !in store.luns {
        return Err(ApiFailure);
      }
      MapLunKeepsValid(store, id, lunId, index);
      store := store.MapLun(id, lunId, index);
      return Ok(());
    }

    method TargetDelete(id: TargetId) returns (r: Result<(), ApiError>)
      requires Valid()
      modifies this`store
      ensures Valid()
      ensures r.Ok? ==> store == old(store).RemoveTarget(id)
      ensures r.Err? ==> store == old(store) || store == old(store).RemoveTarget(id)
      ensures reliable ==> (r.Ok? <==> id in old(store).targets)
    {
      var refused: bool := *;
      if (refused && !reliable) || id !in store.targets {
        return Err(ApiFailure);
      }
      store := store.RemoveTarget(id);
      var replyLost: bool := *;
      return if replyLost && !reliable then Err(ApiFailure) else Ok(());
    }

    method TargetGet(id: TargetId) returns (r: Result<Target, ApiError>)
      ensures r.Ok? ==> id in store.targets && r.value == store.targets[id]
      ensures reliable ==> (r.Ok? <==> id in store.targets)
    {
      var fault: bool := *;
      if (fault && !reliable) || id !in store.targets {
        return Err(ApiFailure);
      }
      return Ok(store.targets[id]);
    }

    // ---- namespaces ----

    method NamespaceCreate(name: string, size: nat, location: string) returns (r: Result<Uuid, ApiError>)
      requires Valid()
      modifies this`store, this`made
      ensures Valid()
      ensures r.Ok? ==> r.value !in old(store).namespaces && !old(store).HasNamespaceNamed(name)
      ensures r.Ok? ==>
                var s := old(store);
                && store == s.(namespaces := s.namespaces[r.value := Namespace(name, size, location, "")])
                && made == old(made) + [UndoNamespace(name)]
      ensures r.Err? ==> store == old(store) && made == old(made)
      ensures r == Err(AlreadyExist) ==> store.HasNamespaceNamed(name)
      ensures reliable ==> r.Ok? || r == Err(AlreadyExist)
    {
      if store.HasNamespaceNamed(name) {
        return Err(AlreadyExist);
      }
      var fault: bool := *;
      if fault && !reliable {
        return Err(ApiFailure);
      }
      FreshUuidExists(store.namespaces.Keys);
      var uuid: Uuid :| uuid != "" && uuid !in store.namespaces.Keys;
      store := store.(namespaces := store.namespaces[uuid := Namespace(name, size, location, "")]);
      made := made + [UndoNamespace(name)];
      return Ok(uuid);
    }

    predicate HasNamespaceSource(s: Store, from: CopySource) {
      match from
      case FromVolume(id, _) => id in s.namespaces
      case FromSnapshot(_, snapshot) => snapshot in snapshots
    }

    // NamespaceClone and NamespaceSnapshotClone.
    method NamespaceCopy(name: string, from: CopySource, sourceSize: nat) returns (r: Result<Uuid, ApiError>)
      requires Valid()
      modifies this`store, this`made
      ensures Valid()
      ensures r.Ok? ==> r.value !in old(store).namespaces && !old(store).HasNamespaceNamed(name)
      ensures r.Ok? ==> HasNamespaceSource(old(store), from)
      ensures r.Ok? ==> r.value in store.namespaces && store.namespaces[r.value].name == name
      ensures r.Ok? ==> store.namespaces[r.value].subsystem == ""
      ensures r.Ok? && from.FromVolume? ==> store.namespaces[r.value].location == from.location
      ensures r.Ok? && copiesKeepSize ==> store.namespaces[r.value].size == sourceSize
      ensures r.Ok? ==> store == old(store).(namespaces := old(store).namespaces[r.value := store.namespaces[r.value]])
      ensures r.Ok? ==> made == old(made) + [UndoNamespace(name)]
      ensures r.Err? ==> store == old(store) && made == old(made)
      ensures r == Err(AlreadyExist) ==> store.HasNamespaceNamed(name)
      ensures reliable ==> (r.Ok? || r == Err(AlreadyExist) <==> HasNamespaceSource(old(store), from))
    {
      var size: nat := *;
      if copiesKeepSize {
        size := sourceSize;
      }
      if !HasNamespaceSource(store, from) {
        return Err(ApiFailure);
      }
      var anywhere: string := *;
      r := NamespaceCreate(name, size, if from.FromVolume? then from.location else anywhere);
    }

    method NamespaceGetByName(name: string) returns (r: Result<Uuid, ApiError>)
      ensures r.Ok? ==> r.value in store.namespaces && store.namespaces[r.value].name == name
      ensures reliable ==> (r.Ok? <==> store.HasNamespaceNamed(name))
    {
      var fault: bool := *;
      if (fault && !reliable) || !store.HasNamespaceNamed(name) {
        return Err(ApiFailure);
      }
      var uuid :| uuid in store.namespaces && store.namespaces[uuid].name == name;
      return Ok(uuid);
    }

    method NamespaceGet(uuid: Uuid) returns (r: Result<Namespace, ApiError>)
      ensures r.Ok? ==> uuid in store.namespaces && r.value == store.namespaces[uuid]
      ensures r == Err(NoSuchNamespace) ==> uuid !in store.namespaces
      ensures reliable ==> r.Ok? || r == Err(NoSuchNamespace)
    {
      if uuid !in store.namespaces {
        return Err(NoSuchNamespace);
      }
      var fault: bool := *;
      if fault && !reliable {
        return Err(ApiFailure);
      }
      return Ok(store.namespaces[uuid]);
    }

    // A new size of 0 is not sent.
    method NamespaceSet(uuid: Uuid, newSize: nat) returns (r: Result<(), ApiError>)
      requires Valid()
      modifies this`store
      ensures Valid()
      ensures r.Ok? ==> uuid in old(store).namespaces
      ensures r.Ok? && newSize > 0 ==>
                var s := old(store);
                store == s.(namespaces := s.namespaces[uuid := s.namespaces[uuid].(size := newSize)])
      ensures r.Err? || newSize == 0 ==> store == old(store)
      ensures reliable ==> (r.Ok? <==> uuid in old(store).namespaces)
    {
      var fault: bool := *;
      if (fault && !reliable) || uuid !in store.namespaces {
        return Err(ApiFailure);
      }
      if newSize > 0 {
        store := store.(namespaces := store.namespaces[uuid := store.namespaces[uuid].(size := newSize)]);
      }
      return Ok(());
    }

    method NamespaceDelete(uuid: Uuid) returns (r: Result<(), ApiError>)
      requires Valid()
      modifies this`store
      ensures Valid()
      ensures r.Ok? ==> uuid in old(store).namespaces && store == old(store).RemoveNamespaces({uuid})
      ensures r.Err? ==> store == old(store) || store == old(store).RemoveNamespaces({uuid})
      ensures reliable ==> (r.Ok? <==> uuid in old(store).namespaces)
    {
      if uuid !in store.namespaces {
        return Err(NoSuchNamespace);
      }
      var refused: bool := *;
      if refused && !reliable {
        return Err(ApiFailure);
      }
      store := store.RemoveNamespaces({uuid});
      var replyLost: bool := *;
      return if replyLost && !reliable then Err(ApiFailure) else Ok(());
    }

    // ---- subsystems ----

    method SubsystemCreate(name: string) returns (r: Result<Uuid, ApiError>)
      requires Valid()
      modifies this`store, this`made
      ensures Valid()
      ensures r.Ok? ==> r.value !in old(store).subsystems && r.value != "" && !old(store).HasSubsystemNamed(name)
      ensures r.Ok? ==>
                store == old(store).(subsystems := old(store).subsystems[r.value := Subsystem(name)])
                    && made == old(made) + [UndoSubsystem(r.value)]
      ensures r.Err? ==> store == old(store) && made == old(made)
      ensures r == Err(AlreadyExist) ==> store.HasSubsystemNamed(name)
      ensures reliable ==> r.Ok? || r == Err(AlreadyExist)
    {
      if store.HasSubsystemNamed(name) {
        return Err(AlreadyExist);
      }
      var fault: bool := *;
      if fault && !reliable {
        return Err(ApiFailure);
      }
      FreshUuidExists(store.subsystems.Keys);
      var uuid: Uuid :| uuid != "" && uuid !in store.subsystems.Keys;
      store := store.(subsystems := store.subsystems[uuid := Subsystem(name)]);
      made := made + [UndoSubsystem(uuid)];
      return Ok(uuid);
    }

    method SubsystemGet(uuid: Uuid) returns (r: Result<Subsystem, ApiError>)
      ensures r.Ok? ==> uuid in store.subsystems && r.value == store.subsystems[uuid]
      ensures r == Err(FailedToGetSubsystem) ==> uuid !in store.subsystems
      ensures reliable ==> r.Ok? || r == Err(FailedToGetSubsystem)
    {
      if uuid !in store.subsystems {
        return Err(FailedToGetSubsystem);
      }
      var fault: bool := *;
      if fault && !reliable {
        return Err(ApiFailure);
      }
      return Ok(store.subsystems[uuid]);
    }

    method SubsystemSetNamespaces(uuid: Uuid, nsId: Uuid) returns (r: Result<(), ApiError>)
      requires Valid()
      modifies this`store
      ensures Valid()
      ensures r.Ok? ==>
                uuid in old(store).subsystems && nsId in old(store).namespaces
                    && store == old(store).SetNamespaces(uuid, nsId)
      ensures r.Err? ==> store == old(store)
      ensures reliable ==> (r.Ok? <==> uuid in old(store).subsystems && nsId in old(store).namespaces)
    {
      hide Store.Valid;
      var fault: bool := *;
      if (fault && !reliable) || uuid !in store.subsystems || nsId !in store.namespaces {
        return Err(ApiFailure);
      }
      SetNamespacesKeepsValid(store, uuid, nsId);
      store := store.SetNamespaces(uuid, nsId);
      return Ok(());
    }

    method SubsystemDelete(uuid: Uuid) returns (r: Result<(), ApiError>)
      requires Valid()
      modifies this`store
      ensures Valid()
      ensures r.Ok? ==> store == old(store).RemoveSubsystem(uuid)
      ensures r.Err? ==> store == old(store) || store == old(store).RemoveSubsystem(uuid)
      ensures reliable ==> (r.Ok? <==> uuid in old(store).subsystems)
    {
      if uuid !in store.subsystems {
        return Err(FailedToGetSubsystem);
      }
      var refused: bool := *;
      if refused && !reliable {
        return Err(ApiFailure);
      }
      store := store.RemoveSubsystem(uuid);
      var replyLost: bool := *;
      return if replyLost && !reliable then Err(ApiFailure) else Ok(());
    }

    // ---- shares ----

    method ShareCreate(name: string, volPath: string, quotaMB: int) returns (r: Result<(), ApiError>)
      requires Valid()
      modifies this`store, this`made
      ensures Valid()
      ensures r.Ok? ==> name !in old(store).shares && name in store.shares
      ensures r.Ok? ==> store.shares[name] == Share(store.shares[name].uuid, volPath, quotaMB, false)
      ensures r.Ok? ==>
                store == old(store).(shares := old(store).shares[name := store.shares[name]])
                    && made == old(made) + [UndoShare(name)]
      ensures r.Err? ==> store == old(store) && made == old(made)
      ensures r == Err(AlreadyExist) ==> name in store.shares
      ensures reliable ==> r.Ok? || r == Err(AlreadyExist)
    {
      if name in store.shares {
        return Err(AlreadyExist);
      }
      var fault: bool := *;
      var uuid: Uuid := *;
      if fault && !reliable {
        return Err(ApiFailure);
      }
      store := store.(shares := store.shares[name := Share(uuid, volPath, quotaMB, false)]);
      made := made + [UndoShare(name)];
      return Ok(());
    }

    // A share to copy, from its contents or from a snapshot of it.
    predicate HasShareSource(s: Store, nameOrg: string, snapshot: Option<Uuid>) {
      nameOrg != "" && nameOrg in s.shares && (snapshot.Some? ==> snapshot.value in snapshots)
    }

    method ShareClone(name: string, nameOrg: string, snapshot: Option<Uuid>, volPath: string)
      returns (r: Result<(), ApiError>)
      requires Valid()
      modifies this`store, this`made
      ensures Valid()
      ensures r.Ok? ==> name !in old(store).shares && name in store.shares
      ensures r.Ok? ==> HasShareSource(old(store), nameOrg, snapshot)
      ensures r.Ok? ==> !store.shares[name].exported && store.shares[name].volPath == volPath
      ensures r.Ok? ==> store.shares[name].quotaMB == if copiesKeepQuota then old(store).shares[nameOrg].quotaMB else 0
      ensures r.Ok? ==>
                store == old(store).(shares := old(store).shares[name := store.shares[name]])
                    && made == old(made) + [UndoShare(name)]
      ensures r.Err? ==> store == old(store) && made == old(made)
      ensures r == Err(AlreadyExist) ==> name in store.shares
      ensures reliable ==> (r.Ok? || r == Err(AlreadyExist) <==> HasShareSource(old(store), nameOrg, snapshot))
    {
      if !HasShareSource(store, nameOrg, snapshot) {
        return Err(ApiFailure);
      }
      r := ShareCreate(name, volPath, if copiesKeepQuota then store.shares[nameOrg].quotaMB else 0);
    }

    method ShareGet(name: string) returns (r: Result<Share, ApiError>)
      ensures r.Ok? ==> name in store.shares && r.value == store.shares[name]
      ensures reliable ==> (r.Ok? <==> name in store.shares)
    {
      var fault: bool := *;
      if (fault && !reliable) || name !in store.shares {
        return Err(NoSuchShare);
      }
      return Ok(store.shares[name]);
    }

    method SetShareQuota(name: string, quotaMB: int) returns (r: Result<(), ApiError>)
      requires Valid()
      modifies this`store
      ensures Valid()
      ensures r.Ok? ==>
                var s := old(store);
                name in s.shares && store == s.(shares := s.shares[name := s.shares[name].(quotaMB := quotaMB)])
      ensures r.Err? ==> store == old(store)
      ensures reliable ==> (r.Ok? <==> name in old(store).shares)
    {
      var fault: bool := *;
      if (fault && !reliable) || name !in store.shares {
        return Err(NoSuchShare);
      }
      store := store.(shares := store.shares[name := store.shares[name].(quotaMB := quotaMB)]);
      return Ok(());
    }

    method ShareDelete(name: string) returns (r: Result<(), ApiError>)
      requires Valid()
      modifies this`store
      ensures Valid()
      ensures r.Ok? ==> store == old(store).RemoveShare(name)
      ensures r.Err? ==> store == old(store) || store == old(store).RemoveShare(name)
      ensures reliable ==> (r.Ok? <==> name in old(store).shares)
    {
      if name !in store.shares {
        return Err(NoSuchShare);
      }
      var refused: bool := *;
      if refused && !reliable {
        return Err(ApiFailure);
      }
      store := store.RemoveShare(name);
      var replyLost: bool := *;
      return if replyLost && !reliable then Err(ApiFailure) else Ok(());
    }

    // ---- undo steps ----

    // Runs the closure a creation registered, and logs that it was run.
    method RunUndo(step: Undo) returns (ok: bool)
      requires Valid()
      modifies this`store, this`tried
      ensures Valid()
      ensures |tried| == |old(tried)| + 1 && tried[..|old(tried)|] == old(tried)
      ensures var a := tried[|old(tried)|]; a.step == step && a.ok == ok && (ok ==> a.removed)
      ensures store == AfterAttempts(old(store), tried[|old(tried)|..])
    {
      ghost var before := store;
      match step {
        case UndoLun(name) =>
          var found := LunGetByName(name);
          if found.Ok? {
            assert store.LunsNamed(name) == {found.value};
            var r := LunDelete(found.value);
            ok := r.Ok?;
          } else {
            ok := false;
          }
        case UndoTarget(id) =>
          var r := TargetDelete(id);
          ok := r.Ok?;
        case UndoNamespace(name) =>
          var found := NamespaceGetByName(name);
          if found.Ok? {
            assert store.NamespacesNamed(name) == {found.value};
            var r := NamespaceDelete(found.value);
            ok := r.Ok?;
          } else {
            ok := false;
          }
        case UndoSubsystem(uuid) =>
          var r := SubsystemDelete(uuid);
          ok := r.Ok?;
        case UndoShare(name) =>
          var r := ShareDelete(name);
          ok := r.Ok?;
      }
      tried := tried + [Attempt(step, ok, ok || store != before)];
      assert tried[|old(tried)|..] == [Attempt(step, ok, ok || store != before)];
    }
  }

  // ---- there is always an id to give out ----

  lemma {:induction false} LongerThanAll(keys: set<string>) returns (n: nat)
    ensures forall k | k in keys :: |k| <= n
  {
    n := 0;
    if keys != {} {
      var k :| k in keys;
      var m := LongerThanAll(keys - {k});
      n := if |k| > m then |k| else m;
      assert forall j | j in keys :: j == k || j in keys - {k};
    }
  }

  lemma FreshUuidExists(keys: set<Uuid>)
    ensures exists u: Uuid :: u != "" && u !in keys
  {
    var n := LongerThanAll(keys);
    var u: Uuid := seq(n + 1, _ => 'x');
    assert |u| == n + 1 && u != "" && u !in keys;
  }

  lemma {:induction false} GreaterThanAll(keys: set<TargetId>) returns (n: nat)
    ensures forall k | k in keys :: k <= n
  {
    n := 0;
    if keys != {} {
      var k :| k in keys;
      var m := GreaterThanAll(keys - {k});
      n := if k > m then k else m;
      assert forall j | j in keys :: j == k || j in keys - {k};
    }
  }

  lemma FreshTargetIdExists(keys: set<TargetId>)
    ensures exists id: TargetId :: id !in keys
  {
    var n := GreaterThanAll(keys);
    assert n + 1 !in keys;
  }
}
