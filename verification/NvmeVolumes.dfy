/** Creating a namespace and the subsystem it is attached to (pkg/dsm/service/namespace_volume.go). */
module NvmeVolumes {
  import opened Results
  import opened Sizes
  import opened Stores
  import opened Undoing
  import opened Outcomes
  import opened Dsms
  import opened Rollback
  import opened Volumes
  import IscsiVolumes

  // The namespace is attached to a subsystem that did not exist before; everything else is as it was.
  ghost predicate SubsystemAttached(spec: CreateSpec, a: Trace, b: Trace, nsId: Uuid, subsystemId: Uuid) {
    && NothingUndone(a, b)
    && nsId in a.store.namespaces && subsystemId != "" && subsystemId !in a.store.subsystems
    && b.store == a.store.(
                  subsystems := a.store.subsystems[subsystemId := Subsystem(spec.subsystemName)],
                  namespaces := a.store.namespaces[nsId := a.store.namespaces[nsId].(subsystem := subsystemId)])
  }

  method CreateMappingSubsystem(dsm: Dsm, spec: CreateSpec, nsId: Uuid) returns (r: Result<(Uuid, Subsystem), Code>)
    requires dsm.Valid()
    modifies dsm
    ensures dsm.Valid()
    ensures r.Ok? ==> SubsystemAttached(spec, old(dsm.Now()), dsm.Now(), nsId, r.value.0)
    ensures r.Err? ==> RolledBack(spec.Names(), old(dsm.Now()), dsm.Now())
    ensures old(dsm.store).HasSubsystemNamed(spec.subsystemName) ==> r.Err?
    ensures dsm.reliable ==>
              (r.Ok? <==> nsId in old(dsm.store).namespaces && !old(dsm.store).HasSubsystemNamed(spec.subsystemName))
    ensures dsm.store.shares == old(dsm.store.shares)
  {
    // A failure undoes the subsystem here and leaves the namespace to the caller.
    var rollback := new CreateRollback();
    ghost var start := dsm.Now();
    r := TryMappingSubsystem(dsm, spec, nsId, rollback);
    if r.Err? {
      RollBack(dsm, rollback, spec.Names(), start);
    }
  }

  method TryMappingSubsystem(dsm: Dsm, spec: CreateSpec, nsId: Uuid, rollback: CreateRollback)
    returns (r: Result<(Uuid, Subsystem), Code>)
    requires dsm.Valid() && rollback.steps == []
    modifies dsm`store, dsm`made, rollback
    ensures dsm.Valid()
    ensures r.Ok? ==> SubsystemAttached(spec, old(dsm.Now()), dsm.Now(), nsId, r.value.0)
    ensures r.Err? ==> Pending(spec.Names(), old(dsm.Now()), dsm.Now(), rollback.steps)
    ensures old(dsm.store).HasSubsystemNamed(spec.subsystemName) ==> r.Err?
    ensures dsm.reliable ==>
              (r.Ok? <==> nsId in old(dsm.store).namespaces && !old(dsm.store).HasSubsystemNamed(spec.subsystemName))
    ensures dsm.store.shares == old(dsm.store.shares)
    ensures forall step | step in rollback.steps :: !step.UndoShare?
  {
    hide Store.Valid, Registered, Pending, SubsystemAttached, Residue;
    ghost var own, start := spec.Names(), dsm.Now();
    NothingRegistered(own, start);
    var created := dsm.SubsystemCreate(spec.subsystemName);
    var uuid := "";
    if created.Err? {
      if created.error != AlreadyExist {
        RegisteredIsPending(own, start, dsm.Now(), []);
        return Err(Internal);
      }
      // Not undone, and not usable either: its uuid stays unknown.
    } else {
      uuid := created.value;
      rollback.Add(UndoSubsystem(uuid));
      SubsystemRegistered(own, start, dsm.Now(), uuid, Subsystem(spec.subsystemName));
      assert rollback.steps == [UndoSubsystem(uuid)];
    }
    RegisteredIsPending(own, start, dsm.Now(), rollback.steps);

    ghost var afterCreate := dsm.Now();
    var info := dsm.SubsystemGet(uuid);
    if info.Err? {
      return Err(Internal);
    }
    NoEmptyUuid(dsm.store);
    var attached := dsm.SubsystemSetNamespaces(uuid, nsId);
    if attached.Err? {
      return Err(Internal);
    }
    NewSubsystemTakesOne(start.store, uuid, Subsystem(spec.subsystemName), nsId);
    assert SubsystemAttached(spec, start, dsm.Now(), nsId, uuid) by {
      AttachedFromParts(spec, start, dsm.Now(), nsId, uuid);
    }
    return Ok((uuid, info.value));
  }

  lemma NoEmptyUuid(s: Store)
    requires s.Valid()
    ensures "" !in s.subsystems
  {
  }

  lemma SubsystemRegistered(own: Own, a: Trace, b: Trace, uuid: Uuid, subsystem: Subsystem)
    requires uuid !in a.store.subsystems && b.made == a.made + [UndoSubsystem(uuid)] && b.tried == a.tried
    requires b.store == a.store.(subsystems := a.store.subsystems[uuid := subsystem])
    ensures Registered(own, a, b, [UndoSubsystem(uuid)])
  {
  }

  lemma NewSubsystemTakesOne(s: Store, uuid: Uuid, subsystem: Subsystem, nsId: Uuid)
    requires s.Valid() && uuid !in s.subsystems && uuid != "" && nsId in s.namespaces
    ensures s.(subsystems := s.subsystems[uuid := subsystem]).SetNamespaces(uuid, nsId)
            == s.(subsystems := s.subsystems[uuid := subsystem],
            namespaces := s.namespaces[nsId := s.namespaces[nsId].(subsystem := uuid)])
  {
    var t := s.(subsystems := s.subsystems[uuid := subsystem]);
    assert t.SetNamespaces(uuid, nsId).namespaces == s.namespaces[nsId := s.namespaces[nsId].(subsystem := uuid)];
  }

  lemma AttachedFromParts(spec: CreateSpec, a: Trace, b: Trace, nsId: Uuid, uuid: Uuid)
    requires a.made <= b.made && a.tried == b.tried && nsId in a.store.namespaces && uuid != ""
    requires uuid !in a.store.subsystems
    requires b.store
             == a.store.(subsystems := a.store.subsystems[uuid := Subsystem(spec.subsystemName)],
             namespaces := a.store.namespaces[nsId := a.store.namespaces[nsId].(subsystem := uuid)])
    ensures SubsystemAttached(spec, a, b, nsId, uuid)
  {
  }

  // ---- namespace volumes ----

  ghost predicate NamespaceVolumeCreated(spec: CreateSpec, ip: string, a: Trace, b: Trace, v: Volume) {
    && v.NamespaceVolume? && v.ip == ip
    && NothingUndone(a, b)
    && NvmeBuilt(spec.Names(), a.store, b.store, v.nsId, v.subsystemId)
    && v.ns == b.store.namespaces[v.nsId]
  }

  ghost function NamespaceBefore(s: Store, nsId: Uuid): Option<nat> {
    if nsId in s.namespaces then Some(s.namespaces[nsId].size) else None
  }

  // createNVMeVolumeByDsm
  method CreateVolumeByDsm(dsm: Dsm, spec: CreateSpec) returns (r: Result<Volume, Code>)
    requires dsm.Valid()
    modifies dsm, spec`location
    ensures dsm.Valid()
    ensures r.Ok? ==> NamespaceVolumeCreated(spec, dsm.ip, old(dsm.Now()), dsm.Now(), r.value)
    ensures r.Ok? ==> r.value.ns.(subsystem := "") == if r.value.nsId in old(dsm.store).namespaces
                        then old(dsm.store).namespaces[r.value.nsId].(subsystem := "")
                        else Namespace(spec.backendName, spec.size, spec.location, "")
    ensures r.Ok? ==> spec.location in dsm.volumes
    ensures r.Err? ==> RolledBack(spec.Names(), old(dsm.Now()), dsm.Now())
    ensures old(dsm.store).HasSubsystemNamed(spec.subsystemName) ==> r.Err?
    ensures IscsiVolumes.Chosen(dsm, spec.size, false, old(spec.location), spec.location)
    ensures dsm.reliable ==>
              (r.Ok? <==> spec.location in dsm.volumes && !old(dsm.store).HasSubsystemNamed(spec.subsystemName))
    ensures dsm.store.shares == old(dsm.store.shares)
  {
    var rollback := new CreateRollback();
    ghost var start := dsm.Now();
    r := TryVolumeByDsm(dsm, spec, rollback);
    if r.Err? {
      RollBack(dsm, rollback, spec.Names(), start);
    }
  }

  method TryVolumeByDsm(dsm: Dsm, spec: CreateSpec, rollback: CreateRollback) returns (r: Result<Volume, Code>)
    requires dsm.Valid() && rollback.steps == []
    modifies dsm, spec`location, rollback
    ensures dsm.Valid()
    ensures r.Ok? ==> NamespaceVolumeCreated(spec, dsm.ip, old(dsm.Now()), dsm.Now(), r.value)
    ensures r.Ok? ==> r.value.ns.(subsystem := "") == if r.value.nsId in old(dsm.store).namespaces
                        then old(dsm.store).namespaces[r.value.nsId].(subsystem := "")
                        else Namespace(spec.backendName, spec.size, spec.location, "")
    ensures r.Ok? ==> spec.location in dsm.volumes
    ensures r.Err? ==> Pending(spec.Names(), old(dsm.Now()), dsm.Now(), rollback.steps)
    ensures old(dsm.store).HasSubsystemNamed(spec.subsystemName) ==> r.Err?
    ensures IscsiVolumes.Chosen(dsm, spec.size, false, old(spec.location), spec.location)
    ensures dsm.reliable ==>
              (r.Ok? <==> spec.location in dsm.volumes && !old(dsm.store).HasSubsystemNamed(spec.subsystemName))
    ensures dsm.store.shares == old(dsm.store.shares)
    ensures forall step | step in rollback.steps :: !step.UndoShare?
  {
    hide Store.Valid, Registered, Pending, SubsystemAttached, NamespaceVolumeCreated, RolledBack;
    ghost var own, start := spec.Names(), dsm.Now();
    NothingRegistered(own, start);
    RegisteredIsPending(own, start, start, []);

    var fs := IscsiVolumes.ChooseLocation(dsm, spec, false);
    if fs.Err? {
      return Err(fs.error);
    }

    var created := dsm.NamespaceCreate(spec.backendName, spec.size, spec.location);
    if created.Err? {
      if created.error != AlreadyExist {
        return Err(Internal);
      }
    } else {
      rollback.Add(UndoNamespace(spec.backendName));
      NamespaceRegistered(own, start, dsm.Now(), created.value);
      assert rollback.steps == [UndoNamespace(spec.backendName)];
    }
    RegisteredIsPending(own, start, dsm.Now(), rollback.steps);

    var got := dsm.NamespaceGetByName(spec.backendName);
    if got.Err? {
      return Err(Internal);
    }
    var ns := dsm.store.namespaces[got.value];

    ghost var built := dsm.Now();
    var subsystem := CreateMappingSubsystem(dsm, spec, got.value);
    if subsystem.Err? {
      InnerFailureIsPending(own, start, built, dsm.Now(), rollback.steps);
      return Err(Internal);
    }
    r := Ok(NamespaceVolume(dsm.ip, got.value, ns.(subsystem := subsystem.value.0), subsystem.value.0,
                            subsystem.value.1));
    NamespaceVolumeFromParts(spec, dsm.ip, start, built, dsm.Now(), rollback.steps, r.value, ns);
    NewNamespaceIsTheCreated(start.store, built.store, got.value, spec.backendName);
  }

  // createNVMeVolumeBySnapshot
  method CreateVolumeBySnapshot(dsm: Dsm, spec: CreateSpec, src: Snapshot) returns (r: Result<Volume, Code>)
    requires dsm.Valid()
    modifies dsm, spec`location
    ensures dsm.Valid()
    ensures r.Ok? ==> NamespaceVolumeCreated(spec, dsm.ip, old(dsm.Now()), dsm.Now(), r.value) && dsm.supportNvmeof
    ensures r.Ok? ==>
              IscsiVolumes.CopyDelivers(spec.size, src.size, dsm.copiesKeepSize,
                                        NamespaceBefore(old(dsm.store), r.value.nsId), r.value.ns.size)
    ensures r.Err? ==> RolledBack(spec.Names(), old(dsm.Now()), dsm.Now())
    ensures r == Err(OutOfRange) <==> !RestoreSizeAllowed(spec.size, src.size)
    ensures r == Err(OutOfRange) ==> dsm.Now() == old(dsm.Now())
    ensures old(dsm.store).HasSubsystemNamed(spec.subsystemName) ==> r.Err?
    ensures dsm.reliable ==>
              (r.Ok? <==>
                 && RestoreSizeAllowed(spec.size, src.size) && dsm.supportNvmeof && src.uuid in dsm.snapshots
                 && !old(dsm.store).HasSubsystemNamed(spec.subsystemName))
    ensures dsm.store.shares == old(dsm.store.shares)
  {
    var rollback := new CreateRollback();
    ghost var start := dsm.Now();
    if !RestoreSizeAllowed(spec.size, src.size) {
      NothingRegistered(spec.Names(), start);
      return Err(OutOfRange);
    }
    if !dsm.supportNvmeof {
      NothingRegistered(spec.Names(), start);
      return Err(Internal);
    }
    r := TryNamespaceCopy(dsm, spec, FromSnapshot(src.parentUuid, src.uuid), src.size, rollback);
    if r.Err? {
      RollBack(dsm, rollback, spec.Names(), start);
    }
  }

  // createNVMeVolumeByVolume; srcId is "" and srcNs empty when the source volume is not a namespace.
  method CreateVolumeByVolume(dsm: Dsm, spec: CreateSpec, srcId: Uuid, srcNs: Namespace)
    returns (r: Result<Volume, Code>)
    requires dsm.Valid()
    modifies dsm, spec`location
    ensures dsm.Valid()
    ensures r.Ok? ==> NamespaceVolumeCreated(spec, dsm.ip, old(dsm.Now()), dsm.Now(), r.value) && dsm.supportNvmeof
    ensures r.Ok? ==>
              IscsiVolumes.CopyDelivers(spec.size, srcNs.size, dsm.copiesKeepSize,
                                        NamespaceBefore(old(dsm.store), r.value.nsId), r.value.ns.size)
    ensures r.Ok? && r.value.nsId !in old(dsm.store).namespaces ==>
              r.value.ns.location == if old(spec.location) == "" then srcNs.location else old(spec.location)
    ensures r.Err? ==> RolledBack(spec.Names(), old(dsm.Now()), dsm.Now())
    ensures r == Err(OutOfRange) <==> !RestoreSizeAllowed(spec.size, srcNs.size)
    ensures r == Err(OutOfRange) ==> dsm.Now() == old(dsm.Now())
    ensures old(dsm.store).HasSubsystemNamed(spec.subsystemName) ==> r.Err?
    ensures dsm.reliable ==>
              (r.Ok? <==>
                 && RestoreSizeAllowed(spec.size, srcNs.size) && dsm.supportNvmeof
                 && srcId in old(dsm.store).namespaces
                 && !old(dsm.store).HasSubsystemNamed(spec.subsystemName))
    ensures dsm.store.shares == old(dsm.store.shares)
  {
    var rollback := new CreateRollback();
    ghost var start := dsm.Now();
    if !RestoreSizeAllowed(spec.size, srcNs.size) {
      NothingRegistered(spec.Names(), start);
      return Err(OutOfRange);
    }
    if !dsm.supportNvmeof {
      NothingRegistered(spec.Names(), start);
      return Err(Internal);
    }
    if spec.location == "" {
      spec.location := srcNs.location;
    }
    r := TryNamespaceCopy(dsm, spec, FromVolume(srcId, spec.location), srcNs.size, rollback);
    if r.Err? {
      RollBack(dsm, rollback, spec.Names(), start);
    }
  }

  method TryNamespaceCopy(dsm: Dsm, spec: CreateSpec, from: CopySource, srcSize: nat, rollback: CreateRollback)
    returns (r: Result<Volume, Code>)
    requires dsm.Valid() && rollback.steps == [] && RestoreSizeAllowed(spec.size, srcSize)
    modifies dsm, rollback
    ensures dsm.Valid()
    ensures r != Err(OutOfRange)
    ensures r.Ok? ==> NamespaceVolumeCreated(spec, dsm.ip, old(dsm.Now()), dsm.Now(), r.value)
    ensures r.Ok? ==>
              IscsiVolumes.CopyDelivers(spec.size, srcSize, dsm.copiesKeepSize,
                                        NamespaceBefore(old(dsm.store), r.value.nsId), r.value.ns.size)
    ensures r.Ok? && from.FromVolume? && r.value.nsId !in old(dsm.store).namespaces ==>
              r.value.ns.location == from.location
    ensures r.Err? ==> Pending(spec.Names(), old(dsm.Now()), dsm.Now(), rollback.steps)
    ensures old(dsm.store).HasSubsystemNamed(spec.subsystemName) ==> r.Err?
    ensures dsm.reliable ==>
              (r.Ok? <==>
                 && dsm.HasNamespaceSource(old(dsm.store), from)
                 && !old(dsm.store).HasSubsystemNamed(spec.subsystemName))
    ensures dsm.store.shares == old(dsm.store.shares)
    ensures forall step | step in rollback.steps :: !step.UndoShare?
  {
    hide Store.Valid, Registered, Pending, SubsystemAttached, NamespaceVolumeCreated, RolledBack;
    ghost var own, start := spec.Names(), dsm.Now();
    var copy := CopyNamespace(dsm, spec, from, srcSize, rollback);
    if copy.Err? {
      return Err(copy.error);
    }
    var (nsId, ns) := copy.value;

    ghost var built := dsm.Now();
    RegisteredIsPending(own, start, built, rollback.steps);
    var subsystem := CreateMappingSubsystem(dsm, spec, nsId);
    if subsystem.Err? {
      InnerFailureIsPending(own, start, built, dsm.Now(), rollback.steps);
      return Err(Internal);
    }
    r := Ok(NamespaceVolume(dsm.ip, nsId, ns.(subsystem := subsystem.value.0), subsystem.value.0, subsystem.value.1));
    NamespaceVolumeFromParts(spec, dsm.ip, start, built, dsm.Now(), rollback.steps, r.value, ns);
  }

  // The copy or what was found under its name, waited for and grown to the requested size.
  method CopyNamespace(dsm: Dsm, spec: CreateSpec, from: CopySource, srcSize: nat, rollback: CreateRollback)
    returns (r: Result<(Uuid, Namespace), Code>)
    requires dsm.Valid() && rollback.steps == [] && RestoreSizeAllowed(spec.size, srcSize)
    modifies dsm`store, dsm`made, rollback
    ensures dsm.Valid()
    ensures r != Err(OutOfRange)
    ensures r.Ok? ==> Registered(spec.Names(), old(dsm.Now()), dsm.Now(), rollback.steps)
    ensures r.Ok? ==> rollback.steps == [] || rollback.steps == [UndoNamespace(spec.backendName)]
    ensures r.Ok? ==>
              var (nsId, ns) := r.value;
              && dsm.store == old(dsm.store).(namespaces := dsm.store.namespaces)
              && nsId in dsm.store.namespaces && ns == dsm.store.namespaces[nsId] && ns.name == spec.backendName
              && IscsiVolumes.CopyDelivers(spec.size, srcSize, dsm.copiesKeepSize,
                                           NamespaceBefore(old(dsm.store), nsId), ns.size)
              && (from.FromVolume? && nsId !in old(dsm.store).namespaces ==> ns.location == from.location)
    ensures r.Err? ==> Pending(spec.Names(), old(dsm.Now()), dsm.Now(), rollback.steps)
    ensures dsm.reliable ==> (r.Ok? <==> dsm.HasNamespaceSource(old(dsm.store), from))
    ensures dsm.store.shares == old(dsm.store.shares)
    ensures forall step | step in rollback.steps :: !step.UndoShare?
  {
    hide Store.Valid, Registered, Pending;
    ghost var own, start := spec.Names(), dsm.Now();
    NothingRegistered(own, start);
    RegisteredIsPending(own, start, start, []);
    var copied := dsm.NamespaceCopy(spec.backendName, from, srcSize);
    if copied.Err? {
      if copied.error != AlreadyExist {
        return Err(Internal);
      }
    } else {
      rollback.Add(UndoNamespace(spec.backendName));
      NamespaceRegistered(own, start, dsm.Now(), copied.value);
      assert rollback.steps == [UndoNamespace(spec.backendName)];
    }
    RegisteredIsPending(own, start, dsm.Now(), rollback.steps);
    ghost var afterCopy := dsm.Now();

    var finished := IscsiVolumes.WaitCloneFinished(dsm, spec.backendName, Nvme);
    if !finished {
      return Err(Internal);
    }
    var got := dsm.NamespaceGetByName(spec.backendName);
    if got.Err? {
      return Err(Internal);
    }
    NewNamespaceIsTheCreated(start.store, afterCopy.store, got.value, spec.backendName);
    var ns := dsm.store.namespaces[got.value];

    var newSize := NeedsExpandTo(spec.size, ns.size);
    if newSize > 0 {
      var updated := dsm.NamespaceSet(got.value, newSize);
      if updated.Err? {
        return Err(Internal);
      }
      ns := ns.(size := newSize);
      GrowthKeepsRegistered(own, start, afterCopy, dsm.Now(), rollback.steps, got.value, newSize);
    }
    return Ok((got.value, ns));
  }

  lemma NamespaceRegistered(own: Own, a: Trace, b: Trace, nsId: Uuid)
    requires nsId !in a.store.namespaces && nsId in b.store.namespaces
    requires b.store.namespaces[nsId].name == own.backend && b.store.namespaces[nsId].subsystem == ""
    requires !a.store.HasNamespaceNamed(own.backend)
    requires b.store == a.store.(namespaces := a.store.namespaces[nsId := b.store.namespaces[nsId]])
    requires b.made == a.made + [UndoNamespace(own.backend)] && b.tried == a.tried
    ensures Registered(own, a, b, [UndoNamespace(own.backend)])
  {
  }

  lemma NewNamespaceIsTheCreated(a: Store, b: Store, nsId: Uuid, name: string)
    requires b.Valid() && nsId in b.namespaces && b.namespaces[nsId].name == name
    ensures forall u | u in b.namespaces && u !in a.namespaces && b.namespaces[u].name == name :: u == nsId
  {
  }

  lemma GrowthKeepsRegistered(own: Own, a: Trace, b: Trace, c: Trace, steps: seq<Undo>, nsId: Uuid, n: nat)
    requires Registered(own, a, b, steps) && c.made == b.made && c.tried == b.tried
    requires nsId in b.store.namespaces && b.store.namespaces[nsId].name == own.backend
    requires b.store.namespaces[nsId].size <= n
    requires c.store == b.store.(namespaces := b.store.namespaces[nsId := b.store.namespaces[nsId].(size := n)])
    ensures Registered(own, a, c, steps)
  {
    forall u | u in a.store.namespaces ensures LikeNamespace(own, a.store.namespaces[u], c.store.namespaces[u]) {
      assert LikeNamespace(own, a.store.namespaces[u], b.store.namespaces[u]);
    }
  }

  lemma NamespaceVolumeFromParts(spec: CreateSpec, ip: string, a: Trace, b: Trace, c: Trace, steps: seq<Undo>,
                                 v: Volume, ns: Namespace)
    requires Registered(spec.Names(), a, b, steps) && b.store.Valid()
    requires steps == [] || steps == [UndoNamespace(spec.backendName)]
    requires b.store == a.store.(namespaces := b.store.namespaces)
    requires v.NamespaceVolume? && v.ip == ip && v.nsId in b.store.namespaces
    requires ns == b.store.namespaces[v.nsId] && ns.name == spec.backendName && v.ns == ns.(subsystem := v.subsystemId)
    requires SubsystemAttached(spec, b, c, v.nsId, v.subsystemId)
    ensures NamespaceVolumeCreated(spec, ip, a, c, v)
  {
    hide Store.Valid;
    OthersUntouched(spec, a, b, steps, v.nsId);
    assert c.store.subsystems - {v.subsystemId} == a.store.subsystems;
  }

  // The namespace of the creation's name, registered or adopted, is the only one that is new or may differ.
  lemma OthersUntouched(spec: CreateSpec, a: Trace, b: Trace, steps: seq<Undo>, nsId: Uuid)
    requires Registered(spec.Names(), a, b, steps) && b.store.Valid()
    requires nsId in b.store.namespaces && b.store.namespaces[nsId].name == spec.backendName
    ensures b.store.namespaces.Keys == a.store.namespaces.Keys + {nsId}
    ensures forall u | u in a.store.namespaces && u != nsId :: b.store.namespaces[u] == a.store.namespaces[u]
    ensures nsId in a.store.namespaces ==>
              LikeNamespace(spec.Names(), a.store.namespaces[nsId], b.store.namespaces[nsId])
  {
    forall u | u in a.store.namespaces && u != nsId ensures b.store.namespaces[u] == a.store.namespaces[u] {
      assert LikeNamespace(spec.Names(), a.store.namespaces[u], b.store.namespaces[u]);
    }
  }
}
