/** Every run of creations, deletions and expansions keeps target and LUN one to one, whatever calls fail. */
module OneToOneRuns {
  import opened Names
  import opened Stores
  import opened Undoing
  import opened Outcomes
  import opened Volumes
  import opened Worlds
  import opened Steps

  ghost predicate TargetsOneToOne(targets: map<TargetId, Target>, luns: map<Uuid, Lun>) {
    forall t, m | t in targets && m in targets[t].mapped && m.lun in luns
        && (IsCsiName(targets[t].name) || IsCsiName(luns[m.lun].name)) ::
      targets[t].mapped == [m] && luns[m.lun].name == targets[t].name
  }

  lemma ResidueKeepsOneToOne(own: Own, a: Store, b: Store, failed: set<Undo>)
    requires a.Valid() && OneToOne(a) && Residue(own, a, b, failed)
    ensures OneToOne(b)
  {
    hide Store.Valid;
    assert TargetsOneToOne(b.targets, b.luns) by { ResidueKeepsTargets(own, a, b, failed); }
    forall n, k | n in b.namespaces && k in b.namespaces && IsAttachedCsi(b.namespaces[n])
        && b.namespaces[k].subsystem == b.namespaces[n].subsystem
      ensures k == n
    {
      assert n in a.namespaces && k in a.namespaces;
      assert LikeNamespace(own, a.namespaces[n], b.namespaces[n]);
      assert LikeNamespace(own, a.namespaces[k], b.namespaces[k]);
    }
  }

  lemma ResidueKeepsTargets(own: Own, a: Store, b: Store, failed: set<Undo>)
    requires a.Valid() && OneToOne(a) && Residue(own, a, b, failed)
    ensures TargetsOneToOne(b.targets, b.luns)
  {
    hide Store.Valid;
    forall t, m | t in b.targets && m in b.targets[t].mapped && m.lun in b.luns
        && (IsCsiName(b.targets[t].name) || IsCsiName(b.luns[m.lun].name))
      ensures b.targets[t].mapped == [m] && b.luns[m.lun].name == b.targets[t].name
    {
      assert t in a.targets && LikeTarget(own, a.targets[t], b.targets[t]);
      MappedIsThere(a, t, m);
      assert LikeLun(own, a.luns[m.lun], b.luns[m.lun]);
    }
  }

  lemma MappedIsThere(s: Store, t: TargetId, m: Mapping)
    requires s.Valid() && t in s.targets && m in s.targets[t].mapped
    ensures m.lun in s.luns
  {
    assert MappingsExist(s.targets[t].mapped, s.luns);
  }

  // The new mapping joins a target of the LUN's own name, which served nothing else.
  lemma IscsiBuiltKeepsOneToOne(own: Own, a: Store, b: Store, lunId: Uuid, targetId: TargetId)
    requires a.Valid() && b.Valid() && OneToOne(a) && IscsiBuilt(own, a, b, lunId, targetId)
    requires own.backend == own.target && IsCsiName(own.backend)
    ensures OneToOne(b)
  {
    hide Store.Valid;
    forall t, m | t in b.targets && m in b.targets[t].mapped && m.lun in b.luns
        && (IsCsiName(b.targets[t].name) || IsCsiName(b.luns[m.lun].name))
      ensures b.targets[t].mapped == [m] && b.luns[m.lun].name == b.targets[t].name
    {
      if t == targetId {
        TargetServesOnlyItsLun(own, a, b, lunId, targetId);
      } else {
        assert b.targets[t] == a.targets[t];
        MappedIsThere(a, t, m);
        assert b.luns[m.lun].name == a.luns[m.lun].name;
      }
    }
  }

  lemma TargetServesOnlyItsLun(own: Own, a: Store, b: Store, lunId: Uuid, targetId: TargetId)
    requires a.Valid() && b.Valid() && OneToOne(a) && IscsiBuilt(own, a, b, lunId, targetId)
    requires own.backend == own.target && IsCsiName(own.backend)
    ensures |b.targets[targetId].mapped| == 1 && b.targets[targetId].mapped[0].lun == lunId
  {
    if targetId in a.targets && a.targets[targetId].mapped != [] {
      var before := a.targets[targetId].mapped;
      assert MappingsExist(before, a.luns);
      var m := before[0];
      assert m in before && m.lun in a.luns && IsCsiName(a.targets[targetId].name);
      assert before == [m] && a.luns[m.lun].name == own.target;
      assert b.luns[m.lun].name == own.backend && m.lun == lunId;
      assert Maps(before, lunId);
    }
  }

  lemma NvmeBuiltKeepsOneToOne(own: Own, a: Store, b: Store, nsId: Uuid, subsystemId: Uuid)
    requires a.Valid() && OneToOne(a) && NvmeBuilt(own, a, b, nsId, subsystemId)
    ensures OneToOne(b)
  {
    forall n, k | n in b.namespaces && k in b.namespaces && IsAttachedCsi(b.namespaces[n])
        && b.namespaces[k].subsystem == b.namespaces[n].subsystem
      ensures k == n
    {
      assert n != nsId ==> b.namespaces[n] == a.namespaces[n] && a.namespaces[n].subsystem in a.subsystems;
      assert k != nsId ==>
                b.namespaces[k] == a.namespaces[k]
                    && (a.namespaces[k].subsystem == "" || a.namespaces[k].subsystem in a.subsystems);
    }
  }

  lemma BuiltKeepsOneToOne(volName: string, a: Box, b: Store, v: Volume)
    requires a.store.Valid() && b.Valid() && OneToOne(a.store) && Built(NamesFor(volName), a, b, v)
    ensures OneToOne(b)
  {
    hide OneToOne, Store.Valid;
    var own := NamesFor(volName);
    GeneratedNamesAreCsi(volName);
    match v
    case LunVolume(_, lunId, _, targetId, _) => IscsiBuiltKeepsOneToOne(own, a.store, b, lunId, targetId);
    case NamespaceVolume(_, nsId, _, subsystemId, _) => NvmeBuiltKeepsOneToOne(own, a.store, b, nsId, subsystemId);
    case ShareVolume(_, _, _, _) => SameLunsKeepOneToOne(a.store, b);
  }

  lemma SameLunsKeepOneToOne(a: Store, b: Store)
    requires OneToOne(a) && b.luns == a.luns && b.targets == a.targets && b.namespaces == a.namespaces
    ensures OneToOne(b)
  {
  }

  lemma LunRemovalKeepsOneToOne(a: Store, gone: set<Uuid>)
    requires OneToOne(a)
    ensures OneToOne(a.RemoveLuns(gone))
  {
    var b := a.RemoveLuns(gone);
    forall t, m | t in b.targets && m in b.targets[t].mapped && m.lun in b.luns
        && (IsCsiName(b.targets[t].name) || IsCsiName(b.luns[m.lun].name))
      ensures b.targets[t].mapped == [m] && b.luns[m.lun].name == b.targets[t].name
    {
      assert m in a.targets[t].mapped && a.targets[t].mapped == [m];
    }
  }

  lemma TargetRemovalKeepsOneToOne(a: Store, id: TargetId)
    requires OneToOne(a)
    ensures OneToOne(a.RemoveTarget(id))
  {
  }

  lemma NamespaceRemovalKeepsOneToOne(a: Store, gone: set<Uuid>)
    requires OneToOne(a)
    ensures OneToOne(a.RemoveNamespaces(gone))
  {
  }

  lemma SubsystemRemovalKeepsOneToOne(a: Store, uuid: Uuid)
    requires OneToOne(a)
    ensures OneToOne(a.RemoveSubsystem(uuid))
  {
  }

  lemma DeletionKeepsOneToOne(a: Store, b: Store, v: Volume)
    requires OneToOne(a) && DeletedFrom(a, b, v)
    ensures OneToOne(b)
  {
    hide OneToOne;
    match v
    case LunVolume(_, lunId, _, targetId, _) =>
      LunRemovalKeepsOneToOne(a, {lunId});
      TargetRemovalKeepsOneToOne(a.RemoveLuns({lunId}), targetId);
    case NamespaceVolume(_, nsId, _, subsystemId, _) =>
      NamespaceRemovalKeepsOneToOne(a, {nsId});
      SubsystemRemovalKeepsOneToOne(a.RemoveNamespaces({nsId}), subsystemId);
    case ShareVolume(_, name, _, _) => SameLunsKeepOneToOne(a, a.RemoveShare(name));
  }

  lemma ExpansionKeepsOneToOne(a: Store, v: Volume, newSize: nat)
    requires OneToOne(a) && HasObject(a, v)
    ensures OneToOne(ExpandedStore(a, v, newSize))
  {
    var b := ExpandedStore(a, v, newSize);
    assert TargetsOneToOne(b.targets, b.luns) by {
      assert forall u | u in b.luns :: b.luns[u].name == a.luns[u].name;
    }
  }

  lemma StepKeepsOneToOne(w: World, e: Event, w': World)
    requires WorldValid(w) && WorldValid(w') && WorldOneToOne(w) && Step(w, e, w')
    ensures WorldOneToOne(w')
  {
    hide OneToOne, Residue, Built, Store.Valid;
    forall ip | ip in w' ensures OneToOne(w'[ip].store) {
      match e
      case Created(volName, result, failed) =>
        if result.Some? && result.value.ip == ip {
          BuiltKeepsOneToOne(volName, w[ip], w'[ip].store, result.value);
        } else {
          ResidueKeepsOneToOne(NamesFor(volName), w[ip].store, w'[ip].store, FailedOn(failed, ip));
        }
      case Deleted(v) =>
        if ip == v.ip {
          DeletionKeepsOneToOne(w[ip].store, w'[ip].store, v);
        }
      case Expanded(v, newSize) =>
        if ip == v.ip {
          ExpansionKeepsOneToOne(w[ip].store, v, newSize);
        }
      case Exported(on, name, rules) =>
        if ip == on {
          SameLunsKeepOneToOne(w[ip].store, ExportedStore(w[ip].store, name, rules));
        }
      case Unchanged =>
    }
  }

  // The node code's assumption is an invariant of the controller's steps.
  lemma {:induction false} RunKeepsOneToOne(worlds: seq<World>, events: seq<Event>)
    requires Run(worlds, events) && WorldOneToOne(worlds[0])
    ensures forall i | 0 <= i < |worlds| :: WorldOneToOne(worlds[i])
  {
    hide Step, WorldValid, WorldOneToOne;
    if events != [] {
      var n := |events| - 1;
      assert Run(worlds[..n + 1], events[..n]);
      RunKeepsOneToOne(worlds[..n + 1], events[..n]);
      assert WorldOneToOne(worlds[..n + 1][n]);
      StepKeepsOneToOne(worlds[n], events[n], worlds[n + 1]);
      forall i | 0 <= i < |worlds| ensures WorldOneToOne(worlds[i]) {
        assert i <= n ==> worlds[..n + 1][i] == worlds[i];
      }
    }
  }

  // So the first mapping of any volume a lookup returns exists and is the volume's own, and no other target
  // serves it.
  lemma FirstMappingIsOwn(w: World, v: Volume)
    requires WorldValid(w) && WorldOneToOne(w) && Visible(w, v) && v.LunVolume?
    ensures |v.target.mapped| == 1 && v.target.mapped[0].lun == v.lunId
    ensures v.target.name == v.lun.name
    ensures forall u | Visible(w, u) && u.LunVolume? && u.ip == v.ip && u.lunId == v.lunId :: u == v
  {
    OwnMapping(w, v);
    forall u | Visible(w, u) && u.LunVolume? && u.ip == v.ip && u.lunId == v.lunId ensures u == v {
      OwnMapping(w, u);
      assert w[v.ip].store.Valid();
    }
  }

  lemma OwnMapping(w: World, v: Volume)
    requires WorldOneToOne(w) && Visible(w, v) && v.LunVolume?
    ensures |v.target.mapped| == 1 && v.target.mapped[0].lun == v.lunId && v.target.name == v.lun.name
  {
    assert OneToOne(w[v.ip].store);
    var m :| m in v.target.mapped && m.lun == v.lunId;
    assert v.target.mapped == [m];
  }
}
