/** A deletion takes back exactly what a creation from nothing added. */
module Inverses {
  import opened Stores
  import opened Outcomes
  import opened Volumes
  import opened Worlds
  import opened Steps

  // The created volume as it is looked up again.
  function Shown(b: Store, v: Volume): Volume {
    match v
    case LunVolume(_, lunId, _, targetId, _) => if targetId in b.targets then v.(target := b.targets[targetId]) else v
    case NamespaceVolume(_, _, _, _, _) => v
    case ShareVolume(_, _, _, _) => v
  }

  // The volume's object did not exist before. A target of its name did not either, or served other LUNs already and
  // kept its session limit.
  ghost predicate LeavesNoTrace(a: Store, b: Store, v: Volume) {
    match v
    case LunVolume(_, lunId, _, targetId, _) =>
      && lunId !in a.luns
      && (targetId in a.targets ==>
            && a.targets[targetId].mapped != [] && targetId in b.targets
            && b.targets[targetId].maxSessions == a.targets[targetId].maxSessions)
    case NamespaceVolume(_, nsId, _, _, _) => nsId !in a.namespaces
    case ShareVolume(_, name, _, _) => name !in a.shares
  }

  // Deleting what was just created restores the DSM exactly when the creation left no trace on what it found.
  lemma DeletionInvertsCreation(volName: string, a: Box, b: Store, v: Volume)
    requires a.store.Valid() && b.Valid() && Built(NamesFor(volName), a, b, v)
    ensures Removed(b, Shown(b, v)) == a.store <==> LeavesNoTrace(a.store, b, v)
  {
    hide Store.Valid;
    var own := NamesFor(volName);
    match v
    case LunVolume(_, _, _, _, _) => LunRemovalInverts(own, a.store, b, v);
    case NamespaceVolume(_, _, _, _, _) => NamespaceRemovalInverts(own, a.store, b, v);
    case ShareVolume(_, name, _, _) =>
      assert name !in b.RemoveShare(name).shares;
      if name !in a.store.shares {
        assert b.RemoveShare(name).shares == a.store.shares;
      }
  }

  lemma LunRemovalInverts(own: Own, a: Store, b: Store, v: Volume)
    requires a.Valid() && b.Valid() && v.LunVolume? && IscsiBuilt(own, a, b, v.lunId, v.targetId)
    ensures Removed(b, Shown(b, v)) == a <==> LeavesNoTrace(a, b, v)
  {
    hide Store.Valid;
    RemovedLun(b, Shown(b, v));
    if v.lunId !in a.luns {
      if v.targetId in a.targets {
        AdoptedTargetAfter(own, a, b, v);
      } else {
        assert b.targets[v.targetId].mapped[..0] == [] && |b.targets[v.targetId].mapped| == 1;
        OtherTargetsKept(a, b, v.lunId, v.targetId);
        assert b.luns - {v.lunId} == a.luns;
      }
    }
  }

  lemma RemovedLun(b: Store, v: Volume)
    requires v.LunVolume?
    ensures Removed(b, v).luns == b.luns - {v.lunId}
    ensures |v.target.mapped| == 1 ==>
              v.targetId !in Removed(b, v).targets && Removed(b, v) == b.RemoveLuns({v.lunId}).RemoveTarget(v.targetId)
  {
  }

  // A new LUN on a target that was there: the target goes with it if it served nothing, and is as before otherwise, but
  // for its session limit.
  lemma AdoptedTargetAfter(own: Own, a: Store, b: Store, v: Volume)
    requires a.Valid() && b.Valid() && v.LunVolume? && IscsiBuilt(own, a, b, v.lunId, v.targetId)
    requires v.lunId !in a.luns && v.targetId in a.targets
    ensures Removed(b, Shown(b, v)) == a <==>
            a.targets[v.targetId].mapped != [] && b.targets[v.targetId].maxSessions == a.targets[v.targetId].maxSessions
  {
    hide Store.Valid, Removed;
    var before, after := a.targets[v.targetId], b.targets[v.targetId];
    NotMappedBefore(a, v.targetId, v.lunId);
    assert after.mapped == before.mapped + [after.mapped[|before.mapped|]];
    RemovedLun(b, Shown(b, v));
    if before.mapped != [] {
      WithoutNew(before.mapped, after.mapped[|before.mapped|], v.lunId);
      SharedTargetAfter(own, a, b, v);
    }
  }

  lemma SharedTargetAfter(own: Own, a: Store, b: Store, v: Volume)
    requires a.Valid() && v.LunVolume? && IscsiBuilt(own, a, b, v.lunId, v.targetId)
    requires v.lunId !in a.luns && v.targetId in a.targets && |b.targets[v.targetId].mapped| > 1
    requires Without(b.targets[v.targetId].mapped, {v.lunId}) == a.targets[v.targetId].mapped
    ensures Removed(b, Shown(b, v)) == a <==> b.targets[v.targetId].maxSessions == a.targets[v.targetId].maxSessions
  {
    hide Store.Valid, Removed;
    var before, maxSessions := a.targets[v.targetId], b.targets[v.targetId].maxSessions;
    var targets := a.targets[v.targetId := before.(maxSessions := maxSessions)];
    StrippedStore(own, a, b, v.lunId, v.targetId);
    RemovedShared(b, Shown(b, v));
    assert Removed(b, Shown(b, v)) == a.(targets := targets);
    assert targets[v.targetId] == before.(maxSessions := maxSessions);
    if maxSessions == before.maxSessions {
      SameTargets(targets, a.targets);
    }
  }

  lemma RemovedShared(b: Store, v: Volume)
    requires v.LunVolume? && |v.target.mapped| > 1
    ensures Removed(b, v) == b.RemoveLuns({v.lunId})
  {
  }

  lemma StrippedStore(own: Own, a: Store, b: Store, lunId: Uuid, targetId: TargetId)
    requires a.Valid() && IscsiBuilt(own, a, b, lunId, targetId) && lunId !in a.luns && targetId in a.targets
    requires Without(b.targets[targetId].mapped, {lunId}) == a.targets[targetId].mapped
    ensures var target := a.targets[targetId].(maxSessions := b.targets[targetId].maxSessions);
            b.RemoveLuns({lunId}) == a.(targets := a.targets[targetId := target])
  {
    hide Store.Valid;
    var c, target := b.RemoveLuns({lunId}), a.targets[targetId].(maxSessions := b.targets[targetId].maxSessions);
    var targets := a.targets[targetId := target];
    assert c.luns == a.luns;
    forall t | t in c.targets ensures t in targets && c.targets[t] == targets[t] {
      if t != targetId {
        NotMappedBefore(a, t, lunId);
      }
    }
    SameTargets(c.targets, targets);
  }

  lemma SameTargets(a: map<TargetId, Target>, b: map<TargetId, Target>)
    requires a.Keys == b.Keys && forall t | t in a :: a[t] == b[t]
    ensures a == b
  {
  }

  lemma NotMappedBefore(a: Store, targetId: TargetId, lunId: Uuid)
    requires a.Valid() && targetId in a.targets && lunId !in a.luns
    ensures forall m | m in a.targets[targetId].mapped :: m.lun != lunId
    ensures Without(a.targets[targetId].mapped, {lunId}) == a.targets[targetId].mapped
  {
    assert MappingsExist(a.targets[targetId].mapped, a.luns);
  }

  lemma {:induction false} WithoutNew(before: seq<Mapping>, m: Mapping, lunId: Uuid)
    requires m.lun == lunId && forall k | k in before :: k.lun != lunId
    ensures Without(before + [m], {lunId}) == before
  {
    var s := before + [m];
    if before == [] {
      assert s == [m] && s[1..] == [];
    } else {
      assert s[0] == before[0] && s[1..] == before[1..] + [m];
      WithoutNew(before[1..], m, lunId);
      assert before == [before[0]] + before[1..];
    }
  }

  lemma OtherTargetsKept(a: Store, b: Store, lunId: Uuid, targetId: TargetId)
    requires a.Valid() && lunId !in a.luns && targetId !in a.targets && targetId in b.targets
    requires b.targets.Keys == a.targets.Keys + {targetId} && forall t | t in a.targets :: b.targets[t] == a.targets[t]
    ensures b.RemoveLuns({lunId}).RemoveTarget(targetId).targets == a.targets
  {
    forall t | t in a.targets ensures Without(b.targets[t].mapped, {lunId}) == a.targets[t].mapped {
      assert MappingsExist(a.targets[t].mapped, a.luns);
    }
  }

  lemma NamespaceRemovalInverts(own: Own, a: Store, b: Store, v: Volume)
    requires a.Valid() && v.NamespaceVolume? && NvmeBuilt(own, a, b, v.nsId, v.subsystemId)
    ensures Removed(b, v) == a <==> v.nsId !in a.namespaces
  {
    var c := b.RemoveNamespaces({v.nsId}).RemoveSubsystem(v.subsystemId);
    assert v.nsId !in c.namespaces;
    assert c.subsystems == a.subsystems;
    if v.nsId !in a.namespaces {
      assert c.namespaces == a.namespaces;
    }
  }
}
