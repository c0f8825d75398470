/** What a deletion removes, and what it leaves alone. */
module Deletions {
  import opened Stores
  import opened Volumes
  import opened Worlds
  import opened Steps
  import opened OneToOneRuns

  ghost predicate UniqueIds(w: World) {
    forall u, v | Visible(w, u) && Visible(w, v) && u.VolumeId() == v.VolumeId() :: SameBacking(u, v)
  }

  // Once the object is gone no visible volume has its id.
  lemma DeletedIsGone(w: World, w': World, v: Volume)
    requires UniqueIds(w) && Step(w, Deleted(v), w') && ObjectGone(w'[v.ip].store, v)
    ensures forall u | Visible(w', u) :: u.VolumeId() != v.VolumeId()
  {
    forall u | Visible(w', u) ensures u.VolumeId() != v.VolumeId() {
      DeletedIdGone(w, w', v, u);
    }
  }

  lemma DeletedIdGone(w: World, w': World, v: Volume, u: Volume)
    requires UniqueIds(w) && Step(w, Deleted(v), w') && ObjectGone(w'[v.ip].store, v) && Visible(w', u)
    ensures u.VolumeId() != v.VolumeId()
  {
    hide Visible, DeletedFrom;
    var u0 := AsBefore(w, w', v, u);
    GoneIsInvisible(w', v, u);
  }

  lemma GoneIsInvisible(w: World, v: Volume, u: Volume)
    requires v.ip in w && ObjectGone(w[v.ip].store, v) && Visible(w, u)
    ensures !SameBacking(u, v)
  {
  }

  // The volume as it was before the deletion.
  lemma AsBefore(w: World, w': World, v: Volume, u: Volume) returns (u0: Volume)
    requires Step(w, Deleted(v), w') && Visible(w', u)
    ensures Visible(w, u0) && SameBacking(u, u0) && u0.VolumeId() == u.VolumeId()
  {
    u0 := if u.LunVolume? then LunAsBefore(w, u) else u;
    match u
    case LunVolume(_, _, _, _, _) => LunShownBefore(w[u.ip], w'[u.ip], v, u);
    case NamespaceVolume(_, _, _, _, _) =>
    case ShareVolume(_, _, _, _) =>
  }

  function LunAsBefore(w: World, u: Volume): Volume
    requires u.LunVolume? && u.ip in w && u.targetId in w[u.ip].store.targets
  {
    LunVolume(u.ip, u.lunId, u.lun, u.targetId, w[u.ip].store.targets[u.targetId])
  }

  lemma LunShownBefore(a: Box, b: Box, v: Volume, u: Volume)
    requires DeletedFrom(a.store, b.store, v) || a.store == b.store
    requires u.LunVolume? && LunVisible(b, u)
    ensures u.targetId in a.store.targets
    ensures LunVisible(a, LunVolume(u.ip, u.lunId, u.lun, u.targetId, a.store.targets[u.targetId]))
  {
    var m :| m in u.target.mapped && m.lun == u.lunId;
    assert m in a.store.targets[u.targetId].mapped;
  }

  // A target is removed only if it served the deleted LUN and nothing else.
  lemma SharedTargetsStay(w: World, w': World, v: Volume)
    requires Step(w, Deleted(v), w')
    ensures forall ip, t | ip in w && t in w[ip].store.targets && t !in w'[ip].store.targets ::
              ip == v.ip && v.LunVolume? && |w[ip].store.targets[t].mapped| == 1
                  && w[ip].store.targets[t].mapped[0].lun == v.lunId
  {
    if v.LunVolume? {
      var m :| m in v.target.mapped && m.lun == v.lunId;
    }
  }

  // What becomes of another volume: a target it shares with the deleted LUN serves it alone from then on.
  function Left(u: Volume, v: Volume): Volume {
    if u.LunVolume? && v.LunVolume? && u.ip == v.ip
    then u.(target := u.target.(mapped := Without(u.target.mapped, {v.lunId})))
    else u
  }

  // The subsystem that serves a namespace goes with another namespace of it.
  ghost predicate LosesSubsystem(w': World, u: Volume, v: Volume) {
    && u.NamespaceVolume? && v.NamespaceVolume? && u.ip == v.ip && u.subsystemId == v.subsystemId
    && u.ip in w' && u.subsystemId !in w'[u.ip].store.subsystems
  }

  // A deletion leaves the object of every other visible volume as it was. The volume stays visible, less the mapping
  // of the deleted LUN, exactly unless the deletion took a subsystem the two shared.
  lemma DeletionSparesOthers(w: World, w': World, v: Volume, u: Volume)
    requires WorldValid(w) && Step(w, Deleted(v), w') && Visible(w, u) && !SameBacking(u, v)
    ensures SameObject(w, w', u)
    ensures Visible(w', Left(u, v)) || Visible(w', u) <==> !LosesSubsystem(w', u, v)
  {
    hide WorldValid, Store.Valid;
    if u.ip == v.ip {
      match u
      case LunVolume(_, _, _, _, _) =>
        if v.LunVolume? {
          LunSpared(w, w', v, u);
        }
      case NamespaceVolume(_, _, _, _, _) =>
        if v.NamespaceVolume? {
          NamespaceSpared(w, w', v, u);
        }
      case ShareVolume(_, _, _, _) =>
    }
  }

  // The LUN, namespace or share of u is there and unchanged; a namespace may have been detached.
  ghost predicate SameObject(w: World, w': World, u: Volume) {
    && u.ip in w && u.ip in w'
    && var a, b := w[u.ip].store, w'[u.ip].store;
      match u
      case LunVolume(_, lunId, lun, _, _) => lunId in b.luns && b.luns[lunId] == lun
      case NamespaceVolume(_, nsId, ns, _, _) =>
        nsId in b.namespaces && b.namespaces[nsId].(subsystem := ns.subsystem) == ns
      case ShareVolume(_, name, share, _) => name in b.shares && b.shares[name] == share
  }

  lemma LunSpared(w: World, w': World, v: Volume, u: Volume)
    requires WorldValid(w) && Step(w, Deleted(v), w') && Visible(w, u)
    requires u.LunVolume? && v.LunVolume? && u.ip == v.ip && u.lunId != v.lunId
    ensures SameObject(w, w', u) && (Visible(w', Left(u, v)) || Visible(w', u))
  {
    hide WorldValid, Store.Valid;
    var a, b := w[u.ip].store, w'[u.ip].store;
    if b == a {
      assert Visible(w', u);
    } else {
      StillMapped(u, v);
      SharedTargetKept(a, b, u, v);
    }
  }

  lemma StillMapped(u: Volume, v: Volume)
    requires u.LunVolume? && v.LunVolume? && u.ip == v.ip && u.lunId != v.lunId && Maps(u.target.mapped, u.lunId)
    ensures Maps(Left(u, v).target.mapped, u.lunId)
  {
    var m :| m in u.target.mapped && m.lun == u.lunId;
    assert m in Without(u.target.mapped, {v.lunId});
  }

  lemma SharedTargetKept(a: Store, b: Store, u: Volume, v: Volume)
    requires u.LunVolume? && v.LunVolume? && u.ip == v.ip && u.lunId != v.lunId && DeletedFrom(a, b, v) && b != a
    requires u.targetId in a.targets && u.target == a.targets[u.targetId] && Maps(u.target.mapped, u.lunId)
    requires v.targetId in a.targets && v.target == a.targets[v.targetId] && Maps(v.target.mapped, v.lunId)
    ensures u.targetId in b.targets && b.targets[u.targetId] == Left(u, v).target
  {
    if u.targetId == v.targetId {
      var m :| m in u.target.mapped && m.lun == u.lunId;
      var k :| k in v.target.mapped && k.lun == v.lunId;
      TwoAreMore(v.target.mapped, m, k);
    }
    assert a.RemoveLuns({v.lunId}).targets[u.targetId] == Left(u, v).target;
  }

  lemma TwoAreMore(mapped: seq<Mapping>, m: Mapping, k: Mapping)
    requires m in mapped && k in mapped && m != k
    ensures |mapped| > 1
  {
  }

  lemma NamespaceSpared(w: World, w': World, v: Volume, u: Volume)
    requires Step(w, Deleted(v), w') && Visible(w, u)
    requires u.NamespaceVolume? && v.NamespaceVolume? && u.ip == v.ip && u.nsId != v.nsId
    ensures SameObject(w, w', u) && (Visible(w', u) <==> !LosesSubsystem(w', u, v))
  {
  }

  // From a one to one world every other visible volume stays visible exactly as it was.
  lemma OneToOneSparesOthers(w: World, w': World, v: Volume, u: Volume)
    requires WorldValid(w) && WorldOneToOne(w) && Step(w, Deleted(v), w') && Visible(w, u) && !SameBacking(u, v)
    ensures Visible(w', u)
  {
    hide WorldValid, WorldOneToOne, Store.Valid, SameObject;
    DeletionSparesOthers(w, w', v, u);
    if u.LunVolume? && v.LunVolume? && u.ip == v.ip {
      OwnMapping(w, u);
      assert forall m | m in u.target.mapped :: m == u.target.mapped[0];
      assert Left(u, v) == u;
    }
    if u.NamespaceVolume? && v.NamespaceVolume? && u.ip == v.ip {
      SubsystemsApart(w, u, v);
    }
  }

  lemma SubsystemsApart(w: World, u: Volume, v: Volume)
    requires WorldOneToOne(w) && Visible(w, u) && Visible(w, v) && u.ip == v.ip
    requires u.NamespaceVolume? && v.NamespaceVolume? && u.nsId != v.nsId
    ensures u.subsystemId != v.subsystemId
  {
    assert OneToOne(w[v.ip].store) && IsAttachedCsi(u.ns);
  }
}
