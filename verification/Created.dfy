/** What a creation shows: the volume it built, under its names, and at most shares it failed to undo. */
module Created {
  import opened Results
  import opened Names
  import opened Stores
  import opened Undoing
  import opened Outcomes
  import opened Volumes
  import opened Worlds
  import opened Steps

  // ---- the created volume ----

  // A created volume can be looked up, unless it is a share on a UC DSM.
  ghost predicate Findable(w: World, v: Volume)
    requires v.ip in w
  {
    !(v.ShareVolume? && w[v.ip].isUc)
  }

  lemma CreatedIsVisible(volName: string, w: World, w': World, v: Volume, failed: set<(string, Undo)>)
    returns (u: Volume)
    requires WorldValid(w) && Step(w, Created(volName, Some(v), failed), w') && v.ip in w && Findable(w, v)
    ensures Visible(w', u) && SameBacking(u, v) && NameHit(volName, u)
    ensures u.VolumeId() == v.VolumeId() && u.SizeInBytes() == v.SizeInBytes()
  {
    hide IscsiBuilt, NvmeBuilt, ShareBuilt, Store.Valid, VisibleInBox, NameHit, SameBacking;
    GeneratedNamesAreCsi(volName);
    var own, a, b := NamesFor(volName), w[v.ip], w'[v.ip];
    assert a.store.Valid() && Built(own, a, b.store, v);
    match v
    case LunVolume(_, _, _, _, _) => u := BuiltLunIsVisible(volName, a, b, v);
    case NamespaceVolume(_, _, _, _, _) => u := BuiltNamespaceIsVisible(volName, a, b, v);
    case ShareVolume(_, _, _, _) => u := BuiltShareIsVisible(volName, a, b, v);
  }

  lemma BuiltLunIsVisible(volName: string, a: Box, b: Box, v: Volume) returns (u: Volume)
    requires v.LunVolume? && Built(NamesFor(volName), a, b.store, v) && IsCsiName(GenBackendName(volName))
    ensures u.ip == v.ip && VisibleInBox(b, u) && SameBacking(u, v) && NameHit(volName, u)
    ensures u.VolumeId() == v.VolumeId() && u.SizeInBytes() == v.SizeInBytes()
  {
    u := LunVolume(v.ip, v.lunId, v.lun, v.targetId, b.store.targets[v.targetId]);
    var before := if v.targetId in a.store.targets then a.store.targets[v.targetId].mapped else [];
    MappedOnceMaps(before, u.target.mapped, v.lunId);
    assert LunVisible(b, u);
  }

  lemma BuiltNamespaceIsVisible(volName: string, a: Box, b: Box, v: Volume) returns (u: Volume)
    requires v.NamespaceVolume? && Built(NamesFor(volName), a, b.store, v) && IsCsiName(GenBackendName(volName))
    requires a.store.Valid() && b.nvmeof == a.nvmeof
    ensures u.ip == v.ip && VisibleInBox(b, u) && SameBacking(u, v) && NameHit(volName, u)
    ensures u.VolumeId() == v.VolumeId() && u.SizeInBytes() == v.SizeInBytes()
  {
    u := NamespaceVolume(v.ip, v.nsId, v.ns, v.subsystemId, b.store.subsystems[v.subsystemId]);
    assert NamespaceVisible(b, u);
  }

  lemma BuiltShareIsVisible(volName: string, a: Box, b: Box, v: Volume) returns (u: Volume)
    requires v.ShareVolume? && Built(NamesFor(volName), a, b.store, v) && IsCsiName(GenShareName(volName)) && !b.isUc
    ensures u.ip == v.ip && VisibleInBox(b, u) && SameBacking(u, v) && NameHit(volName, u)
    ensures u.VolumeId() == v.VolumeId() && u.SizeInBytes() == v.SizeInBytes()
  {
    u := ShareVolume(v.ip, v.shareName, v.share, ShareProtocol(v.share));
    assert ShareVisible(b, u);
  }

  lemma MappedOnceMaps(before: seq<Mapping>, after: seq<Mapping>, lunId: Uuid)
    requires MappedOnce(before, after, lunId)
    ensures Maps(after, lunId)
  {
    if !Maps(before, lunId) {
      assert after[|before|] in after;
    }
  }

  // ---- everything else that shows ----

  // Visible before, up to what adopting may change: same object, same name.
  ghost predicate VisibleBefore(w: World, u: Volume) {
    exists u0: Volume :: Visible(w, u0) && SameBacking(u, u0) && u0.Name() == u.Name()
  }

  ghost predicate ShownBefore(a: Box, u: Volume) {
    exists u0: Volume :: VisibleInBox(a, u0) && SameBacking(u, u0) && u0.Name() == u.Name()
  }

  lemma ResidueShowsOnlyShares(own: Own, a: Box, b: Box, failed: set<Undo>, u: Volume)
    requires a.store.Valid() && b.isUc == a.isUc && b.nvmeof == a.nvmeof
    requires Residue(own, a.store, b.store, failed) && VisibleInBox(b, u)
    ensures ShownBefore(a, u) || (u.ShareVolume? && u.shareName == own.share && UndoShare(own.share) in failed)
  {
    match u
    case LunVolume(ip, lunId, lun, targetId, target) =>
      assert targetId in a.store.targets && LikeTarget(own, a.store.targets[targetId], target);
      forall x | x in a.store.luns ensures x in b.store.luns && b.store.luns[x].name == a.store.luns[x].name {
        assert LikeLun(own, a.store.luns[x], b.store.luns[x]);
      }
      OldMappingShows(a, b, u);
    case NamespaceVolume(ip, nsId, ns, subsystemId, subsystem) =>
      assert nsId in a.store.namespaces && LikeNamespace(own, a.store.namespaces[nsId], ns);
      var u0 := NamespaceVolume(ip, nsId, a.store.namespaces[nsId], subsystemId, a.store.subsystems[subsystemId]);
      assert NamespaceVisible(a, u0) && SameBacking(u, u0);
    case ShareVolume(ip, name, share, _) =>
      if name in a.store.shares {
        var s := a.store.shares[name];
        var u0 := ShareVolume(ip, name, s, ShareProtocol(s));
        assert ShareVisible(a, u0) && SameBacking(u, u0);
      }
  }

  lemma BuiltShowsOnlyItsOwn(own: Own, a: Box, b: Box, v: Volume, u: Volume)
    requires a.store.Valid() && b.store.Valid() && b.isUc == a.isUc && b.nvmeof == a.nvmeof
    requires Built(own, a, b.store, v) && u.ip == v.ip
    requires VisibleInBox(b, u)
    ensures SameBacking(u, v) || ShownBefore(a, u)
  {
    if !SameBacking(u, v) {
      match u
      case LunVolume(ip, lunId, lun, targetId, target) => BuiltShowsOldLun(own, a, b, v, u);
      case NamespaceVolume(ip, nsId, ns, subsystemId, subsystem) =>
        assert nsId in a.store.namespaces && a.store.namespaces[nsId] == ns;
        var u0 := NamespaceVolume(ip, nsId, ns, subsystemId, a.store.subsystems[subsystemId]);
        assert NamespaceVisible(a, u0) && SameBacking(u, u0);
      case ShareVolume(ip, name, share, _) =>
        assert name in a.store.shares;
        var s := a.store.shares[name];
        var u0 := ShareVolume(ip, name, s, ShareProtocol(s));
        assert ShareVisible(a, u0) && SameBacking(u, u0);
    }
  }

  lemma BuiltShowsOldLun(own: Own, a: Box, b: Box, v: Volume, u: Volume)
    requires a.store.Valid() && b.isUc == a.isUc && b.nvmeof == a.nvmeof
    requires Built(own, a, b.store, v) && u.ip == v.ip && u.LunVolume? && LunVisible(b, u) && !SameBacking(u, v)
    ensures ShownBefore(a, u)
  {
    hide Store.Valid;
    BuiltKeepsLunNames(own, a, b.store, v);
    if v.LunVolume? && u.targetId == v.targetId {
      var before := if v.targetId in a.store.targets then a.store.targets[v.targetId].mapped else [];
      OldMapping(before, u.target.mapped, v.lunId, u.lunId);
      OldMappingShows(a, b, u);
    } else {
      assert u.targetId in a.store.targets && a.store.targets[u.targetId] == u.target;
      OldMappingShows(a, b, u);
    }
  }

  lemma BuiltKeepsLunNames(own: Own, a: Box, b: Store, v: Volume)
    requires Built(own, a, b, v)
    ensures forall x | x in a.store.luns :: x in b.luns && b.luns[x].name == a.store.luns[x].name
  {
  }

  lemma OldMapping(before: seq<Mapping>, after: seq<Mapping>, newLun: Uuid, lunId: Uuid)
    requires MappedOnce(before, after, newLun) && Maps(after, lunId) && lunId != newLun
    ensures Maps(before, lunId)
  {
    var m :| m in after && m.lun == lunId;
    if !Maps(before, newLun) {
      assert after == before + [after[|before|]];
    }
  }

  lemma OldMappingShows(a: Box, b: Box, u: Volume)
    requires a.store.Valid() && u.LunVolume? && LunVisible(b, u)
    requires u.targetId in a.store.targets && Maps(a.store.targets[u.targetId].mapped, u.lunId)
    requires forall x | x in a.store.luns :: x in b.store.luns && b.store.luns[x].name == a.store.luns[x].name
    ensures ShownBefore(a, u)
  {
    assert MappingsExist(a.store.targets[u.targetId].mapped, a.store.luns);
    var u0 := LunVolume(u.ip, u.lunId, a.store.luns[u.lunId], u.targetId, a.store.targets[u.targetId]);
    assert VisibleInBox(a, u0) && SameBacking(u, u0);
  }

  // What is visible after a creation was visible before it, is the created volume, or is a share of the creation's
  // name on another DSM, where its undo failed.
  lemma CreationShows(own: Own, w: World, w': World, result: Option<Volume>, failed: set<(string, Undo)>, u: Volume)
    requires WorldValid(w) && WorldValid(w') && CreateStep(own, w, w', result, failed)
    requires Visible(w', u)
    ensures || (result.Some? && SameBacking(u, result.value))
            || VisibleBefore(w, u)
            || (u.ShareVolume? && u.shareName == own.share && (u.ip, UndoShare(own.share)) in failed)
  {
    hide Residue, Built, Store.Valid, VisibleInBox;
    var a, b := w[u.ip], w'[u.ip];
    if result.Some? && result.value.ip == u.ip {
      BuiltShowsOnlyItsOwn(own, a, b, result.value, u);
    } else {
      ResidueShowsOnlyShares(own, a, b, FailedOn(failed, u.ip), u);
    }
    if ShownBefore(a, u) {
      var u0: Volume :| VisibleInBox(a, u0) && SameBacking(u, u0) && u0.Name() == u.Name();
      assert Visible(w, u0);
    }
  }

  // ---- names ----

  lemma HitsAgree(n: string, u: Volume, v: Volume)
    requires SameBacking(u, v) && u.Name() == v.Name()
    ensures NameHit(n, u) <==> NameHit(n, v)
  {
  }

  lemma HitIsNameMatch(n: string, u: Volume)
    requires NameHit(n, u)
    ensures NameMatches(n, u.Name())
  {
  }

  lemma BuiltHasTheName(volName: string, a: Box, b: Store, v: Volume)
    requires Built(NamesFor(volName), a, b, v)
    ensures v.LunVolume? || v.NamespaceVolume? ==> v.Name() == GenBackendName(volName)
    ensures v.ShareVolume? ==> v.Name() == GenShareName(volName)
    ensures NameHit(volName, v)
  {
  }

  lemma SameBackingSameName(w: World, own: Own, a: Box, v: Volume, u: Volume)
    requires Visible(w, u) && v.ip in w && Built(own, a, w[v.ip].store, v) && SameBacking(u, v)
    ensures u.Name() == v.Name() && u.VolumeId() == v.VolumeId() && u.SizeInBytes() == v.SizeInBytes()
  {
  }

  lemma SameBackingIsTransitive(u: Volume, v: Volume, x: Volume)
    requires SameBacking(u, v)
    ensures SameBacking(v, u) && (SameBacking(v, x) ==> SameBacking(u, x))
  {
  }

  lemma VisibleIsFindable(w: World, u: Volume, v: Volume)
    requires Visible(w, u) && SameBacking(u, v)
    ensures v.ip in w && Findable(w, v)
  {
  }

  // A share with the name of the request is listed on the DSM.
  ghost predicate HoldsShare(w: World, ip: string, volName: string) {
    ip in w && !w[ip].isUc && GenShareName(volName) in w[ip].store.shares
  }

  lemma HeldShareIsHit(w: World, ip: string, volName: string) returns (u: Volume)
    requires HoldsShare(w, ip, volName)
    ensures Visible(w, u) && NameHit(volName, u) && u.ShareVolume? && u.ip == ip && u.shareName == GenShareName(volName)
  {
    GeneratedNamesAreCsi(volName);
    var share := w[ip].store.shares[GenShareName(volName)];
    u := ShareVolume(ip, GenShareName(volName), share, ShareProtocol(share));
  }

  // After a creation, a hit for its name is the created volume or a share left over elsewhere; a hit for a name with
  // another head was there before.
  lemma HitComesFrom(w: World, w': World, volName: string, result: Option<Volume>, failed: set<(string, Undo)>,
                     n: string, u: Volume)
    requires WorldValid(w) && WorldValid(w') && Step(w, Created(volName, result, failed), w')
    requires Visible(w', u) && NameHit(n, u)
    ensures n == volName ==>
              || (result.Some? && SameBacking(u, result.value))
              || (u.ShareVolume? && u.shareName == GenShareName(n) && HoldsShare(w', u.ip, n)
                  && (u.ip, UndoShare(u.shareName)) in failed)
    ensures Head24(n) != Head24(volName) ==> exists u0: Volume :: Visible(w, u0) && SameBacking(u, u0) && NameHit(n, u0)
  {
    hide Visible, NameHit, Store.Valid, Built, Residue, SameBacking;
    var own := NamesFor(volName);
    CreationShows(own, w, w', result, failed, u);
    if VisibleBefore(w, u) {
      var u0: Volume :| Visible(w, u0) && SameBacking(u, u0) && u0.Name() == u.Name();
      HitsAgree(n, u, u0);
    } else if result.Some? && SameBacking(u, result.value) {
      var v := result.value;
      SameBackingSameIp(u, v);
      BuiltHasTheName(volName, w[v.ip], w'[v.ip].store, v);
      SameBackingSameName(w', own, w[v.ip], v, u);
      OnlyItsOwnHit(volName, n, u);
    } else {
      ShareIsHeld(w', u);
      OnlyItsOwnHit(volName, n, u);
    }
  }

  // A backing name of one request is no hit for a request with another head.
  lemma OnlyItsOwnHit(volName: string, n: string, u: Volume)
    requires NameHit(n, u) && NameMatches(volName, u.Name())
    ensures Head24(n) == Head24(volName)
  {
    HitIsNameMatch(n, u);
    NamesApart(n, volName);
  }

  lemma ShareIsHeld(w: World, u: Volume)
    requires Visible(w, u) && u.ShareVolume?
    ensures u.ip in w && !w[u.ip].isUc && u.shareName in w[u.ip].store.shares
  {
  }

  lemma SameBackingSameIp(u: Volume, v: Volume)
    requires SameBacking(u, v)
    ensures u.ip == v.ip
  {
  }
}
