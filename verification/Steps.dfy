/** The steps the controller's RPCs take on the world of DSMs, and what every run of them keeps. */
module Steps {
  import opened Results
  import opened Sizes
  import opened Names
  import opened Stores
  import opened Undoing
  import opened Outcomes
  import opened Volumes
  import opened Worlds
  import opened Lookups

  function NamesFor(volName: string): Own {
    Own(GenBackendName(volName), GenBackendName(volName), GenShareName(volName))
  }

  ghost predicate NameHit(volName: string, v: Volume) {
    Hit(NameShare(volName), NameVolume(volName), v)
  }

  // The same object on the same DSM, whichever target or subsystem it is seen through.
  ghost predicate SameBacking(u: Volume, v: Volume) {
    && u.ip == v.ip
    && (u.LunVolume? ==> v.LunVolume? && u.lunId == v.lunId)
    && (u.NamespaceVolume? ==> v.NamespaceVolume? && u.nsId == v.nsId)
    && (u.ShareVolume? ==> v.ShareVolume? && u.shareName == v.shareName)
  }

  // ---- steps ----

  ghost predicate SameBoxes(w: World, w': World) {
    && w'.Keys == w.Keys
    && forall ip | ip in w :: w'[ip].isUc == w[ip].isUc && w'[ip].nvmeof == w[ip].nvmeof
  }

  // The DSM on which the creation of v succeeded.
  ghost predicate Built(own: Own, a: Box, b: Store, v: Volume) {
    match v
    case LunVolume(_, lunId, lun, targetId, _) => IscsiBuilt(own, a.store, b, lunId, targetId) && lun == b.luns[lunId]
    case NamespaceVolume(_, nsId, ns, subsystemId, _) => a.nvmeof && NvmeBuilt(own, a.store, b, nsId, subsystemId)
        && ns == b.namespaces[nsId]
    case ShareVolume(_, name, share, _) => ShareBuilt(own, a.store, b) && name == own.share && share == b.shares[name]
  }

  // A creation: the DSM it succeeded on, if any, holds the volume; every other DSM holds what it held, plus
  // objects whose undo failed there.
  ghost predicate CreateStep(own: Own, w: World, w': World, result: Option<Volume>, failed: set<(string, Undo)>) {
    && SameBoxes(w, w')
    && (result.Some? ==> result.value.ip in w)
    && forall ip | ip in w ::
        if result.Some? && result.value.ip == ip then Built(own, w[ip], w'[ip].store, result.value)
        else Residue(own, w[ip].store, w'[ip].store, FailedOn(failed, ip))
  }

  ghost function FailedOn(failed: set<(string, Undo)>, ip: string): set<Undo> {
    set f | f in failed && f.0 == ip :: f.1
  }

  // The stores a deletion of v may leave: untouched, without the object, or also without what served it alone.
  ghost predicate DeletedFrom(a: Store, b: Store, v: Volume) {
    match v
    case LunVolume(_, lunId, _, targetId, target) =>
      || b == a || b == a.RemoveLuns({lunId})
      || (|target.mapped| == 1 && b == a.RemoveLuns({lunId}).RemoveTarget(targetId))
    case NamespaceVolume(_, nsId, _, subsystemId, _) =>
      || b == a || b == a.RemoveNamespaces({nsId}) || b == a.RemoveNamespaces({nsId}).RemoveSubsystem(subsystemId)
    case ShareVolume(_, name, _, _) => b == a || b == a.RemoveShare(name)
  }

  // What a deletion leaves when every call is answered.
  function Removed(a: Store, v: Volume): Store {
    match v
    case LunVolume(_, lunId, _, targetId, target) =>
      if |target.mapped| == 1 then a.RemoveLuns({lunId}).RemoveTarget(targetId) else a.RemoveLuns({lunId})
    case NamespaceVolume(_, nsId, _, subsystemId, _) => a.RemoveNamespaces({nsId}).RemoveSubsystem(subsystemId)
    case ShareVolume(_, name, _, _) => a.RemoveShare(name)
  }

  // The object itself is gone.
  ghost predicate ObjectGone(b: Store, v: Volume) {
    match v
    case LunVolume(_, lunId, _, _, _) => lunId !in b.luns
    case NamespaceVolume(_, nsId, _, _, _) => nsId !in b.namespaces
    case ShareVolume(_, name, _, _) => name !in b.shares
  }

  // A share's quota is set in whole MiB, rounded up.
  function ExpandedStore(s: Store, v: Volume, newSize: nat): Store
    requires HasObject(s, v)
  {
    match v
    case LunVolume(_, lunId, _, _, _) => s.(luns := s.luns[lunId := s.luns[lunId].(size := newSize)])
    case NamespaceVolume(_, nsId, _, _, _) =>
        s.(namespaces := s.namespaces[nsId := s.namespaces[nsId].(size := newSize)])
    case ShareVolume(_, name, _, _) =>
        s.(shares := s.shares[name := s.shares[name].(quotaMB := BytesToMBCeil(newSize))])
  }

  predicate HasObject(s: Store, v: Volume) {
    match v
    case LunVolume(_, lunId, _, _, _) => lunId in s.luns
    case NamespaceVolume(_, nsId, _, _, _) => nsId in s.namespaces
    case ShareVolume(_, name, _, _) => name in s.shares
  }

  // A share counts as NFS once it has an NFS rule.
  function ExportedStore(s: Store, name: string, rules: bool): Store
    requires name in s.shares
  {
    s.(shares := s.shares[name := s.shares[name].(exported := rules)])
  }

  ghost function WithStore(w: World, ip: string, s: Store): World
    requires ip in w
  {
    w[ip := w[ip].(store := s)]
  }

  datatype Event =
    | Created(volName: string, result: Option<Volume>, failed: set<(string, Undo)>)
    | Deleted(volume: Volume)
    | Expanded(volume: Volume, newSize: nat)
    | Exported(ip: string, share: string, rules: bool)  // a node saved NFS rules of a share, or cleared them
    | Unchanged

  ghost predicate Step(w: World, e: Event, w': World) {
    match e
    case Created(volName, result, failed) =>
      (forall v | Visible(w, v) :: !NameHit(volName, v)) && CreateStep(NamesFor(volName), w, w', result, failed)
    case Deleted(v) =>
      Visible(w, v) && v.ip in w' && DeletedFrom(w[v.ip].store, w'[v.ip].store, v)
          && w' == WithStore(w, v.ip, w'[v.ip].store)
    case Expanded(v, newSize) =>
      Visible(w, v) && v.SizeInBytes() <= newSize && w' == WithStore(w, v.ip, ExpandedStore(w[v.ip].store, v, newSize))
    case Exported(ip, name, rules) => ip in w && name in w[ip].store.shares
        && w' == WithStore(w, ip, ExportedStore(w[ip].store, name, rules))
    case Unchanged => w' == w
  }

  ghost predicate Run(worlds: seq<World>, events: seq<Event>) {
    && |worlds| == |events| + 1
    && (forall i | 0 <= i < |worlds| :: WorldValid(worlds[i]))
    && (forall i | 0 <= i < |events| :: Step(worlds[i], events[i], worlds[i + 1]))
  }

  // ---- the 1-1 mapping the node code assumes ----

  // A target that is named as a CSI target, or serves a LUN so named, serves one LUN at most, of its own name;
  // a subsystem that serves a CSI namespace serves no other.
  ghost predicate OneToOne(s: Store) {
    && (forall t, m | t in s.targets && m in s.targets[t].mapped && m.lun in s.luns
                      && (IsCsiName(s.targets[t].name) || IsCsiName(s.luns[m.lun].name)) ::
          s.targets[t].mapped == [m] && s.luns[m.lun].name == s.targets[t].name)
    && (forall n, k | n in s.namespaces && k in s.namespaces && IsAttachedCsi(s.namespaces[n])
                      && s.namespaces[k].subsystem == s.namespaces[n].subsystem :: k == n)
  }

  ghost predicate WorldOneToOne(w: World) {
    forall ip | ip in w :: OneToOne(w[ip].store)
  }

  // ---- creation over all DSMs ----

  ghost predicate SameObjects(own: Own, a: Store, b: Store) {
    && b.luns.Keys == a.luns.Keys && b.targets.Keys == a.targets.Keys
    && b.namespaces.Keys == a.namespaces.Keys && b.subsystems == a.subsystems && b.shares.Keys == a.shares.Keys
    && (forall u | u in a.luns :: LikeLun(own, a.luns[u], b.luns[u]))
    && (forall t | t in a.targets :: LikeTarget(own, a.targets[t], b.targets[t]))
    && (forall n | n in a.namespaces :: LikeNamespace(own, a.namespaces[n], b.namespaces[n]))
    && (forall n | n in a.shares :: LikeShare(own, n, a.shares[n], b.shares[n]))
  }

  // When no undo call fails, a creation leaves every DSM but the one it succeeded on with the objects it found,
  // changed at most in what adopting may change.
  lemma CreationIsAllOrNothing(own: Own, w: World, w': World, result: Option<Volume>)
    requires CreateStep(own, w, w', result, {})
    ensures forall ip | ip in w && !(result.Some? && result.value.ip == ip) ::
              SameObjects(own, w[ip].store, w'[ip].store)
  {
    hide Residue, SameObjects, Built;
    forall ip | ip in w && !(result.Some? && result.value.ip == ip)
      ensures SameObjects(own, w[ip].store, w'[ip].store)
    {
      assert FailedOn({}, ip) == {};
      CleanResidue(own, w[ip].store, w'[ip].store);
    }
  }

  lemma CleanResidue(own: Own, a: Store, b: Store)
    requires Residue(own, a, b, {})
    ensures SameObjects(own, a, b)
  {
  }

  // b holds every object of a, under its id and name, serving what it served.
  ghost predicate HoldsAll(a: Store, b: Store) {
    && (forall u | u in a.luns :: u in b.luns && b.luns[u].name == a.luns[u].name && b.luns[u].size >= a.luns[u].size)
    && (forall t | t in a.targets ::
        t in b.targets && b.targets[t].name == a.targets[t].name && a.targets[t].mapped <= b.targets[t].mapped)
    && (forall n | n in a.namespaces ::
        n in b.namespaces && b.namespaces[n].name == a.namespaces[n].name
            && b.namespaces[n].size >= a.namespaces[n].size)
    && (forall u | u in a.subsystems :: u in b.subsystems && b.subsystems[u] == a.subsystems[u])
    && (forall n | n in a.shares ::
        n in b.shares && b.shares[n].uuid == a.shares[n].uuid && b.shares[n].exported == a.shares[n].exported)
  }

  // Whatever calls failed, undo calls included, a creation deletes nothing that was there before it.
  lemma CreationDeletesNothing(own: Own, w: World, w': World, result: Option<Volume>, failed: set<(string, Undo)>)
    requires CreateStep(own, w, w', result, failed)
    ensures forall ip | ip in w :: HoldsAll(w[ip].store, w'[ip].store)
  {
    forall ip | ip in w ensures HoldsAll(w[ip].store, w'[ip].store) {
      if result.Some? && result.value.ip == ip {
        BuiltHoldsAll(own, w[ip], w'[ip].store, result.value);
      } else {
        ResidueHoldsAll(own, w[ip].store, w'[ip].store, FailedOn(failed, ip));
      }
    }
  }

  lemma BuiltHoldsAll(own: Own, a: Box, b: Store, v: Volume)
    requires Built(own, a, b, v)
    ensures HoldsAll(a.store, b)
  {
    if v.NamespaceVolume? {
      forall u | u in a.store.subsystems ensures u in b.subsystems && b.subsystems[u] == a.store.subsystems[u] {
        assert u in b.subsystems - {v.subsystemId};
      }
    }
  }

  lemma ResidueHoldsAll(own: Own, a: Store, b: Store, failed: set<Undo>)
    requires Residue(own, a, b, failed)
    ensures HoldsAll(a, b)
  {
    assert forall u | u in a.luns :: LikeLun(own, a.luns[u], b.luns[u]);
  }
}
