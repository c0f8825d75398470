/** What one DSM holds, and the effect of each call that changes it. */
module Stores {

  type Uuid = string
  type TargetId = nat

  datatype Lun = Lun(name: string, size: nat, location: string)
  datatype Mapping = Mapping(lun: Uuid, index: nat)
  datatype Target = Target(name: string, maxSessions: nat, mapped: seq<Mapping>)
  datatype Namespace = Namespace(name: string, size: nat, location: string, subsystem: Uuid)  // "" when detached
  datatype Subsystem = Subsystem(name: string)
  // A share is exported once it has an NFS rule; quotaMB is 0 when no quota is set.
  datatype Share = Share(uuid: Uuid, volPath: string, quotaMB: int, exported: bool)

  datatype Store = Store(
    luns: map<Uuid, Lun>,
    targets: map<TargetId, Target>,
    namespaces: map<Uuid, Namespace>,
    subsystems: map<Uuid, Subsystem>,
    shares: map<string, Share>)
  {
    // What every DSM guarantees: names are unique within their kind, mappings point at LUNs,
    // attached namespaces at subsystems, and no object has the empty uuid.
    ghost predicate Valid() {
      && UniqueNames()
      && (forall t | t in targets :: MappingsExist(targets[t].mapped, luns))
      && (forall n | n in namespaces :: namespaces[n].subsystem == "" || namespaces[n].subsystem in subsystems)
      && "" !in luns && "" !in namespaces && "" !in subsystems
    }

    ghost predicate UniqueNames() {
      && (forall u, v | u in luns && v in luns && luns[u].name == luns[v].name :: u == v)
      && (forall t, u | t in targets && u in targets && targets[t].name == targets[u].name :: t == u)
      && (forall u, v | u in namespaces && v in namespaces && namespaces[u].name == namespaces[v].name :: u == v)
    }

    predicate HasLunNamed(name: string) {
      exists u | u in luns :: luns[u].name == name
    }

    predicate HasTargetNamed(name: string) {
      exists t | t in targets :: targets[t].name == name
    }

    predicate HasNamespaceNamed(name: string) {
      exists u | u in namespaces :: namespaces[u].name == name
    }

    predicate HasSubsystemNamed(name: string) {
      exists u | u in subsystems :: subsystems[u].name == name
    }

    function LunsNamed(name: string): set<Uuid> {
      set u | u in luns && luns[u].name == name
    }

    function NamespacesNamed(name: string): set<Uuid> {
      set u | u in namespaces && namespaces[u].name == name
    }

    // Deleting LUNs takes their mappings with them.
    function RemoveLuns(gone: set<Uuid>): Store {
      this.(luns := luns - gone,
      targets := map t | t in targets :: targets[t].(mapped := Without(targets[t].mapped, gone)))
    }

    function RemoveTarget(id: TargetId): Store {
      this.(targets := targets - {id})
    }

    function RemoveNamespaces(gone: set<Uuid>): Store {
      this.(namespaces := namespaces - gone)
    }

    // Deleting a subsystem detaches its namespaces.
    function RemoveSubsystem(uuid: Uuid): Store {
      this.(subsystems := subsystems - {uuid},
      namespaces := map n | n in namespaces ::
        if namespaces[n].subsystem == uuid then namespaces[n].(subsystem := "") else namespaces[n])
    }

    function RemoveShare(name: string): Store {
      this.(shares := shares - {name})
    }

    // Mapping a LUN again to a target that already serves it changes nothing.
    function MapLun(id: TargetId, uuid: Uuid, index: nat): Store
      requires id in targets
    {
      var target := targets[id];
      if Maps(target.mapped, uuid) then this
      else this.(targets := targets[id := target.(mapped := target.mapped + [Mapping(uuid, index)])])
    }

    // set_namespaces makes uuid's namespaces exactly the given one.
    function SetNamespaces(uuid: Uuid, namespace: Uuid): Store {
      this.(namespaces := map n | n in namespaces ::
        if n == namespace then namespaces[n].(subsystem := uuid)
        else if namespaces[n].subsystem == uuid then namespaces[n].(subsystem := "")
        else namespaces[n])
    }
  }

  predicate Maps(mapped: seq<Mapping>, uuid: Uuid) {
    exists m | m in mapped :: m.lun == uuid
  }

  ghost predicate MappingsExist(mapped: seq<Mapping>, luns: map<Uuid, Lun>) {
    && (forall m | m in mapped :: m.lun in luns)
    && (forall i, j | 0 <= i < j < |mapped| :: mapped[i].lun != mapped[j].lun)
  }

  function Without(mapped: seq<Mapping>, gone: set<Uuid>): (r: seq<Mapping>)
    ensures forall m :: m in r <==> m in mapped && m.lun !in gone
    ensures (forall m | m in mapped :: m.lun !in gone) ==> r == mapped
    ensures |r| <= |mapped|
  {
    if mapped == [] then []
    else if mapped[0].lun in gone then Without(mapped[1..], gone)
    else [mapped[0]] + Without(mapped[1..], gone)
  }

  lemma {:induction false} WithoutKeepsDistinct(mapped: seq<Mapping>, gone: set<Uuid>, luns: map<Uuid, Lun>)
    requires MappingsExist(mapped, luns)
    ensures MappingsExist(Without(mapped, gone), luns - gone)
  {
    if mapped != [] {
      WithoutKeepsDistinct(mapped[1..], gone, luns);
      var rest := Without(mapped[1..], gone);
      forall m | m in rest ensures m.lun != mapped[0].lun {
        var i :| 0 <= i < |mapped[1..]| && mapped[1..][i] == m;
        assert mapped[i + 1] == m;
      }
    }
  }

  lemma RemoveLunsKeepsValid(s: Store, gone: set<Uuid>)
    requires s.Valid()
    ensures s.RemoveLuns(gone).Valid()
  {
    forall t | t in s.targets
      ensures MappingsExist(Without(s.targets[t].mapped, gone), s.luns - gone)
    {
      WithoutKeepsDistinct(s.targets[t].mapped, gone, s.luns);
    }
  }

  // LUNs nothing maps can go without touching any target.
  lemma RemoveUnmappedLuns(s: Store, gone: set<Uuid>)
    requires forall t, m | t in s.targets && m in s.targets[t].mapped :: m.lun !in gone
    ensures s.RemoveLuns(gone) == s.(luns := s.luns - gone)
  {
    assert s.RemoveLuns(gone).targets == s.targets;
  }

  lemma MapLunKeepsValid(s: Store, id: TargetId, uuid: Uuid, index: nat)
    requires s.Valid() && id in s.targets && uuid in s.luns
    ensures s.MapLun(id, uuid, index).Valid()
    ensures s.MapLun(id, uuid, index) == s.(targets := s.MapLun(id, uuid, index).targets)
  {
    var mapped := s.targets[id].mapped;
    assert MappingsExist(mapped, s.luns);
    if !Maps(mapped, uuid) {
      MappedMore(mapped, Mapping(uuid, index), s.luns);
      assert s.MapLun(id, uuid, index).UniqueNames();
    }
  }

  lemma MappedMore(mapped: seq<Mapping>, m: Mapping, luns: map<Uuid, Lun>)
    requires MappingsExist(mapped, luns) && m.lun in luns && !Maps(mapped, m.lun)
    ensures MappingsExist(mapped + [m], luns)
  {
  }

  lemma SetNamespacesKeepsValid(s: Store, uuid: Uuid, nsId: Uuid)
    requires s.Valid() && uuid in s.subsystems && nsId in s.namespaces
    ensures s.SetNamespaces(uuid, nsId).Valid()
  {
    assert s.SetNamespaces(uuid, nsId).UniqueNames();
  }
}
