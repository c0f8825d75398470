/** The undo steps a volume creation registers, and what running them in reverse leaves behind. */
module Undoing {
  import opened Stores

  // LUNs, namespaces and shares are found again by name; targets and subsystems by the id their creation returned.
  datatype Undo =
    | UndoLun(name: string)
    | UndoTarget(id: TargetId)
    | UndoNamespace(name: string)
    | UndoSubsystem(uuid: Uuid)
    | UndoShare(name: string)

  // One try at an undo step. A delete whose reply was lost is not ok although it removed the object.
  datatype Attempt = Attempt(step: Undo, ok: bool, removed: bool)

  function RemovedBy(s: Store, step: Undo): Store {
    match step
    case UndoLun(name) => s.RemoveLuns(s.LunsNamed(name))
    case UndoTarget(id) => s.RemoveTarget(id)
    case UndoNamespace(name) => s.RemoveNamespaces(s.NamespacesNamed(name))
    case UndoSubsystem(uuid) => s.RemoveSubsystem(uuid)
    case UndoShare(name) => s.RemoveShare(name)
  }

  function AfterAttempts(s: Store, attempts: seq<Attempt>): Store
    decreases attempts
  {
    if attempts == [] then s
    else AfterAttempts(if attempts[0].removed then RemovedBy(s, attempts[0].step) else s, attempts[1..])
  }

  function StepsOf(attempts: seq<Attempt>): (r: seq<Undo>)
    ensures |r| == |attempts|
  {
    if attempts == [] then [] else [attempts[0].step] + StepsOf(attempts[1..])
  }

  function Reverse<T>(s: seq<T>): (r: seq<T>)
    ensures |r| == |s|
  {
    if s == [] then [] else Reverse(s[1..]) + [s[0]]
  }

  lemma {:induction false} StepsOfAt(attempts: seq<Attempt>, i: nat)
    requires i < |attempts|
    ensures StepsOf(attempts)[i] == attempts[i].step
  {
    if i > 0 {
      StepsOfAt(attempts[1..], i - 1);
    }
  }

  lemma {:induction false} ReverseAt<T>(s: seq<T>, i: nat)
    requires i < |s|
    ensures Reverse(s)[i] == s[|s| - 1 - i]
  {
    if i < |s| - 1 {
      ReverseAt(s[1..], i);
    }
  }

  ghost function FailedSteps(attempts: seq<Attempt>): set<Undo> {
    set a | a in attempts && !a.ok :: a.step
  }

  // A created object and what it looks like by the time the creation fails.
  datatype Made =
    | MadeLun(lunId: Uuid, lun: Lun)
    | MadeTarget(id: TargetId, target: Target)
    | MadeNamespace(nsId: Uuid, ns: Namespace)
    | MadeSubsystem(uuid: Uuid, subsystem: Subsystem)
    | MadeShare(name: string, share: Share)
  {
    function UndoStep(): Undo {
      match this
      case MadeLun(_, lun) => UndoLun(lun.name)
      case MadeTarget(id, _) => UndoTarget(id)
      case MadeNamespace(_, ns) => UndoNamespace(ns.name)
      case MadeSubsystem(uuid, _) => UndoSubsystem(uuid)
      case MadeShare(name, _) => UndoShare(name)
    }

    // New to s, and not yet attached to anything.
    ghost predicate FreshIn(s: Store) {
      match this
      case MadeLun(lunId, lun) =>
        lunId !in s.luns && !s.HasLunNamed(lun.name) && (forall t | t in s.targets :: !Maps(s.targets[t].mapped, lunId))
      case MadeTarget(id, target) => id !in s.targets && target.mapped == []
      case MadeNamespace(nsId, ns) => nsId !in s.namespaces && !s.HasNamespaceNamed(ns.name) && ns.subsystem == ""
      case MadeSubsystem(uuid, _) =>
        uuid !in s.subsystems && uuid != "" && (forall n | n in s.namespaces :: s.namespaces[n].subsystem != uuid)
      case MadeShare(name, _) => name !in s.shares
    }

    function AddTo(s: Store): Store {
      match this
      case MadeLun(lunId, lun) => s.(luns := s.luns[lunId := lun])
      case MadeTarget(id, target) => s.(targets := s.targets[id := target])
      case MadeNamespace(nsId, ns) => s.(namespaces := s.namespaces[nsId := ns])
      case MadeSubsystem(uuid, subsystem) => s.(subsystems := s.subsystems[uuid := subsystem])
      case MadeShare(name, share) => s.(shares := s.shares[name := share])
    }
  }

  function Build(s: Store, mades: seq<Made>): Store {
    if mades == [] then s else mades[|mades| - 1].AddTo(Build(s, mades[..|mades| - 1]))
  }

  ghost predicate Buildable(s: Store, mades: seq<Made>) {
    mades != [] ==>
      && Buildable(s, mades[..|mades| - 1])
      && mades[|mades| - 1].FreshIn(Build(s, mades[..|mades| - 1]))
  }

  // The attempts of a rollback that registered one step per created object, newest first.
  ghost predicate RollsBack(mades: seq<Made>, attempts: seq<Attempt>) {
    && |attempts| == |mades|
    && forall i | 0 <= i < |mades| :: attempts[i].step == mades[|mades| - 1 - i].UndoStep()
  }

  // The created objects whose removal did not happen, in creation order.
  function Survivors(mades: seq<Made>, attempts: seq<Attempt>): seq<Made>
    requires |attempts| == |mades|
  {
    if mades == [] then []
    else
      Survivors(mades[..|mades| - 1], attempts[1..]) + if attempts[0].removed then [] else [mades[|mades| - 1]]
  }

  lemma UndoInvertsCreation(s: Store, m: Made)
    requires m.FreshIn(s)
    ensures RemovedBy(m.AddTo(s), m.UndoStep()) == s
  {
    var t := m.AddTo(s);
    match m
    case MadeLun(lunId, lun) =>
      assert t.LunsNamed(lun.name) == {lunId};
      RemoveUnmappedLuns(t, {lunId});
      assert t.luns - {lunId} == s.luns;
    case MadeTarget(id, _) => assert t.targets - {id} == s.targets;
    case MadeNamespace(nsId, ns) =>
      assert t.NamespacesNamed(ns.name) == {nsId};
      assert t.namespaces - {nsId} == s.namespaces;
    case MadeSubsystem(uuid, _) =>
      assert t.subsystems - {uuid} == s.subsystems;
      assert t.RemoveSubsystem(uuid).namespaces == s.namespaces;
    case MadeShare(name, _) => assert t.shares - {name} == s.shares;
  }

  // Undoing something else does not disturb a created object, nor make it any less new.
  lemma UndoCommutes(s: Store, m: Made, step: Undo)
    requires m.FreshIn(s) && step != m.UndoStep()
    ensures RemovedBy(m.AddTo(s), step) == m.AddTo(RemovedBy(s, step))
    ensures m.FreshIn(RemovedBy(s, step))
  {
    var t := m.AddTo(s);
    match step
    case UndoLun(name) =>
      assert t.LunsNamed(name) == s.LunsNamed(name);
      LunsUndoCommutes(s, m, s.LunsNamed(name));
    case UndoTarget(id) => assert t.RemoveTarget(id).targets == m.AddTo(s.RemoveTarget(id)).targets;
    case UndoNamespace(name) =>
      assert t.NamespacesNamed(name) == s.NamespacesNamed(name);
      NamespacesUndoCommutes(s, m, s.NamespacesNamed(name));
    case UndoSubsystem(uuid) => SubsystemUndoCommutes(s, m, uuid);
    case UndoShare(name) => assert t.RemoveShare(name).shares == m.AddTo(s.RemoveShare(name)).shares;
  }

  lemma LunsUndoCommutes(s: Store, m: Made, gone: set<Uuid>)
    requires m.FreshIn(s) && (m.MadeLun? ==> m.lunId !in gone)
    ensures m.AddTo(s).RemoveLuns(gone) == m.AddTo(s.RemoveLuns(gone))
    ensures m.FreshIn(s.RemoveLuns(gone))
  {
    LunsUndoKeepsFresh(s, m, gone);
    hide Made.FreshIn;
    var t := m.AddTo(s);
    assert t.RemoveLuns(gone).luns == m.AddTo(s.RemoveLuns(gone)).luns;
    assert t.RemoveLuns(gone).targets == m.AddTo(s.RemoveLuns(gone)).targets;
  }

  lemma LunsUndoKeepsFresh(s: Store, m: Made, gone: set<Uuid>)
    requires m.FreshIn(s)
    ensures m.FreshIn(s.RemoveLuns(gone)) && (m.MadeTarget? ==> m.target.mapped == [])
  {
  }

  lemma NamespacesUndoCommutes(s: Store, m: Made, gone: set<Uuid>)
    requires m.FreshIn(s) && (m.MadeNamespace? ==> m.nsId !in gone)
    ensures m.AddTo(s).RemoveNamespaces(gone) == m.AddTo(s.RemoveNamespaces(gone))
    ensures m.FreshIn(s.RemoveNamespaces(gone))
  {
    assert m.AddTo(s).RemoveNamespaces(gone).namespaces == m.AddTo(s.RemoveNamespaces(gone)).namespaces;
  }

  lemma SubsystemUndoCommutes(s: Store, m: Made, uuid: Uuid)
    requires m.FreshIn(s) && m.UndoStep() != UndoSubsystem(uuid)
    ensures m.AddTo(s).RemoveSubsystem(uuid) == m.AddTo(s.RemoveSubsystem(uuid))
    ensures m.FreshIn(s.RemoveSubsystem(uuid))
  {
    var t := m.AddTo(s);
    assert t.RemoveSubsystem(uuid).subsystems == m.AddTo(s.RemoveSubsystem(uuid)).subsystems;
    assert m.MadeNamespace? && uuid == "" ==> t.namespaces[m.nsId].subsystem == "";
    assert t.RemoveSubsystem(uuid).namespaces == m.AddTo(s.RemoveSubsystem(uuid)).namespaces;
  }

  ghost predicate Present(s: Store, m: Made) {
    match m
    case MadeLun(_, lun) => s.HasLunNamed(lun.name)
    case MadeTarget(id, _) => id in s.targets
    case MadeNamespace(_, ns) => s.HasNamespaceNamed(ns.name)
    case MadeSubsystem(uuid, _) => uuid in s.subsystems
    case MadeShare(name, _) => name in s.shares
  }

  lemma AddingKeepsPresent(s: Store, added: Made, m: Made)
    requires added.FreshIn(s) && (Present(s, m) || m == added)
    ensures Present(added.AddTo(s), m)
  {
    var t := added.AddTo(s);
    if m == added {
      assert m.MadeLun? ==> t.luns[m.lunId].name == m.lun.name;
      assert m.MadeNamespace? ==> t.namespaces[m.nsId].name == m.ns.name;
    } else if m.MadeLun? {
      var u :| u in s.luns && s.luns[u].name == m.lun.name;
      assert u in t.luns && t.luns[u].name == m.lun.name;
    } else if m.MadeNamespace? {
      var u :| u in s.namespaces && s.namespaces[u].name == m.ns.name;
      assert u in t.namespaces && t.namespaces[u].name == m.ns.name;
    }
  }

  lemma {:induction false} BuiltArePresent(s: Store, mades: seq<Made>, i: nat)
    requires Buildable(s, mades) && i < |mades|
    ensures Present(Build(s, mades), mades[i])
  {
    var last := |mades| - 1;
    if i < last {
      BuiltArePresent(s, mades[..last], i);
    }
    AddingKeepsPresent(Build(s, mades[..last]), mades[last], mades[i]);
  }

  // Attempts at other objects leave a created one standing.
  lemma {:induction false} AttemptsCommute(s: Store, m: Made, attempts: seq<Attempt>)
    requires m.FreshIn(s)
    requires forall a | a in attempts :: a.step != m.UndoStep()
    ensures AfterAttempts(m.AddTo(s), attempts) == m.AddTo(AfterAttempts(s, attempts))
    decreases attempts
  {
    if attempts != [] {
      UndoCommutes(s, m, attempts[0].step);
      var next := if attempts[0].removed then RemovedBy(s, attempts[0].step) else s;
      AttemptsCommute(next, m, attempts[1..]);
    }
  }

  // Whatever was created, in whatever order, and whichever undo calls took effect: a rollback restores the
  // entry state plus exactly the objects whose removal did not happen.
  lemma {:induction false} RollbackLeavesSurvivors(s: Store, mades: seq<Made>, attempts: seq<Attempt>)
    requires Buildable(s, mades) && RollsBack(mades, attempts)
    ensures AfterAttempts(Build(s, mades), attempts) == Build(s, Survivors(mades, attempts))
  {
    if mades != [] {
      var init, m, rest := mades[..|mades| - 1], mades[|mades| - 1], attempts[1..];
      var before := Build(s, init);
      RollbackLeavesSurvivors(s, init, rest);
      if attempts[0].removed {
        UndoInvertsCreation(before, m);
        assert Survivors(mades, attempts) == Survivors(init, rest);
      } else {
        forall a | a in rest ensures a.step != m.UndoStep() {
          var j :| 0 <= j < |rest| && rest[j] == a;
          assert attempts[j + 1].step == mades[|mades| - 2 - j].UndoStep();
          BuiltArePresent(s, init, |init| - 1 - j);
        }
        AttemptsCommute(before, m, rest);
        var kept := Survivors(init, rest);
        assert (kept + [m])[..|kept|] == kept;
      }
    }
  }

  // In particular a rollback whose undo calls all took effect restores the entry state.
  lemma RollbackRestores(s: Store, mades: seq<Made>, attempts: seq<Attempt>)
    requires Buildable(s, mades) && RollsBack(mades, attempts)
    requires forall a | a in attempts :: a.removed
    ensures AfterAttempts(Build(s, mades), attempts) == s
  {
    RollbackLeavesSurvivors(s, mades, attempts);
    NoSurvivors(mades, attempts);
  }

  lemma {:induction false} NoSurvivors(mades: seq<Made>, attempts: seq<Attempt>)
    requires |attempts| == |mades| && forall a | a in attempts :: a.removed
    ensures Survivors(mades, attempts) == []
  {
    if mades != [] {
      NoSurvivors(mades[..|mades| - 1], attempts[1..]);
    }
  }
}
