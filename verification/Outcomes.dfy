/** What a volume creation may do to the DSM it runs on: the relations its success and its failure are held to. */
module Outcomes {
  import opened Stores
  import opened Undoing

  // The names a creation works with. An object that already has one of them is adopted, and adopting may
  // grow a LUN or namespace, set a share's quota or raise a target's session limit.
  datatype Own = Own(backend: string, target: string, share: string)

  // A DSM's store with the log of the objects this service had it create and of the undo steps it tried there.
  datatype Trace = Trace(store: Store, made: seq<Undo>, tried: seq<Attempt>)

  ghost predicate LikeLun(own: Own, a: Lun, b: Lun) {
    a == b || (a.name == own.backend && a.size <= b.size && b == a.(size := b.size))
  }

  ghost predicate LikeTarget(own: Own, a: Target, b: Target) {
    a == b || (a.name == own.target && b == a.(maxSessions := b.maxSessions))
  }

  ghost predicate LikeNamespace(own: Own, a: Namespace, b: Namespace) {
    a == b || (a.name == own.backend && a.size <= b.size && b == a.(size := b.size))
  }

  ghost predicate LikeShare(own: Own, name: string, a: Share, b: Share) {
    a == b || (name == own.share && b == a.(quotaMB := b.quotaMB))
  }

  // Every LUN of a is still in b, and the new ones have the creation's name and their undo failed. Likewise below.
  ghost predicate LunResidue(own: Own, a: map<Uuid, Lun>, b: map<Uuid, Lun>, failed: set<Undo>) {
    && (forall u | u in a :: u in b && LikeLun(own, a[u], b[u]))
    && (forall u | u in b && u !in a :: b[u].name == own.backend && UndoLun(own.backend) in failed)
  }

  // A left-over target serves no LUN.
  ghost predicate TargetResidue(own: Own, a: map<TargetId, Target>, b: map<TargetId, Target>, failed: set<Undo>) {
    && (forall t | t in a :: t in b && LikeTarget(own, a[t], b[t]))
    && (forall t | t in b && t !in a :: b[t].name == own.target && UndoTarget(t) in failed && b[t].mapped == [])
  }

  // A left-over namespace is attached to no subsystem.
  ghost predicate NamespaceResidue(own: Own, a: map<Uuid, Namespace>, b: map<Uuid, Namespace>, failed: set<Undo>) {
    && (forall u | u in a :: u in b && LikeNamespace(own, a[u], b[u]))
    && (forall u | u in b && u !in a ::
        b[u].name == own.backend && UndoNamespace(own.backend) in failed && b[u].subsystem == "")
  }

  ghost predicate SubsystemResidue(a: map<Uuid, Subsystem>, b: map<Uuid, Subsystem>, failed: set<Undo>) {
    && (forall u | u in a :: u in b && a[u] == b[u])
    && (forall u | u in b && u !in a :: UndoSubsystem(u) in failed)
  }

  ghost predicate ShareResidue(own: Own, a: map<string, Share>, b: map<string, Share>, failed: set<Undo>) {
    && (forall n | n in a :: n in b && LikeShare(own, n, a[n], b[n]))
    && (forall n | n in b && n !in a :: n == own.share && UndoShare(n) in failed)
  }

  // b is a, up to what adopting may change, plus objects whose undo failed.
  ghost predicate Residue(own: Own, a: Store, b: Store, failed: set<Undo>) {
    && LunResidue(own, a.luns, b.luns, failed)
    && TargetResidue(own, a.targets, b.targets, failed)
    && NamespaceResidue(own, a.namespaces, b.namespaces, failed)
    && SubsystemResidue(a.subsystems, b.subsystems, failed)
    && ShareResidue(own, a.shares, b.shares, failed)
  }

  // The log of a finished creation extends the log at its start; what it tried undoes what it made, newest first.
  ghost predicate UndoneInReverse(a: Trace, b: Trace) {
    && a.made <= b.made && a.tried <= b.tried
    && StepsOf(b.tried[|a.tried|..]) == Reverse(b.made[|a.made|..])
  }

  ghost function FailedSince(a: Trace, b: Trace): set<Undo>
    requires |a.tried| <= |b.tried|
  {
    FailedSteps(b.tried[|a.tried|..])
  }

  // A failed creation: every object it made was tried once, newest first, and nothing else was touched.
  ghost predicate RolledBack(own: Own, a: Trace, b: Trace) {
    && UndoneInReverse(a, b)
    && Residue(own, a.store, b.store, FailedSince(a, b))
  }

  // A step that undoes nothing a holds.
  ghost predicate NewTo(a: Store, step: Undo) {
    match step
    case UndoLun(name) => !a.HasLunNamed(name)
    case UndoTarget(id) => id !in a.targets
    case UndoNamespace(name) => !a.HasNamespaceNamed(name)
    case UndoSubsystem(uuid) => uuid !in a.subsystems
    case UndoShare(name) => name !in a.shares
  }

  // A creation about to roll back: its registered steps, and the steps inner creations failed to undo,
  // account for everything new.
  ghost predicate Pending(own: Own, a: Trace, b: Trace, steps: seq<Undo>) {
    && |a.made| + |steps| <= |b.made| && a.tried <= b.tried
    && b.made[..|a.made| + |steps|] == a.made + steps
    && StepsOf(b.tried[|a.tried|..]) == Reverse(b.made[|a.made| + |steps|..])
    && Residue(own, a.store, b.store, StepSet(steps) + FailedSince(a, b))
    && forall step | step in steps :: NewTo(a.store, step)
  }

  // A creation that has registered steps and called no inner one: b is a plus the objects those steps undo.
  ghost predicate Registered(own: Own, a: Trace, b: Trace, steps: seq<Undo>) {
    && b.made == a.made + steps && b.tried == a.tried
    && Residue(own, a.store, b.store, StepSet(steps))
    && forall step | step in steps :: NewTo(a.store, step)
  }

  lemma NothingRegistered(own: Own, a: Trace)
    ensures Registered(own, a, a, [])
  {
  }

  lemma RegisteredIsPending(own: Own, a: Trace, b: Trace, steps: seq<Undo>)
    requires Registered(own, a, b, steps)
    ensures Pending(own, a, b, steps)
  {
    assert b.tried[|a.tried|..] == [] && b.made[|a.made| + |steps|..] == [];
    assert StepSet(steps) + {} == StepSet(steps);
  }

  // The inner creation failed and rolled back.
  lemma InnerFailureIsPending(own: Own, a: Trace, b: Trace, c: Trace, steps: seq<Undo>)
    requires Registered(own, a, b, steps) && RolledBack(own, b, c)
    ensures Pending(own, a, c, steps)
  {
    ResidueComposes(own, a.store, b.store, c.store, StepSet(steps), FailedSince(b, c));
    assert |a.made| + |steps| == |b.made|;
  }

  ghost function StepSet(steps: seq<Undo>): set<Undo> {
    set step | step in steps
  }

  // A successful creation undoes nothing.
  ghost predicate NothingUndone(a: Trace, b: Trace) {
    a.made <= b.made && a.tried == b.tried
  }

  // The mappings of a target after a LUN was mapped to it.
  ghost predicate MappedOnce(before: seq<Mapping>, after: seq<Mapping>, lunId: Uuid) {
    if Maps(before, lunId) then after == before
    else |after| == |before| + 1 && after[..|before|] == before && after[|before|].lun == lunId
  }

  // The LUN of the creation's name exists and target targetId serves it; all else is as it was.
  ghost predicate IscsiBuilt(own: Own, a: Store, b: Store, lunId: Uuid, targetId: TargetId) {
    && LunBuilt(own, a.luns, b.luns, lunId)
    && TargetBuilt(own, a.targets, b.targets, lunId, targetId)
    && b.namespaces == a.namespaces && b.subsystems == a.subsystems && b.shares == a.shares
  }

  ghost predicate LunBuilt(own: Own, a: map<Uuid, Lun>, b: map<Uuid, Lun>, lunId: Uuid) {
    && lunId in b && b[lunId].name == own.backend
    && b.Keys == a.Keys + {lunId}
    && (forall u | u in a && u != lunId :: b[u] == a[u])
    && (lunId in a ==> LikeLun(own, a[lunId], b[lunId]))
  }

  ghost predicate TargetBuilt(own: Own, a: map<TargetId, Target>, b: map<TargetId, Target>, lunId: Uuid,
                              targetId: TargetId) {
    && targetId in b && b[targetId].name == own.target
    && b.Keys == a.Keys + {targetId}
    && (forall t | t in a && t != targetId :: b[t] == a[t])
    && (targetId in a ==> a[targetId].name == own.target)
    && MappedOnce(if targetId in a then a[targetId].mapped else [], b[targetId].mapped, lunId)
  }

  // The namespace of the creation's name exists, attached to a new subsystem.
  ghost predicate NvmeBuilt(own: Own, a: Store, b: Store, nsId: Uuid, subsystemId: Uuid) {
    && nsId in b.namespaces && b.namespaces[nsId].name == own.backend && b.namespaces[nsId].subsystem == subsystemId
    && b.namespaces.Keys == a.namespaces.Keys + {nsId}
    && (forall u | u in a.namespaces && u != nsId :: b.namespaces[u] == a.namespaces[u])
    && (nsId in a.namespaces ==>
        a.namespaces[nsId].name == own.backend && a.namespaces[nsId].size <= b.namespaces[nsId].size)
    && subsystemId != "" && subsystemId !in a.subsystems && subsystemId in b.subsystems
    && b.subsystems - {subsystemId} == a.subsystems
    && b.luns == a.luns && b.targets == a.targets && b.shares == a.shares
  }

  // The share of the creation's name exists; a new one has no NFS rule yet.
  ghost predicate ShareBuilt(own: Own, a: Store, b: Store) {
    && own.share in b.shares
    && b.shares.Keys == a.shares.Keys + {own.share}
    && (forall n | n in a.shares :: LikeShare(own, n, a.shares[n], b.shares[n]))
    && (own.share !in a.shares ==> !b.shares[own.share].exported)
    && b.luns == a.luns && b.targets == a.targets && b.namespaces == a.namespaces && b.subsystems == a.subsystems
  }

  // All or nothing: when no undo call failed, a failed creation leaves exactly the objects it found,
  // and objects of other names exactly as it found them.
  lemma AllOrNothing(own: Own, a: Trace, b: Trace)
    requires RolledBack(own, a, b)
    requires forall x | x in b.tried[|a.tried|..] :: x.ok
    ensures b.store.luns.Keys == a.store.luns.Keys && b.store.targets.Keys == a.store.targets.Keys
    ensures b.store.namespaces.Keys == a.store.namespaces.Keys && b.store.shares.Keys == a.store.shares.Keys
    ensures b.store.subsystems == a.store.subsystems
    ensures forall u | u in a.store.luns && a.store.luns[u].name != own.backend :: b.store.luns[u] == a.store.luns[u]
    ensures forall t | t in a.store.targets ::
              b.store.targets[t].name == a.store.targets[t].name
                  && b.store.targets[t].mapped == a.store.targets[t].mapped
    ensures forall u | u in a.store.namespaces && a.store.namespaces[u].name != own.backend ::
              b.store.namespaces[u] == a.store.namespaces[u]
    ensures forall n | n in a.store.shares && n != own.share :: b.store.shares[n] == a.store.shares[n]
  {
    assert FailedSince(a, b) == {};
  }

  // Nothing of a bears one of the creation's names, so nothing can be adopted.
  ghost predicate NothingToAdopt(own: Own, a: Store) {
    && !a.HasLunNamed(own.backend) && !a.HasTargetNamed(own.target) && !a.HasNamespaceNamed(own.backend)
    && own.share !in a.shares
  }

  // A failed creation that adopted nothing leaves every object exactly as it was, next to those of its own whose undo
  // failed; when none failed, the DSM is back to what it was.
  lemma NothingAdoptedRestores(own: Own, a: Trace, b: Trace)
    requires RolledBack(own, a, b) && NothingToAdopt(own, a.store)
    ensures forall u | u in a.store.luns :: u in b.store.luns && b.store.luns[u] == a.store.luns[u]
    ensures forall t | t in a.store.targets :: t in b.store.targets && b.store.targets[t] == a.store.targets[t]
    ensures forall u | u in a.store.namespaces ::
              u in b.store.namespaces && b.store.namespaces[u] == a.store.namespaces[u]
    ensures forall n | n in a.store.shares :: n in b.store.shares && b.store.shares[n] == a.store.shares[n]
    ensures (forall x | x in b.tried[|a.tried|..] :: x.ok) ==> b.store == a.store
  {
    if forall x | x in b.tried[|a.tried|..] :: x.ok {
      assert FailedSince(a, b) == {};
      assert b.store.luns == a.store.luns && b.store.targets == a.store.targets;
      assert b.store.namespaces == a.store.namespaces && b.store.shares == a.store.shares;
    }
  }

  lemma ResidueComposes(own: Own, a: Store, b: Store, c: Store, f: set<Undo>, g: set<Undo>)
    requires Residue(own, a, b, f) && Residue(own, b, c, g)
    ensures Residue(own, a, c, f + g)
  {
    hide LunResidue, TargetResidue, NamespaceResidue, ShareResidue;
    LunsCompose(own, a.luns, b.luns, c.luns, f, g);
    TargetsCompose(own, a.targets, b.targets, c.targets, f, g);
    NamespacesCompose(own, a.namespaces, b.namespaces, c.namespaces, f, g);
    SharesCompose(own, a.shares, b.shares, c.shares, f, g);
  }

  lemma LunsCompose(own: Own, a: map<Uuid, Lun>, b: map<Uuid, Lun>, c: map<Uuid, Lun>, f: set<Undo>, g: set<Undo>)
    requires LunResidue(own, a, b, f) && LunResidue(own, b, c, g)
    ensures LunResidue(own, a, c, f + g)
  {
    forall u | u in c && u !in a ensures c[u].name == own.backend && UndoLun(own.backend) in f + g {
      if u in b {
        assert UndoLun(own.backend) in f && LikeLun(own, b[u], c[u]);
      }
    }
  }

  lemma TargetsCompose(own: Own, a: map<TargetId, Target>, b: map<TargetId, Target>, c: map<TargetId, Target>,
                       f: set<Undo>, g: set<Undo>)
    requires TargetResidue(own, a, b, f) && TargetResidue(own, b, c, g)
    ensures TargetResidue(own, a, c, f + g)
  {
  }

  lemma NamespacesCompose(own: Own, a: map<Uuid, Namespace>, b: map<Uuid, Namespace>, c: map<Uuid, Namespace>,
                          f: set<Undo>, g: set<Undo>)
    requires NamespaceResidue(own, a, b, f) && NamespaceResidue(own, b, c, g)
    ensures NamespaceResidue(own, a, c, f + g)
  {
    forall u | u in c && u !in a
      ensures c[u].name == own.backend && UndoNamespace(own.backend) in f + g && c[u].subsystem == ""
    {
      if u in b {
        assert UndoNamespace(own.backend) in f && LikeNamespace(own, b[u], c[u]);
      }
    }
  }

  lemma SharesCompose(own: Own, a: map<string, Share>, b: map<string, Share>, c: map<string, Share>,
                      f: set<Undo>, g: set<Undo>)
    requires ShareResidue(own, a, b, f) && ShareResidue(own, b, c, g)
    ensures ShareResidue(own, a, c, f + g)
  {
    assert forall n | n in a :: n in b && n in c;
  }

  // Removing what a step names removes nothing a holds.
  lemma RemovalShrinksResidue(own: Own, a: Store, b: Store, step: Undo, f: set<Undo>)
    requires a.Valid() && NewTo(a, step) && Residue(own, a, b, f)
    ensures Residue(own, a, RemovedBy(b, step), f - {step})
  {
    match step
    case UndoLun(name) => LunRemovalShrinksResidue(own, a, b, name, f);
    case UndoTarget(id) =>
    case UndoNamespace(name) => NamespaceRemovalShrinksResidue(own, a, b, name, f);
    case UndoSubsystem(uuid) => SubsystemRemovalShrinksResidue(own, a, b, uuid, f);
    case UndoShare(name) =>
  }

  lemma LunRemovalShrinksResidue(own: Own, a: Store, b: Store, name: string, f: set<Undo>)
    requires a.Valid() && !a.HasLunNamed(name) && Residue(own, a, b, f)
    ensures Residue(own, a, b.RemoveLuns(b.LunsNamed(name)), f - {UndoLun(name)})
  {
    hide Store.Valid, LunResidue, TargetResidue, NamespaceResidue, ShareResidue;
    var c := b.RemoveLuns(b.LunsNamed(name));
    LunsWithoutName(own, a, b, name, f);
    TargetsWithoutLuns(own, a, b, name, f);
    OtherUndos(own, a, b, f, UndoLun(name));
    assert SubsystemResidue(a.subsystems, c.subsystems, f - {UndoLun(name)});
  }

  // The other kinds do not need the step that undoes a LUN.
  lemma OtherUndos(own: Own, a: Store, b: Store, f: set<Undo>, step: Undo)
    requires Residue(own, a, b, f) && step.UndoLun?
    ensures NamespaceResidue(own, a.namespaces, b.namespaces, f - {step})
    ensures ShareResidue(own, a.shares, b.shares, f - {step})
  {
  }

  lemma LunsWithoutName(own: Own, a: Store, b: Store, name: string, f: set<Undo>)
    requires !a.HasLunNamed(name) && Residue(own, a, b, f)
    ensures LunResidue(own, a.luns, b.luns - b.LunsNamed(name), f - {UndoLun(name)})
  {
    forall u | u in a.luns ensures u !in b.LunsNamed(name) {
      assert LikeLun(own, a.luns[u], b.luns[u]);
    }
  }

  lemma TargetsWithoutLuns(own: Own, a: Store, b: Store, name: string, f: set<Undo>)
    requires a.Valid() && !a.HasLunNamed(name) && Residue(own, a, b, f)
    ensures TargetResidue(own, a.targets, b.RemoveLuns(b.LunsNamed(name)).targets, f - {UndoLun(name)})
  {
    hide Store.Valid;
    var gone, targets := b.LunsNamed(name), b.RemoveLuns(b.LunsNamed(name)).targets;
    forall t | t in a.targets ensures targets[t] == b.targets[t] {
      assert LikeTarget(own, a.targets[t], b.targets[t]);
      NoneOfThemMapped(own, a, b, name, f, t);
    }
  }

  lemma NoneOfThemMapped(own: Own, a: Store, b: Store, name: string, f: set<Undo>, t: TargetId)
    requires a.Valid() && !a.HasLunNamed(name) && Residue(own, a, b, f) && t in a.targets
    ensures forall m | m in a.targets[t].mapped :: m.lun !in b.LunsNamed(name)
  {
    assert MappingsExist(a.targets[t].mapped, a.luns);
    forall m | m in a.targets[t].mapped ensures m.lun !in b.LunsNamed(name) {
      assert m.lun in a.luns && LikeLun(own, a.luns[m.lun], b.luns[m.lun]);
    }
  }

  lemma NamespaceRemovalShrinksResidue(own: Own, a: Store, b: Store, name: string, f: set<Undo>)
    requires !a.HasNamespaceNamed(name) && Residue(own, a, b, f)
    ensures Residue(own, a, b.RemoveNamespaces(b.NamespacesNamed(name)), f - {UndoNamespace(name)})
  {
    var c := b.RemoveNamespaces(b.NamespacesNamed(name));
    forall u | u in a.namespaces ensures u in c.namespaces && LikeNamespace(own, a.namespaces[u], c.namespaces[u]) {
      assert LikeNamespace(own, a.namespaces[u], b.namespaces[u]);
    }
  }

  lemma SubsystemRemovalShrinksResidue(own: Own, a: Store, b: Store, uuid: Uuid, f: set<Undo>)
    requires a.Valid() && uuid !in a.subsystems && Residue(own, a, b, f)
    ensures Residue(own, a, b.RemoveSubsystem(uuid), f - {UndoSubsystem(uuid)})
  {
    hide Store.Valid;
    var c := b.RemoveSubsystem(uuid);
    forall u | u in a.namespaces ensures u in c.namespaces && LikeNamespace(own, a.namespaces[u], c.namespaces[u]) {
      assert LikeNamespace(own, a.namespaces[u], b.namespaces[u]);
      AttachedToOld(a, u);
    }
  }

  lemma AttachedToOld(a: Store, u: Uuid)
    requires a.Valid() && u in a.namespaces
    ensures a.namespaces[u].subsystem == "" || a.namespaces[u].subsystem in a.subsystems
  {
  }

  lemma {:induction false} AttemptsShrinkResidue(own: Own, a: Store, b: Store, attempts: seq<Attempt>, f: set<Undo>)
    requires a.Valid() && Residue(own, a, b, StepSet(StepsOf(attempts)) + f)
    requires forall x | x in attempts :: NewTo(a, x.step) && (x.ok ==> x.removed)
    ensures Residue(own, a, AfterAttempts(b, attempts), FailedSteps(attempts) + f)
    decreases attempts
  {
    if attempts == [] {
      assert FailedSteps(attempts) + f == StepSet(StepsOf(attempts)) + f;
    } else {
      var x, rest := attempts[0], attempts[1..];
      var next := if x.removed then RemovedBy(b, x.step) else b;
      var g := if x.ok then f else f + {x.step};
      assert x in attempts;
      assert StepSet(StepsOf(attempts)) == {x.step} + StepSet(StepsOf(rest)) by {
        assert StepsOf(attempts) == [x.step] + StepsOf(rest);
      }
      if x.removed {
        RemovalShrinksResidue(own, a, b, x.step, StepSet(StepsOf(attempts)) + f);
        ResidueWidens(own, a, next, StepSet(StepsOf(attempts)) + f - {x.step}, StepSet(StepsOf(rest)) + g);
      } else {
        ResidueWidens(own, a, next, StepSet(StepsOf(attempts)) + f, StepSet(StepsOf(rest)) + g);
      }
      AttemptsShrinkResidue(own, a, next, rest, g);
      assert FailedSteps(attempts) + f == FailedSteps(rest) + g by {
        assert forall y :: y in attempts <==> y == x || y in rest;
      }
    }
  }

  lemma ResidueWidens(own: Own, a: Store, b: Store, f: set<Undo>, g: set<Undo>)
    requires Residue(own, a, b, f) && f <= g
    ensures Residue(own, a, b, g)
  {
  }

  // c is b after the steps of a rollback were tried, newest first.
  ghost predicate StepsTried(b: Trace, c: Trace, steps: seq<Undo>) {
    && c.made == b.made && b.tried <= c.tried
    && StepsOf(c.tried[|b.tried|..]) == Reverse(steps)
    && c.store == AfterAttempts(b.store, c.tried[|b.tried|..])
    && forall x | x in c.tried[|b.tried|..] && x.ok :: x.removed
  }

  // Running the registered steps of a pending creation, newest first, rolls it back.
  lemma PendingRollsBack(own: Own, a: Trace, b: Trace, c: Trace, steps: seq<Undo>)
    requires a.store.Valid() && Pending(own, a, b, steps) && StepsTried(b, c, steps)
    ensures RolledBack(own, a, c)
  {
    var inner, outer := b.tried[|a.tried|..], c.tried[|b.tried|..];
    var made := a.made + steps;
    SuffixesAdd(a.tried, b.tried, c.tried);
    assert a.made <= made <= b.made;
    SuffixesAdd(a.made, made, b.made);
    assert made[|a.made|..] == steps;
    ReversedTogether(inner, outer, steps, b.made[|made|..]);
    FailedStepsConcat(inner, outer);
    StepsInReverseLeaveFailures(own, a.store, b.store, outer, steps, FailedSteps(inner));
    assert FailedSteps(outer) + FailedSteps(inner) == FailedSteps(inner) + FailedSteps(outer);
  }

  lemma {:induction false} ReverseSameElements<T>(s: seq<T>)
    ensures forall x :: x in Reverse(s) <==> x in s
  {
    if s != [] {
      ReverseSameElements(s[1..]);
      assert s == [s[0]] + s[1..];
    }
  }

  lemma SuffixesAdd<T>(a: seq<T>, b: seq<T>, c: seq<T>)
    requires a <= b <= c
    ensures c[|a|..] == b[|a|..] + c[|b|..]
  {
  }

  lemma ReversedTogether(x: seq<Attempt>, y: seq<Attempt>, steps: seq<Undo>, rest: seq<Undo>)
    requires StepsOf(x) == Reverse(rest) && StepsOf(y) == Reverse(steps)
    ensures StepsOf(x + y) == Reverse(steps + rest)
  {
    StepsOfConcat(x, y);
    ReverseConcat(steps, rest);
  }

  lemma FailedStepsConcat(x: seq<Attempt>, y: seq<Attempt>)
    ensures FailedSteps(x + y) == FailedSteps(x) + FailedSteps(y)
  {
    assert forall a :: a in x + y <==> a in x || a in y;
  }

  lemma StepsInReverseLeaveFailures(own: Own, a: Store, b: Store, attempts: seq<Attempt>, steps: seq<Undo>,
                                    f: set<Undo>)
    requires a.Valid() && Residue(own, a, b, StepSet(steps) + f)
    requires forall step | step in steps :: NewTo(a, step)
    requires StepsOf(attempts) == Reverse(steps) && forall x | x in attempts && x.ok :: x.removed
    ensures Residue(own, a, AfterAttempts(b, attempts), FailedSteps(attempts) + f)
  {
    forall x | x in attempts ensures NewTo(a, x.step) {
      var i :| 0 <= i < |attempts| && attempts[i] == x;
      StepsOfAt(attempts, i);
      ReverseAt(steps, i);
    }
    assert StepSet(StepsOf(attempts)) == StepSet(steps) by {
      ReverseSameElements(steps);
    }
    AttemptsShrinkResidue(own, a, b, attempts, f);
  }

  lemma {:induction false} StepsOfConcat(x: seq<Attempt>, y: seq<Attempt>)
    ensures StepsOf(x + y) == StepsOf(x) + StepsOf(y)
  {
    if x == [] {
      assert x + y == y;
    } else {
      assert (x + y)[1..] == x[1..] + y;
      StepsOfConcat(x[1..], y);
    }
  }

  lemma {:induction false} ReverseConcat<T>(x: seq<T>, y: seq<T>)
    ensures Reverse(x + y) == Reverse(y) + Reverse(x)
  {
    if x == [] {
      assert x + y == y;
    } else {
      assert (x + y)[1..] == x[1..] + y;
      ReverseConcat(x[1..], y);
    }
  }
}
