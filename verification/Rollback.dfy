/** createRollback (pkg/dsm/service/rollback.go): the undo steps of one creation. */
module Rollback {
  import opened Stores
  import opened Undoing
  import opened Outcomes
  import opened Dsms

  class CreateRollback {
    var steps: seq<Undo>

    constructor ()
      ensures steps == []
    {
      steps := [];
    }

    method Add(step: Undo)
      modifies this
      ensures steps == old(steps) + [step]
    {
      steps := steps + [step];
    }

    // Tries every step once, newest first, going on when one fails.
    method Run(dsm: Dsm)
      requires dsm.Valid()
      modifies dsm`store, dsm`tried
      ensures dsm.Valid()
      ensures StepsTried(old(dsm.Now()), dsm.Now(), steps)
    {
      hide Dsm.Valid, StepsTried, AfterAttempts;
      NothingTried(dsm.Now());
      var i := |steps|;
      while i > 0
        invariant 0 <= i <= |steps|
        invariant dsm.Valid()
        invariant StepsTried(old(dsm.Now()), dsm.Now(), steps[i..])
      {
        i := i - 1;
        ghost var before := dsm.Now();
        var _ := dsm.RunUndo(steps[i]);
        NextTried(old(dsm.Now()), before, dsm.Now(), steps[i + 1..], steps[i]);
        assert [steps[i]] + steps[i + 1..] == steps[i..];
      }
      assert steps[0..] == steps;
    }
  }

  lemma NothingTried(b: Trace)
    ensures forall steps: seq<Undo> | steps == [] :: StepsTried(b, b, steps)
  {
    assert b.tried[|b.tried|..] == [];
  }

  lemma NextTried(b: Trace, c: Trace, d: Trace, steps: seq<Undo>, step: Undo)
    requires StepsTried(b, c, steps)
    requires d.made == c.made && |d.tried| == |c.tried| + 1 && d.tried[..|c.tried|] == c.tried
    requires var a := d.tried[|c.tried|]; a.step == step && (a.ok ==> a.removed)
    requires d.store == AfterAttempts(c.store, d.tried[|c.tried|..])
    ensures StepsTried(b, d, [step] + steps)
  {
    hide AfterAttempts;
    var done, last := c.tried[|b.tried|..], d.tried[|c.tried|..];
    assert d.tried[|b.tried|..] == done + last && last == [d.tried[|c.tried|]];
    AttemptsCompose(b.store, done, last);
    StepsOfConcat(done, last);
    assert ([step] + steps)[1..] == steps;
    assert StepsOf(last) == [step];
  }

  // The deferred clean-up of a creation that is returning an error.
  method RollBack(dsm: Dsm, rollback: CreateRollback, ghost own: Own, ghost start: Trace)
    requires dsm.Valid() && start.store.Valid()
    requires Pending(own, start, dsm.Now(), rollback.steps)
    modifies dsm`store, dsm`tried
    ensures dsm.Valid()
    ensures RolledBack(own, start, dsm.Now())
    ensures (forall step | step in rollback.steps :: !step.UndoShare?) ==> dsm.store.shares == old(dsm.store.shares)
  {
    ghost var failed := dsm.Now();
    rollback.Run(dsm);
    SharesKept(failed, dsm.Now(), rollback.steps);
    PendingRollsBack(own, start, failed, dsm.Now(), rollback.steps);
  }

  lemma SharesKept(b: Trace, c: Trace, steps: seq<Undo>)
    requires StepsTried(b, c, steps)
    ensures (forall step | step in steps :: !step.UndoShare?) ==> c.store.shares == b.store.shares
  {
    var attempts := c.tried[|b.tried|..];
    if forall step | step in steps :: !step.UndoShare? {
      ReverseSameElements(steps);
      forall x | x in attempts ensures !x.step.UndoShare? {
        var i :| 0 <= i < |attempts| && attempts[i] == x;
        StepsOfAt(attempts, i);
        assert x.step in Reverse(steps);
      }
      AttemptsKeepShares(b.store, attempts);
    }
  }

  lemma {:induction false} AttemptsKeepShares(s: Store, attempts: seq<Attempt>)
    requires forall x | x in attempts :: !x.step.UndoShare?
    ensures AfterAttempts(s, attempts).shares == s.shares
    decreases attempts
  {
    if attempts != [] {
      var x, rest := attempts[0], attempts[1..];
      assert x in attempts && forall y | y in rest :: y in attempts;
      AttemptsKeepShares(if x.removed then RemovedBy(s, x.step) else s, rest);
    }
  }

  lemma {:induction false} AttemptsCompose(s: Store, first: seq<Attempt>, second: seq<Attempt>)
    ensures AfterAttempts(s, first + second) == AfterAttempts(AfterAttempts(s, first), second)
    decreases first
  {
    if first == [] {
      assert first + second == second;
    } else {
      assert (first + second)[1..] == first[1..] + second;
      AttemptsCompose(if first[0].removed then RemovedBy(s, first[0].step) else s, first[1..], second);
    }
  }
}
