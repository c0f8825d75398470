/** Requests to one DSM: re-login with a single resend, and retries while the DSM is busy (pkg/dsm/webapi). */
module Requests {
  import opened Results

  // ---- the other side of the wire ----

  datatype Rule = Rule(client: string, privilege: string)

  // A share operation, or reading or saving the NFS rules of a share.
  datatype Op = ShareOp | LoadRules(share: string) | SaveRules(share: string, rules: seq<Rule>)

  // What a caller sees of one reply. A reply that never came, or does not parse, is Reply(false, 0).
  datatype Reply = Reply(ok: bool, code: int)

  // What a request did on the DSM, whatever its reply says. Concurrent savers of other rules may have
  // replaced any of them.
  datatype Effect = Took | Dropped | Replaced(all: map<string, seq<Rule>>)

  datatype Exchange = Exchange(reply: Reply, effect: Effect)

  // How the DSM behaves: what the n-th send brings, the sid the n-th login gives, and how many retries
  // the time limit leaves to a request whose first send is the n-th.
  datatype Network = Network(
    answer: (nat, string, Op) -> Exchange,
    login: nat -> Option<string>,
    patience: nat -> nat)

  // What the DSM has seen and holds.
  datatype Wire = Wire(
    sends: nat,
    saves: nat,
    loads: nat,
    logins: nat,
    applied: nat,
    rules: map<string, seq<Rule>>)
  {
    function RulesOf(share: string): seq<Rule> {
      if share in rules then rules[share] else []
    }
  }

  datatype Session = Session(sid: string, wire: Wire)

  function Affected(rules: map<string, seq<Rule>>, op: Op, effect: Effect): map<string, seq<Rule>> {
    match effect
    case Took => if op.SaveRules? then rules[op.share := op.rules] else rules
    case Dropped => rules
    case Replaced(all) => all
  }

  // ---- sendRequest ----

  // No permission, session timeout, unknown sid.
  predicate SidRefused(reply: Reply) {
    !reply.ok && (reply.code == 105 || reply.code == 106 || reply.code == 119)
  }

  function Sent(net: Network, s: Session, op: Op): (Reply, Session) {
    var w := s.wire;
    var e := net.answer(w.sends, s.sid, op);
    (e.reply, s.(wire := Wire(
    w.sends + 1,
    w.saves + if op.SaveRules? then 1 else 0,
    w.loads + if op.LoadRules? then 1 else 0,
    w.logins,
    w.applied + if e.effect == Took then 1 else 0,
    Affected(w.rules, op, e.effect))))
  }

  function Requested(net: Network, s: Session, op: Op): (Reply, Session) {
    var (reply, s1) := Sent(net, s, op);
    if !SidRefused(reply) then (reply, s1)
    else
      var s2 := s1.(wire := s1.wire.(logins := s1.wire.logins + 1));
      match net.login(s1.wire.logins)
      case None => (Reply(false, 0), s2)
      case Some(sid) => Sent(net, s2.(sid := sid), op)
  }

  // ---- retries ----

  datatype ShareError =
    | NoSuchShare
    | BadParameters
    | AlreadyExist
    | ShareReachMaxCount
    | ShareSystemBusy
    | ShareDefault(code: int)
    | Original(code: int)

  // shareErrCodeMapping: the code decides, even of a reply that claims success.
  function Mapped(reply: Reply): Option<ShareError> {
    match reply.code
    case 402 => Some(ShareError.NoSuchShare)
    case 403 => Some(BadParameters)
    case 3301 => Some(ShareError.AlreadyExist)
    case 3309 => Some(ShareReachMaxCount)
    case 3328 => Some(ShareSystemBusy)
    case code => if code >= 3300 then Some(ShareDefault(code)) else if reply.ok then None else Some(Original(code))
  }

  datatype Verdict = Done | Again(error: ShareError) | Stop(error: ShareError)

  // What the retry loop of the operation makes of a reply.
  function Judge(op: Op, reply: Reply): Verdict {
    if op.ShareOp? then
      match Mapped(reply)
      case None => Done
      case Some(error) => if error.ShareSystemBusy? then Again(error) else Stop(error)
    else if reply.ok then Done
    else if reply.code == 2370 then Again(Original(2370))
    else Stop(Original(reply.code))
  }

  function Retried(net: Network, s: Session, op: Op, retries: nat): (Reply, Session)
    decreases retries
  {
    var (reply, s1) := Requested(net, s, op);
    if Judge(op, reply).Again? && retries > 0 then Retried(net, s1, op, retries - 1) else (reply, s1)
  }

  function Performed(net: Network, s: Session, op: Op): (Verdict, Session) {
    var (reply, s1) := Retried(net, s, op, net.patience(s.wire.sends));
    (Judge(op, reply), s1)
  }

  class WebApi {
    const net: Network
    var sid: string
    var wire: Wire

    constructor (net: Network, sid: string, wire: Wire)
      ensures this.net == net && State() == Session(sid, wire)
    {
      this.net, this.sid, this.wire := net, sid, wire;
    }

    ghost function State(): Session
      reads this
    {
      Session(sid, wire)
    }

    // sendRequestWithoutConnectionCheck
    method SendUnchecked(op: Op) returns (reply: Reply)
      modifies this`wire
      ensures (reply, State()) == Sent(net, old(State()), op)
    {
      var e := net.answer(wire.sends, sid, op);
      wire := wire.(sends := wire.sends + 1, rules := Affected(wire.rules, op, e.effect));
      if op.SaveRules? {
        wire := wire.(saves := wire.saves + 1);
      }
      if op.LoadRules? {
        wire := wire.(loads := wire.loads + 1);
      }
      if e.effect == Took {
        wire := wire.(applied := wire.applied + 1);
      }
      return e.reply;
    }

    method Login() returns (ok: bool)
      modifies this
      ensures wire == old(wire).(logins := old(wire).logins + 1)
      ensures ok <==> net.login(old(wire).logins).Some?
      ensures ok ==> Some(sid) == net.login(old(wire).logins)
      ensures !ok ==> sid == old(sid)
    {
      var answer := net.login(wire.logins);
      wire := wire.(logins := wire.logins + 1);
      if answer.None? {
        return false;
      }
      sid := answer.value;
      return true;
    }

    // A second send happens exactly if the first reply refuses the session and a login succeeds. It carries the sid of
    // that login, and its reply counts. A failed login leaves the session and tells no code.
    method SendRequest(op: Op) returns (reply: Reply)
      modifies this
      ensures (reply, State()) == Requested(net, old(State()), op)
      ensures var first := net.answer(old(wire.sends), old(sid), op).reply;
              var refused := !first.ok && (first.code == 105 || first.code == 106 || first.code == 119);
              var login := net.login(old(wire.logins));
              && wire.sends == old(wire.sends) + (if refused && login.Some? then 2 else 1)
              && wire.logins == old(wire.logins) + (if refused then 1 else 0)
              && sid == (if refused && login.Some? then login.value else old(sid))
              && reply == if !refused then first
                          else if login.None? then Reply(false, 0)
                          else net.answer(old(wire.sends) + 1, login.value, op).reply
    {
      reply := SendUnchecked(op);
      if !SidRefused(reply) {
        return;
      }
      var ok := Login();
      if !ok {
        return Reply(false, 0);
      }
      reply := SendUnchecked(op);
    }

    // shareRequest and nfsPrivilegeRequest.
    method Perform(op: Op) returns (verdict: Verdict)
      modifies this
      ensures (verdict, State()) == Performed(net, old(State()), op)
    {
      var left := net.patience(wire.sends);
      var reply := SendRequest(op);
      while Judge(op, reply).Again? && left > 0
        invariant Retried(net, old(State()), op, net.patience(old(wire.sends)))
               == if Judge(op, reply).Again? && left > 0 then Retried(net, State(), op, left - 1) else (reply, State())
        decreases left
      {
        left := left - 1;
        reply := SendRequest(op);
      }
      return Judge(op, reply);
    }
  }

  // ---- what a request costs and applies ----

  // The state before attempt k, and the reply attempt k gets.
  function Before(net: Network, s: Session, op: Op, k: nat): Session {
    if k == 0 then s else Requested(net, Before(net, s, op, k - 1), op).1
  }

  function ReplyOf(net: Network, s: Session, op: Op, k: nat): Reply {
    Requested(net, Before(net, s, op, k), op).0
  }

  // k further attempts were made than the first: all but the last found the DSM busy, and the last did not,
  // unless there was no patience left.
  ghost predicate LastAttempt(net: Network, s: Session, op: Op, retries: nat, k: nat) {
    && k <= retries
    && (forall j | 0 <= j < k :: Judge(op, ReplyOf(net, s, op, j)).Again?)
    && (k < retries ==> !Judge(op, ReplyOf(net, s, op, k)).Again?)
  }

  lemma {:induction false} Shifted(net: Network, s: Session, op: Op, k: nat)
    ensures Before(net, Requested(net, s, op).1, op, k) == Before(net, s, op, k + 1)
  {
    if k > 0 {
      Shifted(net, s, op, k - 1);
    }
  }

  // The first attempt that does not find the DSM busy decides, with its own reply.
  lemma {:induction false} LastAttemptDecides(net: Network, s: Session, op: Op, retries: nat, k: nat)
    requires LastAttempt(net, s, op, retries, k)
    ensures Retried(net, s, op, retries) == (ReplyOf(net, s, op, k), Before(net, s, op, k + 1))
    decreases k
  {
    hide Requested, Judge;
    if k > 0 {
      assert Judge(op, ReplyOf(net, s, op, 0)).Again?;
      var s1 := Before(net, s, op, 1);
      forall j | 0 <= j <= k ensures Before(net, s1, op, j) == Before(net, s, op, j + 1) {
        Shifted(net, s, op, j);
      }
      forall j | 0 <= j < k - 1 ensures Judge(op, ReplyOf(net, s1, op, j)).Again? {
        assert Judge(op, ReplyOf(net, s, op, j + 1)).Again?;
      }
      LastAttemptDecides(net, s1, op, retries - 1, k - 1);
    }
  }

  lemma {:induction false} SomeAttemptIsLast(net: Network, s: Session, op: Op, retries: nat) returns (k: nat)
    ensures LastAttempt(net, s, op, retries, k)
  {
    k := 0;
    while k < retries && Judge(op, ReplyOf(net, s, op, k)).Again?
      invariant k <= retries && forall j | 0 <= j < k :: Judge(op, ReplyOf(net, s, op, j)).Again?
    {
      k := k + 1;
    }
  }

  // Each attempt makes at most two sends and one login.
  lemma {:induction false} AttemptsCost(net: Network, s: Session, op: Op, k: nat)
    ensures k <= Before(net, s, op, k).wire.sends - s.wire.sends <= 2 * k
    ensures 0 <= Before(net, s, op, k).wire.logins - s.wire.logins <= k
    ensures Before(net, s, op, k).wire.sends - s.wire.sends <= k + (Before(net, s, op, k).wire.logins - s.wire.logins)
  {
    if k > 0 {
      AttemptsCost(net, s, op, k - 1);
    }
  }

  // What a DSM must keep to for retries to be safe: a reply that gets the request sent again means it was not applied.
  ghost predicate ResendsAreSafe(net: Network, op: Op) {
    forall n, sid ::
      var e := net.answer(n, sid, op);
      SidRefused(e.reply) || Judge(op, e.reply).Again? ==> e.effect != Took
  }

  // A reply that ends the request with success means it was applied.
  ghost predicate SuccessApplies(net: Network, op: Op) {
    forall n, sid :: var e := net.answer(n, sid, op); Judge(op, e.reply).Done? ==> e.effect == Took
  }

  lemma AttemptApplies(net: Network, s: Session, op: Op)
    requires ResendsAreSafe(net, op)
    ensures var (reply, s1) := Requested(net, s, op);
            && s.wire.applied <= s1.wire.applied <= s.wire.applied + 1
            && (Judge(op, reply).Again? ==> s1.wire.applied == s.wire.applied)
            && (SuccessApplies(net, op) && Judge(op, reply).Done? ==> s1.wire.applied == s.wire.applied + 1)
  {
    var (reply, s1) := Sent(net, s, op);
    assert net.answer(s.wire.sends, s.sid, op).reply == reply;
    if SidRefused(reply) && net.login(s.wire.logins).Some? {
      var sid := net.login(s.wire.logins).value;
      var e := net.answer(s1.wire.sends, sid, op);
      assert SidRefused(e.reply) || Judge(op, e.reply).Again? ==> e.effect != Took;
    }
  }

  lemma {:induction false} BusyAttemptsApplyNothing(net: Network, s: Session, op: Op, k: nat)
    requires ResendsAreSafe(net, op) && forall j | 0 <= j < k :: Judge(op, ReplyOf(net, s, op, j)).Again?
    ensures Before(net, s, op, k).wire.applied == s.wire.applied
  {
    hide ResendsAreSafe, Judge, Requested;
    if k > 0 {
      BusyAttemptsApplyNothing(net, s, op, k - 1);
      AttemptApplies(net, Before(net, s, op, k - 1), op);
      assert Judge(op, ReplyOf(net, s, op, k - 1)).Again?;
    }
  }

  // However the retries nest, an operation is applied at most once, and not at all if the DSM stayed busy; exactly once
  // if it is reported done and success means that it was applied. There were k + 1 attempts.
  lemma AppliedAtMostOnce(net: Network, s: Session, op: Op) returns (k: nat)
    requires ResendsAreSafe(net, op)
    ensures LastAttempt(net, s, op, net.patience(s.wire.sends), k)
    ensures var (verdict, s1) := Performed(net, s, op);
            && verdict == Judge(op, ReplyOf(net, s, op, k))
            && s.wire.applied <= s1.wire.applied <= s.wire.applied + 1
            && (verdict.Again? ==> s1.wire.applied == s.wire.applied)
            && (SuccessApplies(net, op) && verdict.Done? ==> s1.wire.applied == s.wire.applied + 1)
            && k + 1 <= s1.wire.sends - s.wire.sends <= 2 * (k + 1)
            && s1.wire.logins - s.wire.logins <= k + 1
  {
    hide ResendsAreSafe, SuccessApplies, Judge, Requested;
    k := SomeAttemptIsLast(net, s, op, net.patience(s.wire.sends));
    LastAttemptDecides(net, s, op, net.patience(s.wire.sends), k);
    BusyAttemptsApplyNothing(net, s, op, k);
    AttemptApplies(net, Before(net, s, op, k), op);
    AttemptsCost(net, s, op, k + 1);
  }

  // Attempt k is made, and at least one of its sends is applied.
  ghost predicate Applies(net: Network, s: Session, op: Op, k: nat) {
    && k <= net.patience(s.wire.sends)
    && (forall j | 0 <= j < k :: Judge(op, ReplyOf(net, s, op, j)).Again?)
    && Before(net, s, op, k).wire.applied < Before(net, s, op, k + 1).wire.applied
  }

  // Both sends of attempt k are applied: the first although its reply refuses the session.
  ghost predicate AppliesTwice(net: Network, s: Session, op: Op, k: nat) {
    var before := Before(net, s, op, k);
    var first := net.answer(before.wire.sends, before.sid, op);
    var login := net.login(before.wire.logins);
    && k <= net.patience(s.wire.sends)
    && (forall j | 0 <= j < k :: Judge(op, ReplyOf(net, s, op, j)).Again?)
    && SidRefused(first.reply) && first.effect == Took
    && login.Some? && net.answer(before.wire.sends + 1, login.value, op).effect == Took
  }

  // On any DSM, an operation is applied more than once exactly if a busy reply follows an attempt that was applied and
  // a later attempt is applied too, or the session is refused for a send that was applied and the second send is too.
  lemma AppliedAgainIff(net: Network, s: Session, op: Op)
    ensures Performed(net, s, op).1.wire.applied >= s.wire.applied + 2 <==>
            || (exists j: nat, k: nat | j < k :: Applies(net, s, op, j) && Applies(net, s, op, k))
            || exists k: nat :: AppliesTwice(net, s, op, k)
  {
    hide Applies, AppliesTwice, Judge, Requested;
    if j: nat, k: nat :| j < k && Applies(net, s, op, j) && Applies(net, s, op, k) {
      AppliedAgain(net, s, op, j, k);
    } else if k: nat :| AppliesTwice(net, s, op, k) {
      AppliedAgain(net, s, op, 0, k);
    } else {
      var last := SomeAttemptIsLast(net, s, op, net.patience(s.wire.sends));
      LastAttemptDecides(net, s, op, net.patience(s.wire.sends), last);
      AppliedOnce(net, s, op, last + 1);
    }
  }

  // Before attempt m at most one was applied.
  lemma {:induction false} AppliedOnce(net: Network, s: Session, op: Op, m: nat)
    requires m <= net.patience(s.wire.sends) + 1
    requires forall j | 0 <= j < m - 1 :: Judge(op, ReplyOf(net, s, op, j)).Again?
    requires forall j: nat, k: nat | j < k :: !(Applies(net, s, op, j) && Applies(net, s, op, k))
    requires forall k: nat :: !AppliesTwice(net, s, op, k)
    ensures Before(net, s, op, m).wire.applied <= s.wire.applied + 1
    ensures Before(net, s, op, m).wire.applied > s.wire.applied ==> exists j: nat :: j < m && Applies(net, s, op, j)
  {
    hide Judge, Requested;
    if m > 0 {
      AppliedOnce(net, s, op, m - 1);
      AttemptAppliesOnce(net, s, op, m - 1);
      if Before(net, s, op, m).wire.applied > Before(net, s, op, m - 1).wire.applied {
        assert Applies(net, s, op, m - 1);
        assert forall j: nat | j < m - 1 :: !Applies(net, s, op, j);
      }
    }
  }

  lemma AttemptAppliesOnce(net: Network, s: Session, op: Op, k: nat)
    requires k <= net.patience(s.wire.sends) && forall j | 0 <= j < k :: Judge(op, ReplyOf(net, s, op, j)).Again?
    requires !AppliesTwice(net, s, op, k)
    ensures Before(net, s, op, k).wire.applied <= Before(net, s, op, k + 1).wire.applied
    ensures Before(net, s, op, k + 1).wire.applied <= Before(net, s, op, k).wire.applied + 1
  {
  }

  lemma AppliedAgain(net: Network, s: Session, op: Op, j: nat, k: nat)
    requires (j < k && Applies(net, s, op, j) && Applies(net, s, op, k)) || AppliesTwice(net, s, op, k)
    ensures Performed(net, s, op).1.wire.applied >= s.wire.applied + 2
  {
    hide Judge, Requested;
    var last := SomeAttemptIsLast(net, s, op, net.patience(s.wire.sends));
    LastAttemptDecides(net, s, op, net.patience(s.wire.sends), last);
    assert k <= last;
    AppliedGrows(net, s, op, 0, k);
    AppliedGrows(net, s, op, k + 1, last + 1);
    if AppliesTwice(net, s, op, k) {
      BothSendsApply(net, s, op, k);
    } else {
      AppliedGrows(net, s, op, 0, j);
      AppliedGrows(net, s, op, j + 1, k);
    }
  }

  lemma BothSendsApply(net: Network, s: Session, op: Op, k: nat)
    requires AppliesTwice(net, s, op, k)
    ensures Before(net, s, op, k + 1).wire.applied == Before(net, s, op, k).wire.applied + 2
  {
  }

  lemma {:induction false} AppliedGrows(net: Network, s: Session, op: Op, j: nat, k: nat)
    requires j <= k
    ensures Before(net, s, op, j).wire.applied <= Before(net, s, op, k).wire.applied
  {
    if j < k {
      AppliedGrows(net, s, op, j, k - 1);
    }
  }

  // Of share requests only 3328 is retried. Success is a reply without an error code of the share API, and the type of
  // a failure tells its code, whatever the reply claims.
  lemma VerdictTellsReply(reply: Reply)
    ensures Judge(ShareOp, reply).Again? <==> reply.code == 3328
    ensures Judge(ShareOp, reply) == Done <==> reply.ok && reply.code < 3300 && reply.code != 402 && reply.code != 403
    ensures Judge(ShareOp, reply) == Stop(ShareError.NoSuchShare) <==> reply.code == 402
    ensures Judge(ShareOp, reply) == Stop(BadParameters) <==> reply.code == 403
    ensures Judge(ShareOp, reply) == Stop(ShareError.AlreadyExist) <==> reply.code == 3301
    ensures Judge(ShareOp, reply) == Stop(ShareReachMaxCount) <==> reply.code == 3309
    ensures forall other: Reply | !reply.ok && !other.ok && Judge(ShareOp, reply) == Judge(ShareOp, other) ::
              reply.code == other.code
  {
  }

  // Of NFS requests only a share that cannot be looked up is retried, and the code does not matter to success.
  lemma NfsVerdictTellsReply(op: Op, reply: Reply)
    requires !op.ShareOp?
    ensures Judge(op, reply) == Done <==> reply.ok
    ensures Judge(op, reply).Again? <==> !reply.ok && reply.code == 2370
    ensures Judge(op, reply).Stop? ==> Judge(op, reply).error == Original(reply.code)
  {
  }
}
