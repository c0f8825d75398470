/** Saving NFS rules to a DSM that may report success without applying them. */
module NfsPrivilege {
  import opened Results
  import opened Texts
  import opened Requests

  // ---- rules in force ----

  // The last rule of a client counts; a client without one has no privilege.
  function InForce(rules: seq<Rule>, client: string): string {
    if rules == [] then ""
    else if rules[|rules| - 1].client == client then rules[|rules| - 1].privilege
    else InForce(rules[..|rules| - 1], client)
  }

  ghost predicate Granted(rules: seq<Rule>, want: seq<Rule>) {
    forall r | r in want :: InForce(rules, r.client) == r.privilege
  }

  ghost predicate Consistent(want: seq<Rule>) {
    forall r, q | r in want && q in want && r.client == q.client :: r.privilege == q.privilege
  }

  function Missing(rules: seq<Rule>, want: seq<Rule>): seq<string> {
    if want == [] then []
    else
      var r := want[|want| - 1];
      Missing(rules, want[..|want| - 1]) + (if InForce(rules, r.client) != r.privilege then [r.client] else [])
  }

  // missingPrivilegeRules and its copy missingNfsPrivilegeClients.
  method MissingRules(got: seq<Rule>, want: seq<Rule>) returns (missing: seq<string>)
    ensures missing == Missing(got, want)
    ensures missing == [] <==> Granted(got, want)
    ensures forall c :: c in missing <==> exists r | r in want :: r.client == c && InForce(got, c) != r.privilege
  {
    var inEffect: map<string, string> := map[];
    for i := 0 to |got|
      invariant forall c: string :: (if c in inEffect then inEffect[c] else "") == InForce(got[..i], c)
    {
      assert got[..i + 1][..i] == got[..i];
      inEffect := inEffect[got[i].client := got[i].privilege];
    }
    assert got[..|got|] == got;
    missing := [];
    for i := 0 to |want|
      invariant missing == Missing(got, want[..i])
    {
      assert want[..i + 1][..i] == want[..i];
      var r := want[i];
      if (if r.client in inEffect then inEffect[r.client] else "") != r.privilege {
        missing := missing + [r.client];
      }
    }
    assert want[..|want|] == want;
    MissingTells(got, want);
  }

  lemma {:induction false} MissingTells(rules: seq<Rule>, want: seq<Rule>)
    ensures forall c :: c in Missing(rules, want) <==>
            exists r | r in want :: r.client == c && InForce(rules, c) != r.privilege
    ensures Missing(rules, want) == [] <==> Granted(rules, want)
  {
    if want != [] {
      var n := |want| - 1;
      var front, r := want[..n], want[n];
      MissingTells(rules, front);
      assert want == front + [r];
      assert forall q :: q in want <==> q in front || q == r;
      forall c
        ensures c in Missing(rules, want) <==> exists q | q in want :: q.client == c && InForce(rules, c) != q.privilege
      {
        if c == r.client && InForce(rules, c) != r.privilege {
          assert r in want;
        }
      }
    }
  }

  lemma {:induction false} LastRuleCounts(rules: seq<Rule>, r: Rule)
    requires r in rules && Consistent(rules)
    ensures InForce(rules, r.client) == r.privilege
  {
    var n := |rules| - 1;
    if rules[n].client != r.client {
      assert r in rules[..n];
      LastRuleCounts(rules[..n], r);
    }
  }

  // Some rules grant what is wanted exactly when no client is wanted with two privileges, and then the
  // wanted rules themselves do.
  lemma GrantableIffConsistent(want: seq<Rule>)
    ensures Granted(want, want) <==> Consistent(want)
    ensures (exists rules :: Granted(rules, want)) <==> Consistent(want)
  {
    if Consistent(want) {
      forall r | r in want ensures InForce(want, r.client) == r.privilege {
        LastRuleCounts(want, r);
      }
      assert Granted(want, want);
    }
  }

  // ---- saving and reading back ----

  datatype Outcome = Saved | SaveRefused(error: ShareError) | ReadFailed(error: ShareError) | NotApplied

  function ErrorOf(v: Verdict): ShareError
    requires !v.Done?
  {
    v.error
  }

  // One save and one read.
  ghost function Attempted(net: Network, s: Session, share: string, want: seq<Rule>): (Outcome, Session) {
    var (saved, s1) := Performed(net, s, SaveRules(share, want));
    if !saved.Done? then (SaveRefused(ErrorOf(saved)), s1)
    else
      var (read, s2) := Performed(net, s1, LoadRules(share));
      if !read.Done? then (ReadFailed(ErrorOf(read)), s2)
      else if Granted(s2.wire.RulesOf(share), want) then (Saved, s2) else (NotApplied, s2)
  }

  predicate WorthRetrying(o: Outcome) {
    o.ReadFailed? || o.NotApplied?
  }

  ghost function SaveRun(net: Network, s: Session, share: string, want: seq<Rule>, retries: nat): (Outcome, Session)
    decreases retries
  {
    var (o, s1) := Attempted(net, s, share, want);
    if WorthRetrying(o) && retries > 0 then SaveRun(net, s1, share, want, retries - 1) else (o, s1)
  }

  method SaveOnce(api: WebApi, share: string, want: seq<Rule>) returns (o: Outcome)
    modifies api
    ensures (o, api.State()) == Attempted(api.net, old(api.State()), share, want)
  {
    var saved := api.Perform(SaveRules(share, want));
    if !saved.Done? {
      return SaveRefused(saved.error);
    }
    var read := api.Perform(LoadRules(share));
    if !read.Done? {
      return ReadFailed(read.error);
    }
    var missing := MissingRules(api.wire.RulesOf(share), want);
    return if missing == [] then Saved else NotApplied;
  }

  // ShareNfsPrivilegeSave, with the number of retries its time limit leaves.
  method ShareNfsPrivilegeSave(api: WebApi, share: string, want: seq<Rule>, retries: nat) returns (o: Outcome)
    modifies api
    ensures (o, api.State()) == SaveRun(api.net, old(api.State()), share, want, retries)
    ensures o == Saved ==> Granted(api.wire.RulesOf(share), want)
  {
    hide Performed;
    var left := retries;
    o := SaveOnce(api, share, want);
    while WorthRetrying(o) && left > 0
      invariant SaveRun(api.net, old(api.State()), share, want, retries)
             == if WorthRetrying(o) && left > 0
                then SaveRun(api.net, api.State(), share, want, left - 1)
                else (o, api.State())
      invariant o == Saved ==> Granted(api.wire.RulesOf(share), want)
      decreases left
    {
      left := left - 1;
      o := SaveOnce(api, share, want);
    }
  }

  // Success means the rules were read back and grant what was wanted.
  lemma {:induction false} SavedIsGranted(net: Network, s: Session, share: string, want: seq<Rule>, retries: nat)
    ensures SaveRun(net, s, share, want, retries).0 == Saved ==>
              Consistent(want) && Granted(SaveRun(net, s, share, want, retries).1.wire.RulesOf(share), want)
    decreases retries
  {
    hide Performed;
    var (o, s1) := Attempted(net, s, share, want);
    if WorthRetrying(o) && retries > 0 {
      SavedIsGranted(net, s1, share, want, retries - 1);
    }
  }

  // Every reply from send n on is a success; save sends take effect from the k-th on, nothing else changes.
  ghost predicate DropsFirst(net: Network, n: nat, k: nat) {
    forall m, sid, op | m >= n ::
          net.answer(m, sid, op) == Exchange(Reply(true, 0), if op.SaveRules? && m - n >= 2 * k then Took else Dropped)
  }

  // A DSM that silently drops the first k saves is written to until one holds: k + 1 saves, each read back once.
  lemma {:induction false} DroppedSavesAreRepeated(net: Network, s: Session, share: string, want: seq<Rule>,
                                                   retries: nat, k: nat)
    requires DropsFirst(net, s.wire.sends, k) && Consistent(want)
    requires !Granted(s.wire.RulesOf(share), want)
    ensures var (o, s1) := SaveRun(net, s, share, want, retries);
            if k <= retries then
              && o == Saved && s1.wire.RulesOf(share) == want && s1.wire.applied == s.wire.applied + 1
              && s1.wire.saves == s.wire.saves + k + 1 && s1.wire.loads == s.wire.loads + k + 1
              && s1.wire.sends == s.wire.sends + 2 * (k + 1)
            else
              && o == NotApplied && s1.wire.rules == s.wire.rules
              && s1.wire.saves == s.wire.saves + retries + 1 && s1.wire.loads == s.wire.loads + retries + 1
    decreases k
  {
    hide SaveRun, Granted, Consistent, InForce, Performed;
    var s1 := AttemptOn(net, s, share, want, k);
    SaveRunUnfolds(net, s, share, want, retries);
    if k > 0 && retries > 0 {
      DropsShift(net, s.wire.sends, k);
      DroppedSavesAreRepeated(net, s1, share, want, retries - 1, k - 1);
    }
  }

  lemma SaveRunUnfolds(net: Network, s: Session, share: string, want: seq<Rule>, retries: nat)
    ensures SaveRun(net, s, share, want, retries) ==
            var (o, s1) := Attempted(net, s, share, want);
            if WorthRetrying(o) && retries > 0 then SaveRun(net, s1, share, want, retries - 1) else (o, s1)
  {
  }

  lemma DropsShift(net: Network, n: nat, k: nat)
    requires DropsFirst(net, n, k) && k > 0
    ensures DropsFirst(net, n + 2, k - 1)
  {
  }

  lemma AttemptOn(net: Network, s: Session, share: string, want: seq<Rule>, k: nat) returns (s1: Session)
    requires DropsFirst(net, s.wire.sends, k) && Consistent(want)
    requires !Granted(s.wire.RulesOf(share), want)
    ensures Attempted(net, s, share, want) == (if k == 0 then Saved else NotApplied, s1)
    ensures s1.wire.sends == s.wire.sends + 2 && s1.wire.saves == s.wire.saves + 1 && s1.wire.loads == s.wire.loads + 1
    ensures k == 0 ==> s1.wire.RulesOf(share) == want && s1.wire.applied == s.wire.applied + 1
    ensures k > 0 ==> s1.wire.rules == s.wire.rules && s1.wire.applied == s.wire.applied
  {
    hide Granted, Consistent, InForce;
    GrantableIffConsistent(want);
    var n := s.wire.sends;
    var save := SaveRules(share, want);
    assert net.answer(n, s.sid, save) == Exchange(Reply(true, 0), if k == 0 then Took else Dropped);
    assert net.answer(n + 1, s.sid, LoadRules(share)) == Exchange(Reply(true, 0), Dropped);
    var mid := Performed(net, s, save).1;
    assert mid.sid == s.sid && mid.wire.sends == n + 1;
    s1 := Performed(net, mid, LoadRules(share)).1;
  }

  // ---- what the node asks for ----

  // setNFSVolumePrivilege: every node may read and write.
  function WantedRules(hostnames: seq<string>, privilege: string): seq<Rule> {
    seq(|hostnames|, i requires 0 <= i < |hostnames| => Rule(hostnames[i], privilege))
  }

  // They grant the privilege to every host, and saved as they are to no other client.
  lemma WantedRulesCover(hostnames: seq<string>, privilege: string)
    ensures forall rule :: rule in WantedRules(hostnames, privilege) <==>
              rule.client in hostnames && rule.privilege == privilege
    ensures forall rules: seq<Rule> :: Granted(rules, WantedRules(hostnames, privilege)) <==>
              forall h | h in hostnames :: InForce(rules, h) == privilege
    ensures forall client ::
              InForce(WantedRules(hostnames, privilege), client) == if client in hostnames then privilege else ""
  {
    var want := WantedRules(hostnames, privilege);
    forall rule ensures rule in want <==> rule.client in hostnames && rule.privilege == privilege {
      if rule.client in hostnames && rule.privilege == privilege {
        var i :| 0 <= i < |hostnames| && hostnames[i] == rule.client;
        assert want[i] == rule;
      }
    }
    forall rules: seq<Rule> | Granted(rules, want) ensures forall h | h in hostnames :: InForce(rules, h) == privilege {
      assert forall h | h in hostnames :: Rule(h, privilege) in want;
    }
    forall client ensures InForce(want, client) == if client in hostnames then privilege else "" {
      if client in hostnames {
        assert Rule(client, privilege) in want;
        LastRuleCounts(want, Rule(client, privilege));
      } else {
        NoRuleNoPrivilege(want, client);
      }
    }
  }

  lemma {:induction false} NoRuleNoPrivilege(rules: seq<Rule>, client: string)
    requires forall r | r in rules :: r.client != client
    ensures InForce(rules, client) == ""
  {
    if rules != [] {
      assert rules[|rules| - 1] in rules;
      NoRuleNoPrivilege(rules[..|rules| - 1], client);
    }
  }

  // What the node asks for can always be confirmed: the rules themselves grant it.
  lemma WantedRulesAreGrantable(hostnames: seq<string>, privilege: string)
    ensures Granted(WantedRules(hostnames, privilege), WantedRules(hostnames, privilege))
  {
    GrantableIffConsistent(WantedRules(hostnames, privilege));
  }

  // So a DSM that drops the node's first k saves ends up with its rules, if the time limit leaves k retries.
  lemma NodeRulesGetThrough(net: Network, s: Session, share: string, hostnames: seq<string>, privilege: string,
                            retries: nat, k: nat)
    requires DropsFirst(net, s.wire.sends, k) && k <= retries
    requires !Granted(s.wire.RulesOf(share), WantedRules(hostnames, privilege))
    ensures var want := WantedRules(hostnames, privilege);
            var (o, s1) := SetRun(net, s, share, want, true, retries);
            && o == Saved && s1.wire.RulesOf(share) == want && s1.wire.saves == s.wire.saves + k + 1
            && forall client ::
                 InForce(s1.wire.RulesOf(share), client) == if client in hostnames then privilege else ""
  {
    var want := WantedRules(hostnames, privilege);
    WantedRulesCover(hostnames, privilege);
    WantedRulesAreGrantable(hostnames, privilege);
    GrantableIffConsistent(want);
    DroppedSavesAreRepeated(net, s, share, want, retries, k);
  }

  // The DSM and share named by a source path.
  function ParseSource(path: string): Option<(string, string)> {
    var parts := Split(if "//" <= path then path[2..] else path, '/');
    if |parts| == 2 then Some((parts[0], parts[1])) else None
  }

  datatype SetError = BadSource | UnknownDsm | SaveFailed(outcome: Outcome)

  ghost function SetRun(net: Network, s: Session, share: string, want: seq<Rule>, force: bool, retries: nat)
    : (Outcome, Session)
  {
    if force then SaveRun(net, s, share, want, retries)
    else
      var (read, s1) := Performed(net, s, LoadRules(share));
      if read.Done? && Granted(s1.wire.RulesOf(share), want)
      then (Saved, s1)
      else SaveRun(net, s1, share, want, retries)
  }

  method SetNfsVolumePrivilege(dsms: map<string, WebApi>, sourcePath: string, hostnames: seq<string>, privilege: string,
                               force: bool, retries: nat)
    returns (r: Result<(), SetError>)
    modifies dsms.Values
    ensures r == Err(BadSource) <==> ParseSource(sourcePath).None?
    ensures r == Err(UnknownDsm) <==> ParseSource(sourcePath).Some? && ParseSource(sourcePath).value.0 !in dsms
    ensures r != Err(BadSource) && r != Err(UnknownDsm) ==>
              var (ip, share) := ParseSource(sourcePath).value;
              && (if r.Ok? then Saved else r.error.outcome, dsms[ip].State())
              == SetRun(dsms[ip].net, old(dsms[ip].State()), share, WantedRules(hostnames, privilege), force, retries)
              && (r.Ok? ==> Granted(dsms[ip].wire.RulesOf(share), WantedRules(hostnames, privilege)))
    // Success means that every host has the privilege, as read last; nothing is saved exactly if a first read, which is
    // skipped when forced, showed that already.
    ensures r.Ok? ==>
              var (ip, share) := ParseSource(sourcePath).value;
              forall h | h in hostnames :: InForce(dsms[ip].wire.RulesOf(share), h) == privilege
    ensures r != Err(BadSource) && r != Err(UnknownDsm) ==>
              var (ip, share) := ParseSource(sourcePath).value;
              var (read, s1) := Performed(dsms[ip].net, old(dsms[ip].State()), LoadRules(share));
              dsms[ip].wire.saves == old(dsms[ip].wire.saves) <==>
                !force && read.Done? && forall h | h in hostnames :: InForce(s1.wire.RulesOf(share), h) == privilege
    ensures forall d | d in dsms.Values
            && (r == Err(BadSource) || r == Err(UnknownDsm) || d != dsms[ParseSource(sourcePath).value.0]) ::
                  unchanged(d)
  {
    hide Performed, SaveRun, Granted, Split, InForce, WantedRules;
    var source := ParseSource(sourcePath);
    if source.None? {
      return Err(BadSource);
    }
    var (ip, share) := source.value;
    if ip !in dsms {
      return Err(UnknownDsm);
    }
    var api, want := dsms[ip], WantedRules(hostnames, privilege);
    WantedRulesCover(hostnames, privilege);
    SetSavesIff(api.net, api.State(), share, want, force, retries);
    if !force {
      var read := api.Perform(LoadRules(share));
      if read.Done? {
        var missing := MissingRules(api.wire.RulesOf(share), want);
        if missing == [] {
          return Ok(());
        }
      }
    }
    var o := ShareNfsPrivilegeSave(api, share, want, retries);
    return if o == Saved then Ok(()) else Err(SaveFailed(o));
  }

  // A path names share b on DSM a, written with or without the leading slashes, and in no other way.
  lemma SourceNames(path: string, ip: string, share: string)
    ensures ParseSource(path) == Some((ip, share)) <==>
            && '/' !in ip && '/' !in share
            && (path == "//" + ip + "/" + share || path == ip + "/" + share)
  {
    if path == "//" + ip + "/" + share {
      assert path[2..] == ip + "/" + share;
    }
    SplitIff(if "//" <= path then path[2..] else path, [ip, share], '/');
    assert [ip, share][1..] == [share];
    assert "//" <= path ==> path == "//" + path[2..];
    if path == ip + "/" + share && "//" <= path && '/' !in ip {
      assert path[0] == '/' && path[1] == '/';
      assert ip == "" && share[0] == '/';
    }
  }

  // Rules already in force are left alone: one read, no save.
  lemma GrantedRulesAreNotSaved(net: Network, s: Session, share: string, want: seq<Rule>, retries: nat)
    ensures var (read, s1) := Performed(net, s, LoadRules(share));
            read.Done? && Granted(s1.wire.RulesOf(share), want) ==>
              SetRun(net, s, share, want, false, retries) == (Saved, s1) && s1.wire.saves == s.wire.saves
  {
    hide Performed;
    ReadSavesNothing(net, s, share);
  }

  // And any others are saved.
  lemma SetSavesIff(net: Network, s: Session, share: string, want: seq<Rule>, force: bool, retries: nat)
    ensures var (read, s1) := Performed(net, s, LoadRules(share));
            SetRun(net, s, share, want, force, retries).1.wire.saves == s.wire.saves <==>
            !force && read.Done? && Granted(s1.wire.RulesOf(share), want)
  {
    hide Performed, SaveRun;
    ReadSavesNothing(net, s, share);
    SaveRunSaves(net, if force then s else Performed(net, s, LoadRules(share)).1, share, want, retries);
  }

  lemma ReadSavesNothing(net: Network, s: Session, share: string)
    ensures Performed(net, s, LoadRules(share)).1.wire.saves == s.wire.saves
  {
    hide Requested;
    var k := SomeAttemptIsLast(net, s, LoadRules(share), net.patience(s.wire.sends));
    LastAttemptDecides(net, s, LoadRules(share), net.patience(s.wire.sends), k);
    LoadsSaveNothing(net, s, share, k + 1);
  }

  lemma {:induction false} LoadsSaveNothing(net: Network, s: Session, share: string, k: nat)
    ensures Before(net, s, LoadRules(share), k).wire.saves == s.wire.saves
  {
    if k > 0 {
      LoadsSaveNothing(net, s, share, k - 1);
    }
  }

  lemma {:induction false} SaveRunSaves(net: Network, s: Session, share: string, want: seq<Rule>, retries: nat)
    ensures SaveRun(net, s, share, want, retries).1.wire.saves > s.wire.saves
    decreases retries
  {
    hide Performed, Granted;
    var (saved, s1) := Performed(net, s, SaveRules(share, want));
    SaveIsSent(net, s, share, want);
    ReadSavesNothing(net, s1, share);
    var (o, s2) := Attempted(net, s, share, want);
    if WorthRetrying(o) && retries > 0 {
      SaveRunSaves(net, s2, share, want, retries - 1);
    }
  }

  lemma SaveIsSent(net: Network, s: Session, share: string, want: seq<Rule>)
    ensures Performed(net, s, SaveRules(share, want)).1.wire.saves > s.wire.saves
  {
    hide Requested;
    var op := SaveRules(share, want);
    var k := SomeAttemptIsLast(net, s, op, net.patience(s.wire.sends));
    LastAttemptDecides(net, s, op, net.patience(s.wire.sends), k);
    SavesGrow(net, s, op, k + 1);
  }

  lemma {:induction false} SavesGrow(net: Network, s: Session, op: Op, k: nat)
    requires op.SaveRules?
    ensures Before(net, s, op, k).wire.saves >= s.wire.saves + k
  {
    if k > 0 {
      SavesGrow(net, s, op, k - 1);
    }
  }

  // Skipping, saving at once or saving after a failed read: success always means the rules read last grant
  // what was wanted.
  lemma SetIsGranted(net: Network, s: Session, share: string, want: seq<Rule>, force: bool, retries: nat)
    ensures SetRun(net, s, share, want, force, retries).0 == Saved ==>
              Granted(SetRun(net, s, share, want, force, retries).1.wire.RulesOf(share), want)
  {
    hide Performed;
    var s1 := if force then s else Performed(net, s, LoadRules(share)).1;
    SavedIsGranted(net, s1, share, want, retries);
  }
}
