/** NFS rules on the wire and exported shares in the world are one thing. */
module Exports {
  import opened Volumes
  import opened Worlds
  import opened Steps
  import opened Requests
  import opened NfsPrivilege

  // The shares of the DSM count as exported exactly if they have a rule.
  ghost predicate Mirrors(w: World, ip: string, wire: Wire) {
    && ip in w
    && forall name | name in w[ip].store.shares :: w[ip].store.shares[name].exported == (wire.RulesOf(name) != [])
  }

  // The step a save takes when it takes effect: the share is exported if it got a rule.
  lemma SaveIsExport(w: World, ip: string, wire: Wire, share: string, rules: seq<Rule>) returns (w': World)
    requires Mirrors(w, ip, wire) && share in w[ip].store.shares
    ensures Step(w, Exported(ip, share, rules != []), w')
    ensures Mirrors(w', ip, wire.(rules := Affected(wire.rules, SaveRules(share, rules), Took)))
  {
    w' := WithStore(w, ip, ExportedStore(w[ip].store, share, rules != []));
  }

  // A share staged over NFS, on a DSM whose rules the world mirrors afterwards, is listed as NFS from then on.
  lemma StagedShareIsNfs(w: World, ip: string, net: Network, s: Session, share: string, hostnames: seq<string>,
                         privilege: string,
                         force: bool, retries: nat, v: Volume)
    requires var (o, s1) := SetRun(net, s, share, WantedRules(hostnames, privilege), force, retries);
             o == Saved && Mirrors(w, ip, s1.wire)
    requires hostnames != [] && privilege != "" && Visible(w, v) && v.ShareVolume? && v.ip == ip && v.shareName == share
    ensures v.shareProtocol == Nfs
  {
    hide SetRun, Granted;
    var want := WantedRules(hostnames, privilege);
    var rules := SetRun(net, s, share, want, force, retries).1.wire.RulesOf(share);
    SetIsGranted(net, s, share, want, force, retries);
    GrantedIsSomething(rules, want, hostnames[0]);
  }

  lemma GrantedIsSomething(rules: seq<Rule>, want: seq<Rule>, client: string)
    requires Granted(rules, want) && want != [] && want[0].client == client && want[0].privilege != ""
    ensures rules != []
  {
    assert want[0] in want;
  }
}
