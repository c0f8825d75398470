/** When every run backs a requested name by at most one visible volume, across DSMs and protocols. */
module UniqueRuns {
  import opened Results
  import opened Names
  import opened Stores
  import opened Undoing
  import opened Outcomes
  import opened Volumes
  import opened Worlds
  import opened Steps
  import opened Created
  import Demands

  // Requests keep the first 24 bytes of their names apart.
  ghost predicate NamesDiffer(names: set<string>) {
    forall a, b | a in names && b in names && a != b :: Head24(a) != Head24(b)
  }

  ghost predicate AtMostOne(names: set<string>, w: World) {
    forall n, u, v | n in names && Visible(w, u) && Visible(w, v) && NameHit(n, u) && NameHit(n, v) :: SameBacking(u, v)
  }

  // ---- creation ----

  // The listed shares of the request's name are the created volume alone; without one that can be looked up, there is
  // one such share at most.
  ghost predicate OneBacking(volName: string, result: Option<Volume>, w': World) {
    if result.Some? && result.value.ip in w' && Findable(w', result.value) then
      forall ip | HoldsShare(w', ip, volName) :: ip == result.value.ip
    else
      forall p, q | HoldsShare(w', p, volName) && HoldsShare(w', q, volName) :: p == q
  }

  // A creation keeps at most one exactly if it leaves no second share of its name behind.
  lemma CreationKeepsAtMostOneIff(names: set<string>, w: World, w': World, volName: string, result: Option<Volume>,
                                  failed: set<(string, Undo)>)
    requires WorldValid(w) && WorldValid(w') && Step(w, Created(volName, result, failed), w')
    requires NamesDiffer(names) && volName in names && AtMostOne(names, w)
    ensures AtMostOne(names, w') <==> OneBacking(volName, result, w')
  {
    hide AtMostOne, WorldValid, Step, OneBacking;
    if OneBacking(volName, result, w') {
      OneBackingSuffices(names, w, w', volName, result, failed);
    }
    if AtMostOne(names, w') {
      OneBackingIsNeeded(names, w, w', volName, result, failed);
    }
  }

  lemma OneBackingSuffices(names: set<string>, w: World, w': World, volName: string, result: Option<Volume>,
                           failed: set<(string, Undo)>)
    requires WorldValid(w) && WorldValid(w') && Step(w, Created(volName, result, failed), w')
    requires NamesDiffer(names) && volName in names && AtMostOne(names, w) && OneBacking(volName, result, w')
    ensures AtMostOne(names, w')
  {
    hide Visible, NameHit, WorldValid, Step, SameBacking, OneBacking;
    forall n, u, v | n in names && Visible(w', u) && Visible(w', v) && NameHit(n, u) && NameHit(n, v)
      ensures SameBacking(u, v)
    {
      HitComesFrom(w, w', volName, result, failed, n, u);
      HitComesFrom(w, w', volName, result, failed, n, v);
      if n == volName {
        OwnHitsAgree(w, w', volName, result, failed, u, v);
      } else {
        var u0: Volume :| Visible(w, u0) && SameBacking(u, u0) && NameHit(n, u0);
        var v0: Volume :| Visible(w, v0) && SameBacking(v, v0) && NameHit(n, v0);
        SameThrough(u, u0, v0, v);
      }
    }
  }

  lemma SameThrough(u: Volume, u0: Volume, v0: Volume, v: Volume)
    requires SameBacking(u, u0) && SameBacking(u0, v0) && SameBacking(v, v0)
    ensures SameBacking(u, v)
  {
  }

  lemma OwnHitsAgree(w: World, w': World, volName: string, result: Option<Volume>, failed: set<(string, Undo)>,
                     u: Volume, v: Volume)
    requires WorldValid(w) && WorldValid(w') && Step(w, Created(volName, result, failed), w')
    requires OneBacking(volName, result, w')
    requires Visible(w', u) && NameHit(volName, u) && Visible(w', v) && NameHit(volName, v)
    ensures SameBacking(u, v)
  {
    hide Visible, NameHit, WorldValid, Step;
    HitComesFrom(w, w', volName, result, failed, volName, u);
    HitComesFrom(w, w', volName, result, failed, volName, v);
    if result.Some? {
      if SameBacking(u, result.value) || SameBacking(v, result.value) {
        VisibleIsFindable(w', if SameBacking(u, result.value) then u else v, result.value);
        OnlyTheCreatedHolds(w, w', volName, result.value, failed);
      }
    }
  }

  // The DSM of a created LUN or namespace lists no share of the name: it would have been a hit before.
  lemma OnlyTheCreatedHolds(w: World, w': World, volName: string, v: Volume, failed: set<(string, Undo)>)
    requires Step(w, Created(volName, Some(v), failed), w')
    ensures v.ip in w' && (HoldsShare(w', v.ip, volName) ==> v.ShareVolume? && v.shareName == GenShareName(volName))
  {
    if HoldsShare(w', v.ip, volName) && !v.ShareVolume? {
      assert HoldsShare(w, v.ip, volName);
      var _ := HeldShareIsHit(w, v.ip, volName);
    }
  }

  lemma OneBackingIsNeeded(names: set<string>, w: World, w': World, volName: string, result: Option<Volume>,
                           failed: set<(string, Undo)>)
    requires WorldValid(w) && WorldValid(w') && Step(w, Created(volName, result, failed), w')
    requires volName in names && AtMostOne(names, w')
    ensures OneBacking(volName, result, w')
  {
    hide Visible, NameHit, WorldValid, HoldsShare;
    forall p, q | HoldsShare(w', p, volName) && HoldsShare(w', q, volName) ensures p == q {
      var u := HeldShareIsHit(w', p, volName);
      var v := HeldShareIsHit(w', q, volName);
      assert SameBacking(u, v);
    }
    if result.Some? && result.value.ip in w' && Findable(w', result.value) {
      var v := CreatedIsVisible(volName, w, w', result.value, failed);
      forall p | HoldsShare(w', p, volName) ensures p == result.value.ip {
        var u := HeldShareIsHit(w', p, volName);
        assert SameBacking(u, v);
      }
    }
  }

  // A creation whose failed undo calls left no share behind leaves no second one.
  ghost predicate NoShareLeftOver(failed: set<(string, Undo)>) {
    forall f | f in failed :: !f.1.UndoShare?
  }

  lemma NothingLeftIsOneBacking(w: World, w': World, volName: string, result: Option<Volume>,
                                failed: set<(string, Undo)>)
    requires WorldValid(w) && WorldValid(w') && Step(w, Created(volName, result, failed), w') && NoShareLeftOver(failed)
    ensures OneBacking(volName, result, w')
  {
    hide Visible, NameHit, WorldValid, Step;
    forall ip | HoldsShare(w', ip, volName) ensures result.Some? && ip == result.value.ip {
      var u := HeldShareIsHit(w', ip, volName);
      HitComesFrom(w, w', volName, result, failed, volName, u);
      if result.Some? && SameBacking(u, result.value) {
        SameBackingSameIp(u, result.value);
      }
    }
  }

  // ---- the other steps show nothing new ----

  lemma DeletionShowsNothingNew(w: World, w': World, v: Volume, u: Volume)
    requires Step(w, Deleted(v), w') && Visible(w', u)
    ensures VisibleBefore(w, u)
  {
    var a, b := w[u.ip], w'[u.ip];
    match u
    case LunVolume(ip, lunId, lun, targetId, target) =>
      var u0 := LunVolume(ip, lunId, lun, targetId, a.store.targets[targetId]);
      var m :| m in target.mapped && m.lun == lunId;
      assert m in a.store.targets[targetId].mapped;
      assert Visible(w, u0) && SameBacking(u, u0);
    case NamespaceVolume(ip, nsId, ns, subsystemId, subsystem) =>
      assert Visible(w, u) && SameBacking(u, u);
    case ShareVolume(ip, name, share, _) =>
      assert Visible(w, u) && SameBacking(u, u);
  }

  lemma ExpansionShowsNothingNew(w: World, w': World, v: Volume, newSize: nat, u: Volume)
    requires Step(w, Expanded(v, newSize), w') && Visible(w', u)
    ensures VisibleBefore(w, u)
  {
    var a := w[u.ip].store;
    var u0 := match u
      case LunVolume(ip, lunId, lun, targetId, target) => LunVolume(ip, lunId, a.luns[lunId], targetId, target)
      case NamespaceVolume(ip, nsId, ns, subsystemId, subsystem) =>
          NamespaceVolume(ip, nsId, a.namespaces[nsId], subsystemId, subsystem)
      case ShareVolume(ip, name, share, p) => ShareVolume(ip, name, a.shares[name], p);
    assert Visible(w, u0) && SameBacking(u, u0);
  }

  lemma ExportShowsNothingNew(w: World, w': World, ip: string, share: string, rules: bool, u: Volume)
    requires Step(w, Exported(ip, share, rules), w') && Visible(w', u)
    ensures VisibleBefore(w, u)
  {
    var u0 := u;
    if u.ShareVolume? {
      var s := w[u.ip].store.shares[u.shareName];
      u0 := ShareVolume(u.ip, u.shareName, s, ShareProtocol(s));
    }
    assert Visible(w, u0) && SameBacking(u, u0);
  }

  lemma ShowingNothingNewKeepsAtMostOne(names: set<string>, w: World, w': World)
    requires AtMostOne(names, w) && forall u | Visible(w', u) :: VisibleBefore(w, u)
    ensures AtMostOne(names, w')
  {
    hide Visible, NameHit, SameBacking;
    forall n, u, v | n in names && Visible(w', u) && Visible(w', v) && NameHit(n, u) && NameHit(n, v)
      ensures SameBacking(u, v)
    {
      var u0: Volume :| Visible(w, u0) && SameBacking(u, u0) && u0.Name() == u.Name();
      var v0: Volume :| Visible(w, v0) && SameBacking(v, v0) && v0.Name() == v.Name();
      HitsAgree(n, u, u0);
      HitsAgree(n, v, v0);
      SameBackingIsTransitive(v, v0, v0);
      SameBackingIsTransitive(u, u0, v0);
      SameBackingIsTransitive(u, v0, v);
    }
  }

  // ---- steps and runs ----

  ghost predicate Requested(names: set<string>, e: Event) {
    e.Created? ==> e.volName in names
  }

  ghost predicate LeavesOne(e: Event, w': World) {
    e.Created? ==> OneBacking(e.volName, e.result, w')
  }

  lemma StepKeepsAtMostOneIff(names: set<string>, w: World, e: Event, w': World)
    requires WorldValid(w) && WorldValid(w') && Step(w, e, w')
    requires NamesDiffer(names) && Requested(names, e) && AtMostOne(names, w)
    ensures AtMostOne(names, w') <==> LeavesOne(e, w')
  {
    hide AtMostOne, Step, Visible, WorldValid, OneBacking;
    match e
    case Created(volName, result, failed) =>
      CreationKeepsAtMostOneIff(names, w, w', volName, result, failed);
    case Deleted(v) =>
      forall u | Visible(w', u) ensures VisibleBefore(w, u) { DeletionShowsNothingNew(w, w', v, u); }
      ShowingNothingNewKeepsAtMostOne(names, w, w');
    case Expanded(v, newSize) =>
      forall u | Visible(w', u) ensures VisibleBefore(w, u) { ExpansionShowsNothingNew(w, w', v, newSize, u); }
      ShowingNothingNewKeepsAtMostOne(names, w, w');
    case Exported(ip, share, rules) =>
      forall u | Visible(w', u) ensures VisibleBefore(w, u) { ExportShowsNothingNew(w, w', ip, share, rules, u); }
      ShowingNothingNewKeepsAtMostOne(names, w, w');
    case Unchanged => UnchangedStep(w, w');
  }

  lemma UnchangedStep(w: World, w': World)
    requires Step(w, Unchanged, w')
    ensures w' == w
  {
  }

  ghost predicate AlwaysAtMostOne(names: set<string>, worlds: seq<World>) {
    forall i | 0 <= i < |worlds| :: AtMostOne(names, worlds[i])
  }

  ghost predicate AlwaysLeavesOne(worlds: seq<World>, events: seq<Event>)
    requires |worlds| == |events| + 1
  {
    forall i | 0 <= i < |events| :: LeavesOne(events[i], worlds[i + 1])
  }

  ghost predicate AllRequested(names: set<string>, events: seq<Event>) {
    forall i | 0 <= i < |events| :: Requested(names, events[i])
  }

  // A run of requests with names apart keeps at most one visible volume per name exactly if none of its creations
  // leaves a second share of its name.
  lemma {:induction false} RunKeepsAtMostOneIff(names: set<string>, worlds: seq<World>, events: seq<Event>)
    requires Run(worlds, events) && NamesDiffer(names) && AllRequested(names, events) && AtMostOne(names, worlds[0])
    ensures AlwaysAtMostOne(names, worlds) <==> AlwaysLeavesOne(worlds, events)
  {
    hide AtMostOne, Step, WorldValid, LeavesOne, Requested;
    if events != [] {
      var n := |events| - 1;
      var front, before := worlds[..n + 1], events[..n];
      assert Run(front, before);
      RunKeepsAtMostOneIff(names, front, before);
      assert front[n] == worlds[n];
      assert AlwaysAtMostOne(names, worlds) <==> AlwaysAtMostOne(names, front) && AtMostOne(names, worlds[n + 1]) by {
        assert forall i | 0 <= i < n + 1 :: front[i] == worlds[i];
      }
      assert AlwaysLeavesOne(worlds, events) <==>
             AlwaysLeavesOne(front, before) && LeavesOne(events[n], worlds[n + 1]) by {
        assert forall i | 0 <= i < n :: before[i] == events[i] && front[i + 1] == worlds[i + 1];
      }
      assert Requested(names, events[n]);
      if AlwaysAtMostOne(names, front) {
        StepKeepsAtMostOneIff(names, worlds[n], events[n], worlds[n + 1]);
      }
    }
  }

  // The steps of a run that creates only requested names, and whose failed undo calls left no share behind.
  ghost predicate Disciplined(names: set<string>, events: seq<Event>) {
    AllRequested(names, events) && forall e | e in events && e.Created? :: NoShareLeftOver(e.failed)
  }

  lemma RunKeepsAtMostOne(names: set<string>, worlds: seq<World>, events: seq<Event>)
    requires Run(worlds, events) && NamesDiffer(names) && Disciplined(names, events) && AtMostOne(names, worlds[0])
    ensures AlwaysAtMostOne(names, worlds)
  {
    hide AtMostOne, WorldValid, OneBacking;
    forall i | 0 <= i < |events| && events[i].Created?
      ensures OneBacking(events[i].volName, events[i].result, worlds[i + 1])
    {
      NothingLeftIsOneBacking(worlds[i], worlds[i + 1], events[i].volName, events[i].result, events[i].failed);
    }
    RunKeepsAtMostOneIff(names, worlds, events);
  }

  // ---- which requests put it at risk ----

  // What a creation answering a request may do: the volume is of the kind asked for and a LUN's target takes the
  // sessions asked for, and shares come up only where one of that request may be tried.
  ghost predicate MadeFor(p: Params, w: World, e: Event, w': World) {
    e.Created? ==>
      && Demands.SharesSpared(p, w, w')
      && (e.result.Some? ==>
            var v := e.result.value;
            && v.Protocol() == p.protocol && (v.ShareVolume? ==> p.protocol.IsShare())
            && v.ip in w && v.ip in w' && Demands.SessionsFit(p, w[v.ip].store, w'[v.ip].store, v))
  }

  // A share is to be made from nothing on any DSM, and two of them list shares.
  ghost predicate OpenToMany(p: Params, w: World) {
    && p.protocol.IsShare() && p.source.NoSource? && p.dsmIp == ""
    && exists a, b | a in w && b in w && a != b :: !w[a].isUc && !w[b].isUc
  }

  // Whatever calls and undo calls fail, any other request leaves no second share of its name.
  lemma OthersLeaveOne(p: Params, volName: string, w: World, w': World, result: Option<Volume>,
                       failed: set<(string, Undo)>)
    requires Step(w, Created(volName, result, failed), w')
    requires MadeFor(p, w, Created(volName, result, failed), w') && !OpenToMany(p, w)
    ensures OneBacking(volName, result, w')
  {
    hide Visible, NameHit, Residue;
    forall ip | HoldsShare(w', ip, volName)
      ensures ip in w && !w[ip].isUc && w'[ip].store.shares != w[ip].store.shares
    {
      if w'[ip].store.shares == w[ip].store.shares {
        var _ := HeldShareIsHit(w, ip, volName);
      }
    }
    if result.Some? && Findable(w', result.value) && result.value.ShareVolume? {
      assert HoldsShare(w', result.value.ip, volName);
    }
  }

  // So a run without requests open to many keeps at most one visible volume per name, which its callers can tell
  // before each call.
  lemma OthersKeepAtMostOne(names: set<string>, worlds: seq<World>, events: seq<Event>, requests: seq<Params>)
    requires Run(worlds, events) && NamesDiffer(names) && AllRequested(names, events) && AtMostOne(names, worlds[0])
    requires |requests| == |events|
    requires forall i | 0 <= i < |events| ::
               MadeFor(requests[i], worlds[i], events[i], worlds[i + 1]) && !OpenToMany(requests[i], worlds[i])
    ensures AlwaysAtMostOne(names, worlds)
  {
    hide AtMostOne, WorldValid, OneBacking, MadeFor, OpenToMany;
    forall i | 0 <= i < |events| && events[i].Created?
      ensures OneBacking(events[i].volName, events[i].result, worlds[i + 1])
    {
      OthersLeaveOne(requests[i], events[i].volName, worlds[i], worlds[i + 1], events[i].result, events[i].failed);
    }
    RunKeepsAtMostOneIff(names, worlds, events);
  }

  // ---- the conditions are needed ----

  // Every disciplined run keeps at most one volume per name exactly if the names differ in their first 24 bytes.
  lemma NamesMustDiffer(names: set<string>)
    ensures NamesDiffer(names) <==>
            forall worlds, events | Run(worlds, events) && Disciplined(names, events) && AtMostOne(names, worlds[0]) ::
              AlwaysAtMostOne(names, worlds)
  {
    hide AtMostOne, Step, WorldValid, Disciplined;
    if NamesDiffer(names) {
      forall worlds, events | Run(worlds, events) && Disciplined(names, events) && AtMostOne(names, worlds[0])
        ensures AlwaysAtMostOne(names, worlds)
      {
        RunKeepsAtMostOne(names, worlds, events);
      }
    } else {
      var a, b :| a in names && b in names && a != b && Head24(a) == Head24(b);
      if a == Head24(a) {
        a, b := b, a;
      }
      var worlds, events := SameHeadsRun(names, a, b);
    }
  }

  // From an empty DSM: a LUN for one name, then a share for another with the same head, both visible for the first.
  lemma SameHeadsRun(names: set<string>, a: string, b: string) returns (worlds: seq<World>, events: seq<Event>)
    requires a in names && b in names && a != b && Head24(a) == Head24(b) != a
    ensures Run(worlds, events) && Disciplined(names, events) && AtMostOne(names, worlds[0])
    ensures !AlwaysAtMostOne(names, worlds)
  {
    hide Step, WorldValid, AtMostOne, OneDsm, Visible;
    var empty := OneDsm(OnlyShares(map[]));
    worlds := [empty, OneDsm(LunStore(a)), OneDsm(LunAndShareStore(a, b))];
    events := [Created(a, Some(MadeLun(a)), {}), Created(b, Some(MadeShare(b)), {})];
    NothingVisible();
    StoresAreValid(a, b);
    FirstCreation(a);
    SecondCreation(a, b);
    BothAreHits(names, a, b);
    assert AtMostOne(names, empty) by { NoneShown(names, empty); }
    assert Run(worlds, events);
    assert !AtMostOne(names, worlds[2]);
  }

  function OneDsm(s: Store): World {
    map["x" := Box(false, false, s)]
  }

  const A_SHARE := Share("2", "/volume1", 1024, false)

  function LunStore(a: string): Store {
    Store(map["1" := Lun(GenBackendName(a), 1, "/volume1")],
          map[1 := Target(GenBackendName(a), 1, [Mapping("1", 1)])],
          map[], map[], map[])
  }

  function LunAndShareStore(a: string, b: string): Store {
    LunStore(a).(shares := map[GenShareName(b) := A_SHARE])
  }

  function MadeLun(a: string): Volume {
    LunVolume("x", "1", Lun(GenBackendName(a), 1, "/volume1"), 1, Target(GenBackendName(a), 1, []))
  }

  function MadeShare(b: string): Volume {
    ShareVolume("x", GenShareName(b), A_SHARE, Smb)
  }

  lemma NothingVisible()
    ensures forall v :: !Visible(OneDsm(OnlyShares(map[])), v)
  {
  }

  lemma StoresAreValid(a: string, b: string)
    ensures WorldValid(OneDsm(OnlyShares(map[]))) && WorldValid(OneDsm(LunStore(a)))
    ensures WorldValid(OneDsm(LunAndShareStore(a, b)))
  {
    LunStoreIsValid(a);
    var s, t := LunStore(a), LunAndShareStore(a, b);
    assert t.UniqueNames() && t.Valid();
  }

  lemma LunStoreIsValid(a: string)
    ensures LunStore(a).Valid()
  {
  }

  lemma FirstCreation(a: string)
    requires forall v :: !Visible(OneDsm(OnlyShares(map[])), v)
    ensures Step(OneDsm(OnlyShares(map[])), Created(a, Some(MadeLun(a)), {}), OneDsm(LunStore(a)))
  {
    hide Visible, NameHit;
    var target := Target(GenBackendName(a), 1, [Mapping("1", 1)]);
    assert target.mapped[..0] == [] && target.mapped[0].lun == "1";
    assert Built(NamesFor(a), Box(false, false, OnlyShares(map[])), LunStore(a), MadeLun(a));
  }

  lemma SecondCreation(a: string, b: string)
    requires a != b && Head24(a) == Head24(b) != a
    ensures Step(OneDsm(LunStore(a)), Created(b, Some(MadeShare(b)), {}), OneDsm(LunAndShareStore(a, b)))
  {
    hide Visible, NameHit;
    LunIsNoHit(a, b);
    assert Built(NamesFor(b), Box(false, false, LunStore(a)), LunAndShareStore(a, b), MadeShare(b));
  }

  lemma LunIsNoHit(a: string, b: string)
    requires a != b && Head24(b) != a
    ensures forall v | Visible(OneDsm(LunStore(a)), v) :: !NameHit(b, v)
  {
    PrefixCancels(a, b);
    ShareNameIsBackendOfHead(b);
    PrefixCancels(a, Head24(b));
    forall v | Visible(OneDsm(LunStore(a)), v) ensures !NameHit(b, v) {
      assert v.Name() == GenBackendName(a);
      if NameHit(b, v) {
        HitIsNameMatch(b, v);
      }
    }
  }

  lemma BothAreHits(names: set<string>, a: string, b: string)
    requires a in names && Head24(a) == Head24(b)
    ensures !AtMostOne(names, OneDsm(LunAndShareStore(a, b)))
  {
    var w, target := OneDsm(LunAndShareStore(a, b)), Target(GenBackendName(a), 1, [Mapping("1", 1)]);
    var u, v := LunVolume("x", "1", Lun(GenBackendName(a), 1, "/volume1"), 1, target), MadeShare(b);
    GeneratedNamesAreCsi(a);
    GeneratedNamesAreCsi(b);
    ShareNamesCollide(a, b);
    assert Mapping("1", 1) in target.mapped;
    assert Visible(w, u) && Visible(w, v) && NameHit(a, u) && NameHit(a, v);
  }

  // A creation that fails on one DSM, where its share stays, and succeeds on the next.
  lemma LeftOverShareDuplicates(volName: string) returns (w: World, w': World, v: Volume, failed: set<(string, Undo)>)
    ensures WorldValid(w) && WorldValid(w') && Step(w, Created(volName, Some(v), failed), w')
    ensures failed == {("a", UndoShare(GenShareName(volName)))}
    ensures forall p: Params | p.protocol == Smb && p.source.NoSource? && p.dsmIp == "" ::
              OpenToMany(p, w) && MadeFor(p, w, Created(volName, Some(v), failed), w')
    ensures AtMostOne({volName}, w) && !AtMostOne({volName}, w')
  {
    hide Residue, Built, NameHit, WorldValid, AtMostOne, Visible;
    var name := GenShareName(volName);
    var left, made := Share("1", "/volume1", 1024, false), Share("2", "/volume1", 1024, false);
    w, w' := TwoDsms(map[], map[]), TwoDsms(map[name := left], map[name := made]);
    failed := {("a", UndoShare(name))};
    v := ShareVolume("b", name, made, Smb);
    var u := ShareVolume("a", name, left, Smb);
    OneShareEach(volName, left, made);
    SharesShow(map[], map[]);
    SharesShow(map[name := left], map[name := made]);
    assert Visible(w', u) && Visible(w', v);
    assert AtMostOne({volName}, w) by { NoneShown({volName}, w); }
    assert FailedOn(failed, "a") == {UndoShare(name)} by {
      assert ("a", UndoShare(name)) in failed;
    }
    assert SameBoxes(w, w');
    assert CreateStep(NamesFor(volName), w, w', Some(v), failed);
    assert Step(w, Created(volName, Some(v), failed), w');
    DuplicatesAreTwo(volName, w', u, v);
    assert "a" in w && "b" in w && !w["a"].isUc && !w["b"].isUc;
  }

  lemma DuplicatesAreTwo(volName: string, w: World, u: Volume, v: Volume)
    requires Visible(w, u) && Visible(w, v) && NameHit(volName, u) && NameHit(volName, v) && !SameBacking(u, v)
    ensures !AtMostOne({volName}, w)
  {
    assert volName in {volName};
  }

  function OnlyShares(shares: map<string, Share>): Store {
    Store(map[], map[], map[], map[], shares)
  }

  function TwoDsms(a: map<string, Share>, b: map<string, Share>): World {
    map["a" := Box(false, false, OnlyShares(a)), "b" := Box(false, false, OnlyShares(b))]
  }

  lemma SharesShow(a: map<string, Share>, b: map<string, Share>)
    ensures WorldValid(TwoDsms(a, b))
    ensures forall v | Visible(TwoDsms(a, b), v) ::
              v.ShareVolume? && (v.ip == "a" || v.ip == "b") && v.shareName in (if v.ip == "a" then a else b)
    ensures forall n | n in a && IsCsiName(n) :: Visible(TwoDsms(a, b), ShareVolume("a", n, a[n], ShareProtocol(a[n])))
    ensures forall n | n in b && IsCsiName(n) :: Visible(TwoDsms(a, b), ShareVolume("b", n, b[n], ShareProtocol(b[n])))
  {
  }

  lemma NoneShown(names: set<string>, w: World)
    requires forall v :: !Visible(w, v)
    ensures AtMostOne(names, w)
  {
  }

  lemma OneShareEach(volName: string, left: Share, made: Share)
    requires !left.exported && !made.exported
    ensures var name := GenShareName(volName);
            var own := NamesFor(volName);
            var u := ShareVolume("a", name, left, Smb);
            var v := ShareVolume("b", name, made, Smb);
            && Residue(own, OnlyShares(map[]), OnlyShares(map[name := left]), {UndoShare(name)})
            && Built(own, Box(false, false, OnlyShares(map[])), OnlyShares(map[name := made]), v)
            && NameHit(volName, u) && NameHit(volName, v) && IsCsiName(name)
  {
    GeneratedNamesAreCsi(volName);
  }
}
