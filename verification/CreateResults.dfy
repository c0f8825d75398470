/** When the CreateVolume RPC succeeds, and when it fails over a volume it has just built. */
module CreateResults {
  import opened Results
  import opened Sizes
  import opened Names
  import opened Stores
  import opened Outcomes
  import opened Dsms
  import opened Volumes
  import opened Worlds
  import opened Lookups
  import opened Steps
  import opened Demands
  import opened Controller
  import opened Created

  ghost predicate NewName(w: World, req: CreateRequest) {
    forall v | Visible(w, v) :: !NameHit(req.name, v)
  }

  // The copies of LUNs and namespaces made on the DSM of v start at their source's size, if v is one.
  ghost predicate FaithfulFor(service: DsmService, req: CreateRequest, v: Volume) {
    v.ip in service.dsms && (service.dsms[v.ip].copiesKeepSize || req.source.NoSource? || v.ShareVolume?)
  }

  // A volume that was built is refused, and stays, exactly if it is an object found under the name, of a size that
  // does not suit the request; or, where copies do not keep their source's size, possibly a new LUN or namespace.
  lemma BuiltIsRefusedIff(service: DsmService, req: CreateRequest, faults: set<Call>, w: World,
                          r: Result<CreateResponse, Code>,
                          e: Event, v: Volume)
    requires CreateOutcome(service, req, faults, w, r, e) && e.Created? && e.result == Some(v)
    requires FaithfulFor(service, req, v) && Demand(req).size < TWO_63
    ensures v.ip in w
    ensures var a := w[v.ip].store;
            r == Err(AlreadyExists) <==> Adopted(a, v) && !AdoptedFits(Demand(req), a, v)
    ensures r.Ok? || r == Err(AlreadyExists)
  {
    hide SourceDecides, Reliable, Delivers;
    ValidateErrs(req);
  }

  // ---- a request answered by DSMs that answer every call ----

  // Nothing found under the request's names would spoil it.
  ghost predicate NothingUnsuited(p: Params, s: Store) {
    && (forall u | u in s.luns && s.luns[u].name == p.own.backend :: SizeSuits(p, s.luns[u].size))
    && (forall u | u in s.namespaces && s.namespaces[u].name == p.own.backend :: SizeSuits(p, s.namespaces[u].size))
    && (p.own.share in s.shares ==> QuotaSuits(p, s.shares[p.own.share].quotaMB))
  }

  // The request can be served: by some DSM at the location asked for or one that may be picked, or from its source.
  ghost predicate Creatable(service: DsmService, req: CreateRequest, w: World)
    requires Validate(req).Ok? && service.dsms.Keys == w.Keys
  {
    var p := Demand(req);
    match p.source
    case NoSource =>
      if req.location != "" then SomeServes(service, p, req.location, w)
      else SomePickServes(service, p, w)
    case SourceVolume(id) =>
      exists v | Visible(w, v) && v.VolumeId() == id :: Clones(p, v, w[v.ip].store, w[v.ip].nvmeof)
    case SourceSnapshot(found) =>
      && found.Some? && SnapshotFits(p, req.location, found.value) && found.value.ip in w
      && Restores(service.dsms[found.value.ip], p, found.value, w[found.value.ip].store)
  }

  // The source volume's id is not shared; without a source there is a location, or every one that may be picked is as
  // good as any other.
  ghost predicate Definite(service: DsmService, req: CreateRequest, w: World)
    requires Validate(req).Ok? && service.dsms.Keys == w.Keys
  {
    var p := Demand(req);
    match p.source
    case NoSource =>
      || req.location != ""
      || (SomePickServes(service, p, w) ==> EveryPickServes(service, p, w))
    case SourceVolume(id) =>
      forall u, v | Visible(w, u) && Visible(w, v) && u.VolumeId() == v.VolumeId() == id :: u == v
    case SourceSnapshot(_) => true
  }

  // A request without a location is definite, and served exactly if some DSM has one to pick, unless a LUN without a
  // type could come to lie on an unknown file system or a subsystem's name is taken.
  lemma PicksAreDefinite(service: DsmService, req: CreateRequest, w: World)
    requires Validate(req).Ok? && service.dsms.Keys == w.Keys && req.source.NoSource? && req.location == ""
    requires forall ip, path | PickedBy(service, Demand(req), ip, path) ::
               && (Demand(req).protocol == Iscsi && req.lunType == "" ==> service.dsms[ip].volumes[path].fs != OtherFs)
               && (Demand(req).protocol == Nvme ==> !w[ip].store.HasSubsystemNamed(GenBackendName(req.name)))
    ensures Definite(service, req, w)
    ensures Creatable(service, req, w) <==> exists ip, path :: PickedBy(service, Demand(req), ip, path)
  {
    PicksAlike(service, Demand(req), w);
  }

  ghost predicate Dependable(service: DsmService) {
    forall ip | ip in service.dsms :: service.dsms[ip].reliable && service.dsms[ip].copiesKeepSize
  }

  // A new name on dependable DSMs: the RPC succeeds exactly if the request can be served, provided nothing that does
  // not suit it was left under its names.
  lemma SucceedsIffCreatable(service: DsmService, req: CreateRequest, w: World, r: Result<CreateResponse, Code>,
                             e: Event, w': World)
    requires CreateOutcome(service, req, {}, w, r, e) && Step(w, e, w')
    requires Validate(req).Ok? && Demand(req).size < TWO_63 && service.dsms.Keys == w.Keys
    requires NewName(w, req) && Definite(service, req, w) && Dependable(service)
    requires forall ip | ip in w :: NothingUnsuited(Demand(req), w[ip].store)
    ensures e.Created? && (e.result.Some? <==> Creatable(service, req, w))
    ensures r.Ok? <==> Creatable(service, req, w)
  {
    hide Visible, NameHit, Delivers, SizeDecided, SizeFits, NothingUnsuited, Built, Residue;
    NewNameIsCreated(service, req, w, r, e);
    var p := Demand(req);
    DependableIsReliable(service);
    DecidedByCreatable(service, req, w, if e.result.Some? then Ok(e.result.value) else Err(r.error));
    if e.result.Some? {
      var v := e.result.value;
      BuiltIsRefusedIff(service, req, {}, w, r, e, v);
      assert Built(NamesFor(req.name), w[v.ip], w'[v.ip].store, v);
      SuitedIsAdopted(p, w[v.ip], w'[v.ip].store, v);
    }
  }

  lemma NewNameIsCreated(service: DsmService, req: CreateRequest, w: World, r: Result<CreateResponse, Code>, e: Event)
    requires CreateOutcome(service, req, {}, w, r, e) && Validate(req).Ok? && NewName(w, req)
    ensures e.Created? && e.volName == req.name
    ensures CreatedOutcome(service, Demand(req), {}, req.location, w, r, e.result)
  {
  }

  lemma DependableIsReliable(service: DsmService)
    requires Dependable(service)
    ensures Reliable(service)
  {
  }

  lemma DecidedByCreatable(service: DsmService, req: CreateRequest, w: World, made: Result<Volume, Code>)
    requires Validate(req).Ok? && service.dsms.Keys == w.Keys && Dependable(service) && Definite(service, req, w)
    requires SourceDecides(service, Demand(req), {}, req.location, w, made)
    ensures made.Ok? <==> Creatable(service, req, w)
  {
    hide SomeServes, Visible, Clones, Restores, SnapshotFits, SomePickServes, CloneTooSmall, RestoreTooSmall;
  }

  // What a creation adopted bears the request's name.
  lemma SuitedIsAdopted(p: Params, a: Box, b: Store, v: Volume)
    requires Built(p.own, a, b, v) && NothingUnsuited(p, a.store)
    ensures Adopted(a.store, v) ==> AdoptedFits(p, a.store, v)
  {
  }

  // ---- the RPC is not all or nothing ----

  // An unmapped LUN of the name is not found by the lookup, but adopted: if it has another size, the RPC maps it to a
  // target and then refuses it, and a repeat finds it and refuses it again.
  lemma LeftOverLunIsRefused(service: DsmService, req: CreateRequest, w: World, r: Result<CreateResponse, Code>,
                             e: Event, w': World,
                             ip: string, lunId: Uuid) returns (targetId: TargetId)
    requires CreateOutcome(service, req, {}, w, r, e) && Step(w, e, w') && WorldValid(w) && WorldValid(w')
    requires Validate(req).Ok? && Demand(req).size < TWO_63 && service.dsms.Keys == w.Keys && NewName(w, req)
    requires req.source.NoSource? && req.location != "" && req.dsmIp == ip != "" && ip in w && Reliable(service)
    requires Demand(req).protocol == Iscsi && Hosts(service.dsms[ip], Demand(req), req.location, w[ip].store)
    requires lunId in w[ip].store.luns && w[ip].store.luns[lunId].name == GenBackendName(req.name)
    requires w[ip].store.luns[lunId].size != Demand(req).size
    ensures r == Err(AlreadyExists) && w' != w
    ensures targetId in w'[ip].store.targets && Maps(w'[ip].store.targets[targetId].mapped, lunId)
    ensures exists v | Visible(w', v) && NameHit(req.name, v) :: Answer(v, Demand(req).size) == Err(AlreadyExists)
  {
    hide Visible, NameHit, Delivers, SizeDecided, SizeFits, Built, Residue, Hosts, WorldValid, Step, Reliable;
    NewNameIsCreated(service, req, w, r, e);
    SomeServed(service, ip, Demand(req), req.location, w);
    assert e.result.Some?;
    var v := e.result.value;
    BuiltOnStep(req.name, w, e, w', v);
    BoxesValid(w, w', ip);
    AdoptsTheNamed(NamesFor(req.name), w[ip], w'[ip].store, v, lunId);
    BuiltIsRefusedIff(service, req, {}, w, r, e, v);
    targetId := v.targetId;
    var u := CreatedIsVisible(req.name, w, w', v, e.failed);
    SizeChecksAgree(u, v, Demand(req).size);
    assert Visible(w', u) && NameHit(req.name, u);
  }

  lemma BoxesValid(w: World, w': World, ip: string)
    requires WorldValid(w) && WorldValid(w') && ip in w && ip in w'
    ensures w[ip].store.Valid() && w'[ip].store.Valid()
  {
  }

  lemma BuiltOnStep(name: string, w: World, e: Event, w': World, v: Volume)
    requires Step(w, e, w') && e.Created? && e.volName == name && e.result == Some(v)
    ensures w'.Keys == w.Keys && v.ip in w && Built(NamesFor(name), w[v.ip], w'[v.ip].store, v)
  {
  }

  lemma AdoptsTheNamed(own: Own, a: Box, b: Store, v: Volume, lunId: Uuid)
    requires a.store.Valid() && b.Valid() && Built(own, a, b, v) && v.LunVolume?
    requires lunId in a.store.luns && a.store.luns[lunId].name == own.backend
    ensures v.lunId == lunId && v.targetId in b.targets && Maps(b.targets[v.targetId].mapped, lunId)
  {
    var before := if v.targetId in a.store.targets then a.store.targets[v.targetId].mapped else [];
    MappedOnceMaps(before, b.targets[v.targetId].mapped, v.lunId);
  }

  lemma SizeChecksAgree(u: Volume, v: Volume, size: int)
    requires SameBacking(u, v) && u.SizeInBytes() == v.SizeInBytes()
    ensures Answer(u, size).Err? <==> Answer(v, size).Err?
  {
  }

  // The smallest such case: one DSM with an unmapped LUN of the name, and what a creation makes of it.
  lemma UnmappedLunIsAdopted(volName: string, size: nat, other: nat) returns (w: World, w': World, v: Volume)
    requires other != size
    ensures WorldValid(w) && WorldValid(w') && Step(w, Created(volName, Some(v), {}), w')
    ensures (forall u :: !Visible(w, u)) && Answer(v, size) == Err(AlreadyExists)
    ensures v.ip in w && Adopted(w[v.ip].store, v) && w' != w
  {
    var name := GenBackendName(volName);
    var lun, target := Lun(name, other, "/volume1"), Target(name, 1, [Mapping("1", 1)]);
    var a := Store(map["1" := lun], map[], map[], map[], map[]);
    var b := Store(map["1" := lun], map[1 := target], map[], map[], map[]);
    w, w' := map["a" := Box(false, false, a)], map["a" := Box(false, false, b)];
    v := LunVolume("a", "1", lun, 1, Target(name, 1, []));
    assert target.mapped[..0] == [] && target.mapped[0].lun == "1";
    assert Built(NamesFor(volName), w["a"], b, v);
  }
}
