/** The controller's CreateVolume, DeleteVolume and ControllerExpandVolume RPCs (pkg/driver/controllerserver.go). */
module Controller {
  import opened Results
  import opened Sizes
  import opened Names
  import opened Stores
  import opened Undoing
  import opened Outcomes
  import opened Dsms
  import opened Volumes
  import opened Worlds
  import opened Lookups
  import opened Steps
  import opened UniqueRuns
  import opened Created
  import opened Deletions
  import opened Demands
  import Provisioning

  datatype Capability = Capability(modeSupported: bool, block: bool)

  datatype CreateRequest = CreateRequest(
    name: string,
    range: Option<CapacityRange>,
    capabilities: Option<seq<Capability>>,
    protocol: string,  // in lower case; "" when not given
    parametersValid: bool,  // content source, mount permissions, space reclamation and nfsvers pass their checks
    multiSession: bool,
    source: Source,
    dsmIp: string,
    location: string,
    lunType: string,
    nfsVersion: string)

  datatype CreateResponse = CreateResponse(volumeId: string, capacityBytes: int, dsm: string, protocol: Protocol)

  function ParseProtocol(s: string): Option<Protocol> {
    if s == "" || s == "iscsi" then Some(Iscsi)
    else if s == "nvme" then Some(Nvme)
    else if s == "smb" then Some(Smb)
    else if s == "nfs" then Some(Nfs)
    else None
  }

  // What the volume context of a response calls a protocol.
  function ProtocolText(p: Protocol): string {
    match p
    case Iscsi => "iscsi"
    case Nvme => "nvme"
    case Smb => "smb"
    case Nfs => "nfs"
  }

  // A request names a protocol as a response does, or gives none for iSCSI; no other text is accepted.
  lemma ProtocolReadsBack(s: string, p: Protocol)
    ensures ParseProtocol(s) == Some(p) <==> s == ProtocolText(p) || (s == "" && p == Iscsi)
  {
  }

  // The checks made before anything is looked up. A share never serves a raw block device.
  function Validate(req: CreateRequest): (r: Result<(int, Protocol), Code>)
    ensures r.Ok? ==> RequestedSize(req.range) == Ok(r.value.0) && ParseProtocol(req.protocol) == Some(r.value.1)
    ensures r.Ok? <==>
            && RequestedSize(req.range).Ok? && req.name != "" && req.parametersValid
            && ParseProtocol(req.protocol).Some? && req.capabilities.Some?
            && forall c | c in req.capabilities.value ::
                 c.modeSupported && (ParseProtocol(req.protocol).value.IsShare() ==> !c.block)
    ensures r.Err? ==> r.error == InvalidArgument
  {
    var size := RequestedSize(req.range);
    if size.Err? then Err(size.error)
    else if req.name == "" || req.capabilities.None? then Err(InvalidArgument)
    else match ParseProtocol(req.protocol)
      case None => Err(InvalidArgument)
      case Some(p) =>
        if exists c | c in req.capabilities.value :: !c.modeSupported || (c.block && p.IsShare())
        then Err(InvalidArgument)
        else if !req.parametersValid then Err(InvalidArgument)
        else Ok((size.value, p))
  }

  // The size check on the volume found or created, and the response.
  function Answer(v: Volume, sizeInByte: int): Result<CreateResponse, Code> {
    if !SizeFits(v, sizeInByte) then Err(AlreadyExists)
    else Ok(CreateResponse(v.VolumeId(), v.SizeInBytes(), v.ip, v.Protocol()))
  }

  ghost predicate WellTyped(v: Volume) {
    v.ShareVolume? ==> v.shareProtocol.IsShare()
  }

  // A LUN or namespace is answered with exactly the required bytes; a share with the required bytes rounded up to
  // whole MiB, which covers them exactly when the rounding fits an int64.
  lemma AnsweredSize(v: Volume, sizeInByte: int)
    requires WellTyped(v) && UNIT_GB <= sizeInByte < TWO_63 && Answer(v, sizeInByte).Ok?
    ensures var capacity := Answer(v, sizeInByte).value.capacityBytes;
            && (!v.ShareVolume? ==> capacity == sizeInByte)
            && (v.ShareVolume? ==> capacity == RoundTrip(sizeInByte) && capacity < sizeInByte + UNIT_MB)
            && (capacity >= sizeInByte <==> !v.ShareVolume? || sizeInByte <= MAX_SHARE_BYTES)
  {
    if v.ShareVolume? {
      MegabytesPinBytes(v.share.quotaMB, sizeInByte);
      RoundTripCovers(sizeInByte);
    }
  }

  // Whatever visible volume has the name after a successful CreateVolume that left no other share of it behind gets the
  // same answer, but for the protocol of a share.
  lemma RepeatAnswersTheSame(volName: string, w: World, w': World, v: Volume, failed: set<(string, Undo)>, u: Volume,
                             sizeInByte: int)
    requires WorldValid(w) && WorldValid(w') && Step(w, Created(volName, Some(v), failed), w')
    requires WellTyped(v) && Answer(v, sizeInByte).Ok? && Visible(w', u) && NameHit(volName, u)
    requires v.ip in w' && Findable(w', v) && OneBacking(volName, Some(v), w')
    ensures Answer(u, sizeInByte) == Ok(Answer(v, sizeInByte).value.(protocol := ShownProtocol(v)))
  {
    hide Step, WorldValid, NameHit, Residue, Built, OneBacking, Visible;
    BuiltByStep(volName, w, w', v, failed);
    var own := CreatedIsVisible(volName, w, w', v, failed);
    OwnHitsAgree(w, w', volName, Some(v), failed, u, own);
    SameBackingIsTransitive(v, v, v);
    SameThrough(u, own, v, v);
    SameBackingSameName(w', NamesFor(volName), w[v.ip], v, u);
    SameBackingShows(w', NamesFor(volName), w[v.ip], v, u);
  }

  // The protocol a lookup gives v: a share is an NFS share only once it has an NFS rule.
  function ShownProtocol(v: Volume): Protocol {
    if v.ShareVolume? then ShareProtocol(v.share) else v.Protocol()
  }

  lemma SameBackingShows(w: World, own: Own, a: Box, v: Volume, u: Volume)
    requires Visible(w, u) && v.ip in w && Built(own, a, w[v.ip].store, v) && SameBacking(u, v)
    ensures u.ip == v.ip && u.Protocol() == ShownProtocol(v) && (u.ShareVolume? <==> v.ShareVolume?)
  {
  }

  lemma BuiltByStep(volName: string, w: World, w': World, v: Volume, failed: set<(string, Undo)>)
    requires Step(w, Created(volName, Some(v), failed), w')
    ensures v.ip in w && v.ip in w' && w'[v.ip].isUc == w[v.ip].isUc
    ensures Built(NamesFor(volName), w[v.ip], w'[v.ip].store, v)
  {
  }

  function ParamsOf(req: CreateRequest, size: nat, protocol: Protocol): Params {
    Params(NamesFor(req.name), GenBackendName(req.name), req.dsmIp, size, req.lunType, req.multiSession, req.source,
           protocol, req.nfsVersion)
  }

  // The request that CreateVolume works on once it is validated.
  function Demand(req: CreateRequest): Params
    requires Validate(req).Ok?
  {
    ParamsOf(req, Validate(req).value.0, Validate(req).value.1)
  }

  // Whatever the request says reaches the service.
  lemma DemandAsks(req: CreateRequest)
    requires Validate(req).Ok?
    ensures var p := Demand(req);
            && p.size == (if req.range.None? then UNIT_GB else req.range.value.required)
            && p.dsmIp == req.dsmIp && p.lunType == req.lunType && p.multiSession == req.multiSession
            && p.source == req.source && p.nfsVersion == req.nfsVersion
            && Some(p.protocol) == ParseProtocol(req.protocol)
            && p.own.backend == p.own.target == p.subsystemName == GenBackendName(req.name)
            && p.own.share == GenShareName(req.name)
  {
  }

  // The target of a LUN just made takes any number of sessions if the request says so; if not, one if it is new, and as
  // many as before if it was there.
  lemma SessionsAsAsked(req: CreateRequest, w: World, e: Event, w': World, v: Volume)
    requires Validate(req).Ok? && MadeFor(Demand(req), w, e, w') && e.Created? && e.result == Some(v) && v.LunVolume?
    ensures v.ip in w && v.ip in w' && v.targetId in w'[v.ip].store.targets
    ensures var before, limit := w[v.ip].store.targets, w'[v.ip].store.targets[v.targetId].maxSessions;
            && (req.multiSession ==> limit == 0)
            && (!req.multiSession && v.targetId !in before ==> limit == 1)
            && (!req.multiSession && v.targetId in before ==> limit == before[v.targetId].maxSessions)
  {
  }

  // What CreateVolume answers in world w, having taken step e. Without a step it answers for a volume that has the
  // name; a volume it creates fulfils the request as far as the DSM it is on lets it, and is then checked like any
  // other.
  ghost predicate CreateOutcome(service: DsmService, req: CreateRequest, faults: set<Call>, w: World,
                                r: Result<CreateResponse, Code>, e: Event)
  {
    match Validate(req)
    case Err(_) => r == Err(InvalidArgument) && e == Unchanged
    case Ok((size, protocol)) =>
      match e
      case Unchanged =>
        || (r == Err(Unavailable) && faults != {})
        || exists v | Visible(w, v) && NameHit(req.name, v) && WellTyped(v) :: r == Answer(v, size)
      case Created(name, result, _) =>
        && name == req.name
        && CreatedOutcome(service, ParamsOf(req, size, protocol), faults, req.location, w, r, result)
      case _ => false
  }

  ghost predicate CreatedOutcome(service: DsmService, p: Params, faults: set<Call>, location: string, w: World,
                                 r: Result<CreateResponse, Code>, result: Option<Volume>)
  {
    match result
    case None => r.Err? && (Reliable(service) ==> SourceDecides(service, p, faults, location, w, Err(r.error)))
    case Some(v) =>
      && r == Answer(v, p.size) && WellTyped(v) && ResultFulfils(service, p, location, w, Ok(v))
      && (Reliable(service) ==> SourceDecides(service, p, faults, location, w, Ok(v)))
  }

  method CreateVolume(service: DsmService, req: CreateRequest, faults: set<Call>)
    returns (r: Result<CreateResponse, Code>, ghost e: Event)
    requires service.Valid()
    modifies service.Members()
    ensures service.Valid()
    ensures Step(old(service.World()), e, service.World())
    ensures CreateOutcome(service, req, faults, old(service.World()), r, e)
    ensures e.Created? ==> Validate(req).Ok? && MadeFor(Demand(req), old(service.World()), e, service.World())
    ensures r.Ok? ==> AnswersFor(req, r.value, e, service.World())
  {
    hide Store.Valid, Dsm.Valid, Visible, NameHit, Step, VolumeLookup, WellTyped, Validate, CreatedOutcome;
    hide MadeFor, SizeFits;
    ghost var w := service.World();
    UnchangedIsStep(w);
    e := Unchanged;
    var valid := Validate(req);
    ValidateErrs(req);
    if valid.Err? {
      return Err(valid.error), e;
    }
    var (size, protocol) := valid.value;

    var found := service.GetVolumeByName(faults, req.name);
    assert service.World() == w;
    Provisioning.ValidWorld(service);
    NamedLookup(w, faults, req.name, found);
    if found.Unknown? {
      return Err(Unavailable), e;
    }
    if found.Found? {
      r := Answer(found.volume, size);
      assert r.Ok? ==> TellsOf(r.value, found.volume) && r.value.protocol == found.volume.Protocol();
      return r, e;
    }

    var created;
    created, e := CreateNew(service, req, size, protocol, faults);
    r := if created.Err? then Err(created.error) else Answer(created.value, size);
    if r.Ok? {
      MadeOfThatProtocol(Demand(req), w, e, service.World());
      AnswersForBuilt(req, w, e, service.World(), created.value, r.value);
    }
  }

  lemma MadeOfThatProtocol(p: Params, w: World, e: Event, w': World)
    requires MadeFor(p, w, e, w') && e.Created? && e.result.Some?
    ensures e.result.value.Protocol() == p.protocol
  {
  }

  // The response tells of a volume that goes by the name of the request: one that can be looked up, or a share just
  // made on a UC DSM. The protocol is the one asked for, if the volume was made, or the one it shows.
  ghost predicate AnswersFor(req: CreateRequest, response: CreateResponse, e: Event, w': World) {
    exists v ::
      && TellsOf(response, v) && NameHit(req.name, v)
      && (Visible(w', v) || (e.Created? && e.result == Some(v) && v.ip in w' && !Findable(w', v)))
      && (if e.Created? then Some(response.protocol) == ParseProtocol(req.protocol)
          else response.protocol == v.Protocol())
  }

  ghost predicate TellsOf(response: CreateResponse, v: Volume) {
    response.volumeId == v.VolumeId() && response.capacityBytes == v.SizeInBytes() && response.dsm == v.ip
  }

  lemma AnswersForBuilt(req: CreateRequest, w: World, e: Event, w': World, v: Volume, response: CreateResponse)
    requires WorldValid(w) && Step(w, e, w') && e.Created? && e.volName == req.name && e.result == Some(v)
    requires TellsOf(response, v) && Some(response.protocol) == ParseProtocol(req.protocol)
    ensures AnswersFor(req, response, e, w')
  {
    hide Visible, NameHit, Step, WorldValid, Built;
    BuiltByStep(req.name, w, w', v, e.failed);
    BuiltHasTheName(req.name, w[v.ip], w'[v.ip].store, v);
    if Findable(w', v) {
      var u := CreatedIsVisible(req.name, w, w', v, e.failed);
      SameBackingSameIp(u, v);
      assert TellsOf(response, u);
    }
  }

  // So the id answered finds that volume again, given that ids are unique and every call is answered.
  lemma AnsweredIdIsFound(req: CreateRequest, response: CreateResponse, e: Event, w': World, found: Lookup)
    requires WorldValid(w') && UniqueIds(w') && AnswersFor(req, response, e, w')
    requires VolumeLookup(w', {}, IdShare(response.volumeId), IdVolume(response.volumeId), found)
    requires e.Created? && e.result.Some? ==> e.result.value.ip in w' && Findable(w', e.result.value)
    ensures found.Found? && TellsOf(response, found.volume) && NameHit(req.name, found.volume)
  {
    hide Visible, NameHit, WorldValid, UniqueIds;
    var v :| TellsOf(response, v) && NameHit(req.name, v) && Visible(w', v);
    NoFaultsDecide(w', IdShare(response.volumeId), IdVolume(response.volumeId), found);
    assert Hit(IdShare(response.volumeId), IdVolume(response.volumeId), v);
    OneIdOneVolume(w', v, found.volume);
    HitsAgree(req.name, found.volume, v);
  }

  lemma OneIdOneVolume(w: World, v: Volume, u: Volume)
    requires UniqueIds(w) && Visible(w, u) && Visible(w, v) && u.VolumeId() == v.VolumeId()
    ensures SameBacking(u, v) && u.Name() == v.Name() && u.SizeInBytes() == v.SizeInBytes() && u.ip == v.ip
  {
  }

  lemma ValidateErrs(req: CreateRequest)
    ensures Validate(req).Err? ==> Validate(req).error == InvalidArgument
    ensures Validate(req).Ok? ==> Validate(req).value.0 >= UNIT_GB
  {
  }

  method CreateNew(service: DsmService, req: CreateRequest, size: nat, protocol: Protocol, faults: set<Call>)
    returns (r: Result<Volume, Code>, ghost e: Event)
    requires service.Valid() && forall v | Visible(service.World(), v) :: !NameHit(req.name, v)
    modifies service.Members()
    ensures service.Valid()
    ensures e.Created? && e.volName == req.name && e.result == if r.Ok? then Some(r.value) else None
    ensures Step(old(service.World()), e, service.World())
    ensures CreatedOutcome(service, ParamsOf(req, size, protocol), faults, req.location, old(service.World()),
                           if r.Ok? then Answer(r.value, size) else Err(r.error), e.result)
    ensures MadeFor(ParamsOf(req, size, protocol), old(service.World()), e, service.World())
  {
    hide SharesSpared, Dsm.Valid, BoxOf, Visible, NameHit, CreateStep, SourceDecides, Reliable, Answer, Shows;
    hide ResultFulfils, MadeFor, SessionsFit, WellTyped;
    hide Provisioning.CreatedInService, Provisioning.FailedIn;
    ghost var w, starts := service.World(), Provisioning.Traces(service);
    ServiceShows(service);
    var spec := new CreateSpec(req.dsmIp, req.name, size, req.lunType, req.multiSession, req.source, protocol,
                               req.nfsVersion, req.location);
    assert service.World() == w && Provisioning.Traces(service) == starts;
    assert spec.Asked() == ParamsOf(req, size, protocol);
    r := Provisioning.CreateVolume(service, spec, faults);
    ghost var failed := Provisioning.FailedIn(starts, Provisioning.Traces(service));
    e := Created(req.name, if r.Ok? then Some(r.value) else None, failed);
    ServiceShows(service);
    CreatedIsStep(spec.Asked(), service, w, service.World(), starts, Provisioning.Traces(service), r);
    FulfilledIsMadeFor(service, spec.Asked(), req.location, w, e, service.World(), r);
  }

  lemma FulfilledIsMadeFor(service: DsmService, p: Params, location: string, w: World, e: Event, w': World,
                           r: Result<Volume, Code>)
    requires e.Created? && e.result == if r.Ok? then Some(r.value) else None
    requires ResultFulfils(service, p, location, w, r) && SharesSpared(p, w, w')
    requires r.Ok? ==>
               r.value.ip in w && r.value.ip in w' && SessionsFit(p, w[r.value.ip].store, w'[r.value.ip].store, r.value)
    ensures MadeFor(p, w, e, w') && (r.Ok? ==> WellTyped(r.value))
  {
    hide SizeDecided, Delivers, Located, SharesSpared, SessionsFit;
  }

  // The boxes of a moment show the stores its traces end with.
  ghost predicate Shows(service: DsmService, w: World, traces: map<string, Trace>) {
    && w.Keys == traces.Keys == service.dsms.Keys
    && forall ip | ip in w :: w[ip] == Box(service.dsms[ip].isUc, service.dsms[ip].supportNvmeof, traces[ip].store)
  }

  lemma ServiceShows(service: DsmService)
    ensures Shows(service, service.World(), Provisioning.Traces(service))
  {
  }

  lemma NamedLookup(w: World, faults: set<Call>, volName: string, r: Lookup)
    requires WorldValid(w) && VolumeLookup(w, faults, NameShare(volName), NameVolume(volName), r)
    ensures r.Found? ==> Visible(w, r.volume) && NameHit(volName, r.volume) && WellTyped(r.volume)
    ensures r.Absent? ==> forall v | Visible(w, v) :: !NameHit(volName, v)
    ensures r.Unknown? ==> faults != {}
    ensures faults == {} && (exists v :: Visible(w, v) && NameHit(volName, v)) ==> r.Found?
  {
    if faults == {} {
      NoFaultsDecide(w, NameShare(volName), NameVolume(volName), r);
    }
  }

  // What the service did to each DSM is a step of the world.
  lemma CreatedIsStep(p: Params, service: DsmService, w: World, w': World, starts: map<string, Trace>,
                      ends: map<string, Trace>, r: Result<Volume, Code>)
    requires Shows(service, w, starts) && Shows(service, w', ends)
    requires Provisioning.CreatedInService(p, w, starts, ends, r)
    ensures CreateStep(p.own, w, w', if r.Ok? then Some(r.value) else None, Provisioning.FailedIn(starts, ends))
    ensures r.Ok? ==>
              r.value.ip in w && r.value.ip in w' && SessionsFit(p, w[r.value.ip].store, w'[r.value.ip].store, r.value)
  {
    hide RolledBack, Residue, Built, Provisioning.FailedIn, FailedOn, FailedSince;
    forall ip | ip in w && !(r.Ok? && r.value.ip == ip)
      ensures Residue(p.own, w[ip].store, w'[ip].store, FailedOn(Provisioning.FailedIn(starts, ends), ip))
    {
      RolledBackLeavesResidue(p.own, starts[ip], ends[ip]);
      FailuresByDsm(starts, ends, ip);
    }
  }

  lemma RolledBackLeavesResidue(own: Own, start: Trace, end: Trace)
    requires RolledBack(own, start, end)
    ensures Residue(own, start.store, end.store, FailedSince(start, end)) && |start.tried| <= |end.tried|
  {
  }

  lemma FailuresByDsm(before: map<string, Trace>, after: map<string, Trace>, ip: string)
    requires ip in before && ip in after && |before[ip].tried| <= |after[ip].tried|
    ensures FailedOn(Provisioning.FailedIn(before, after), ip) == FailedSince(before[ip], after[ip])
  {
    var failed := Provisioning.FailedIn(before, after);
    forall step | step in FailedSince(before[ip], after[ip]) ensures step in FailedOn(failed, ip) {
      var a :| a in after[ip].tried[|before[ip].tried|..] && !a.ok && a.step == step;
      assert (ip, a.step) in failed;
    }
  }

  method DeleteVolume(service: DsmService, volumeId: string, faults: set<Call>)
    returns (r: Result<(), Code>, ghost e: Event)
    requires service.Valid()
    modifies service.Members()
    ensures service.Valid()
    ensures Step(old(service.World()), e, service.World())
    ensures volumeId == "" ==> r == Err(InvalidArgument) && e == Unchanged
    ensures e.Unchanged? || (e.Deleted? && e.volume.VolumeId() == volumeId)
    ensures Reliable(service) && faults == {} && volumeId != "" ==>
              && r.Ok?
              && (e.Unchanged? ==> forall u | Visible(old(service.World()), u) :: u.VolumeId() != volumeId)
              && (e.Deleted? ==> e.volume.ip in service.World()
                                 && service.World()[e.volume.ip].store
                                     == Removed(old(service.World())[e.volume.ip].store, e.volume))
    ensures r.Ok? && UniqueIds(old(service.World())) ==>
              forall u | Visible(service.World(), u) :: u.VolumeId() != volumeId
  {
    if volumeId == "" {
      return Err(InvalidArgument), Unchanged;
    }
    r, e := Provisioning.DeleteVolume(service, volumeId, faults);
    if r.Err? {
      r := Err(Internal);
    }
  }

  datatype ExpandResponse = ExpandResponse(capacityBytes: int, nodeExpansionRequired: bool)

  // The node has to grow the file system of a LUN or namespace; a share's quota takes effect by itself.
  method ControllerExpandVolume(service: DsmService, volumeId: string, range: Option<CapacityRange>, faults: set<Call>)
    returns (r: Result<ExpandResponse, Code>, ghost e: Event)
    requires service.Valid()
    modifies service.Members()
    ensures service.Valid()
    ensures Step(old(service.World()), e, service.World())
    ensures volumeId == "" || range.None? || RequestedSize(range).Err? ==> r == Err(InvalidArgument)
    ensures r.Ok? ==>
              && e.Expanded? && range.Some? && e.newSize == range.value.required && e.volume.VolumeId() == volumeId
              && r.value.capacityBytes == (if e.volume.ShareVolume? then RoundTrip(e.newSize) else e.newSize)
              && (r.value.nodeExpansionRequired <==> !e.volume.ShareVolume?)
    ensures r.Err? ==> e == Unchanged
    ensures Reliable(service) && faults == {} && volumeId != "" && range.Some? && RequestedSize(range).Ok?
            && (exists v :: Visible(old(service.World()), v) && v.VolumeId() == volumeId)
            && (forall v | Visible(old(service.World()), v) && v.VolumeId() == volumeId ::
                  v.SizeInBytes() <= range.value.required) ==>
              r.Ok?
  {
    hide Step, Dsm.Valid, RoundTrip, Visible;
    ghost var w := service.World();
    UnchangedIsStep(w);
    if volumeId == "" || range.None? {
      return Err(InvalidArgument), Unchanged;
    }
    var size := RequestedSize(range);
    if size.Err? {
      return Err(InvalidArgument), Unchanged;
    }
    var done;
    done, e := Provisioning.ExpandVolume(service, volumeId, size.value, faults);
    if done.Err? {
      return Err(done.error), e;
    }
    ExpandedIsWellTyped(w, e, service.World());
    var (v, capacity) := done.value;
    r := Ok(ExpandResponse(capacity, v.Protocol() == Iscsi || v.Protocol() == Nvme));
  }

  lemma UnchangedIsStep(w: World)
    ensures Step(w, Unchanged, w)
  {
  }

  lemma ExpandedIsWellTyped(w: World, e: Event, w': World)
    requires Step(w, e, w') && e.Expanded?
    ensures WellTyped(e.volume)
  {
  }
}
