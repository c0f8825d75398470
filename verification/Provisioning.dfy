/** DsmService.CreateVolume, DeleteVolume and ExpandVolume (pkg/dsm/service/dsm.go). */
module Provisioning {
  import opened Results
  import opened Sizes
  import opened Stores
  import opened Undoing
  import opened Outcomes
  import opened Dsms
  import opened Volumes
  import opened Worlds
  import opened Lookups
  import opened Steps
  import opened Deletions
  import opened Demands
  import IscsiVolumes
  import NvmeVolumes
  import ShareVolumes

  ghost function Traces(service: DsmService): map<string, Trace>
    reads service.Members()
  {
    map ip | ip in service.dsms :: service.dsms[ip].Now()
  }

  // The undo steps that failed on each DSM between two moments.
  ghost function FailedIn(before: map<string, Trace>, after: map<string, Trace>): set<(string, Undo)> {
    set ip, a | ip in before && ip in after && |before[ip].tried| <= |after[ip].tried|
        && a in after[ip].tried[|before[ip].tried|..] && !a.ok :: (ip, a.step)
  }

  // What a creation does to the DSM it runs on.
  ghost predicate CreatedOn(p: Params, ip: string, a: Box, start: Trace, end: Trace, r: Result<Volume, Code>) {
    if r.Ok? then
      && r.value.ip == ip && NothingUndone(start, end) && Built(p.own, a, end.store, r.value)
      && SessionsFit(p, a.store, end.store, r.value)
    else RolledBack(p.own, start, end)
  }

  // ---- CreateVolume on one DSM ----

  method CreateOn(dsm: Dsm, spec: CreateSpec) returns (r: Result<Volume, Code>)
    requires dsm.Valid() && spec.source.NoSource? && (spec.protocol == Nvme ==> dsm.supportNvmeof)
    modifies dsm, spec`location
    ensures dsm.Valid()
    ensures CreatedOn(spec.Asked(), dsm.ip, old(BoxOf(dsm)), old(dsm.Now()), dsm.Now(), r)
    ensures r.Ok? ==> Fulfils(spec.Asked(), old(spec.location), old(dsm.store), dsm.copiesKeepSize, r.value)
    ensures IscsiVolumes.Chosen(dsm, spec.size, spec.protocol.IsShare(), old(spec.location), spec.location)
    ensures dsm.reliable && (spec.protocol == Nfs ==> ServesNfs(dsm, spec.nfsVersion)) ==>
              && (r.Ok? <==> Hosts(dsm, spec.Asked(), spec.location, old(dsm.store)))
              && (old(spec.location) == "" ==> PickedOn(dsm, spec.Asked(), old(dsm.store), spec.location, r.Ok?))
    ensures !spec.protocol.IsShare() ==> dsm.store.shares == old(dsm.store.shares)
  {
    hide SizeDecided, PickedOn, Dsm.Valid, RolledBack;
    ghost var start := dsm.store;
    match spec.protocol {
      case Iscsi => r := IscsiVolumes.CreateVolumeByDsm(dsm, spec);
      case Nvme => r := NvmeVolumes.CreateVolumeByDsm(dsm, spec);
      case Smb => r := ShareVolumes.CreateVolumeByDsm(dsm, spec);
      case Nfs => r := ShareVolumes.CreateVolumeByDsm(dsm, spec);
    }
    if r.Ok? {
      NewSizeDecided(spec.Asked(), start, dsm.copiesKeepSize, r.value);
    }
    if dsm.reliable && old(spec.location) == "" && (spec.protocol == Nfs ==> ServesNfs(dsm, spec.nfsVersion)) {
      ChosenIsPicked(dsm, spec.Asked(), spec.location, start);
    }
  }

  // What the copy is made from is empty when the source volume is of another kind.
  method CloneOn(dsm: Dsm, spec: CreateSpec, src: Volume) returns (r: Result<Volume, Code>)
    requires dsm.Valid() && spec.source.SourceVolume? && VisibleInBox(BoxOf(dsm), src)
    modifies dsm, spec`location
    ensures dsm.Valid()
    ensures CreatedOn(spec.Asked(), dsm.ip, old(BoxOf(dsm)), old(dsm.Now()), dsm.Now(), r)
    ensures r.Ok? ==> Fulfils(spec.Asked(), old(spec.location), old(dsm.store), dsm.copiesKeepSize, r.value)
    ensures dsm.reliable ==> ClonedAs(spec.Asked(), src, old(BoxOf(dsm)), r)
    ensures !spec.protocol.IsShare() ==> dsm.store.shares == old(dsm.store.shares)
  {
    hide Fulfils, CreatedOn, ClonedAs, VisibleInBox, Dsm.Valid;
    match spec.protocol {
      case Iscsi => r := CloneLunOn(dsm, spec, src);
      case Nvme => r := CloneNamespaceOn(dsm, spec, src);
      case _ => r := CloneShareOn(dsm, spec, src);
    }
  }

  method CloneLunOn(dsm: Dsm, spec: CreateSpec, src: Volume) returns (r: Result<Volume, Code>)
    requires dsm.Valid() && spec.source.SourceVolume? && VisibleInBox(BoxOf(dsm), src) && spec.protocol == Iscsi
    modifies dsm, spec`location
    ensures dsm.Valid()
    ensures CreatedOn(spec.Asked(), dsm.ip, old(BoxOf(dsm)), old(dsm.Now()), dsm.Now(), r)
    ensures r.Ok? ==> Fulfils(spec.Asked(), old(spec.location), old(dsm.store), dsm.copiesKeepSize, r.value)
    ensures dsm.reliable ==> ClonedAs(spec.Asked(), src, old(BoxOf(dsm)), r)
    ensures dsm.store.shares == old(dsm.store.shares)
  {
    hide SizeDecided, VisibleInBox, Dsm.Valid, RolledBack, IscsiBuilt;
    EmptyNamesNothing(dsm);
    var lunId, lun := if src.LunVolume? then src.lunId else "", if src.LunVolume? then src.lun else Lun("", 0, "");
    r := IscsiVolumes.CreateVolumeByVolume(dsm, spec, lunId, lun);
    if r.Ok? {
      LunSizeDecided(spec.Asked(), old(dsm.store), dsm.copiesKeepSize, lun.size, r.value);
    }
  }

  method CloneNamespaceOn(dsm: Dsm, spec: CreateSpec, src: Volume) returns (r: Result<Volume, Code>)
    requires dsm.Valid() && spec.source.SourceVolume? && VisibleInBox(BoxOf(dsm), src) && spec.protocol == Nvme
    modifies dsm, spec`location
    ensures dsm.Valid()
    ensures CreatedOn(spec.Asked(), dsm.ip, old(BoxOf(dsm)), old(dsm.Now()), dsm.Now(), r)
    ensures r.Ok? ==> Fulfils(spec.Asked(), old(spec.location), old(dsm.store), dsm.copiesKeepSize, r.value)
    ensures dsm.reliable ==> ClonedAs(spec.Asked(), src, old(BoxOf(dsm)), r)
    ensures dsm.store.shares == old(dsm.store.shares)
  {
    hide SizeDecided, VisibleInBox, Dsm.Valid, RolledBack, NvmeBuilt;
    EmptyNamesNothing(dsm);
    var nsId := if src.NamespaceVolume? then src.nsId else "";
    var ns := if src.NamespaceVolume? then src.ns else Namespace("", 0, "", "");
    r := NvmeVolumes.CreateVolumeByVolume(dsm, spec, nsId, ns);
    if r.Ok? {
      NamespaceSizeDecided(spec.Asked(), old(dsm.store), dsm.copiesKeepSize, ns.size, r.value);
    }
  }

  method CloneShareOn(dsm: Dsm, spec: CreateSpec, src: Volume) returns (r: Result<Volume, Code>)
    requires dsm.Valid() && spec.source.SourceVolume? && VisibleInBox(BoxOf(dsm), src) && spec.protocol.IsShare()
    modifies dsm, spec`location
    ensures dsm.Valid()
    ensures CreatedOn(spec.Asked(), dsm.ip, old(BoxOf(dsm)), old(dsm.Now()), dsm.Now(), r)
    ensures r.Ok? ==> Fulfils(spec.Asked(), old(spec.location), old(dsm.store), dsm.copiesKeepSize, r.value)
    ensures dsm.reliable ==> ClonedAs(spec.Asked(), src, old(BoxOf(dsm)), r)
  {
    hide SizeDecided, Dsm.Valid;
    var name := if src.ShareVolume? then src.shareName else "";
    var share := if src.ShareVolume? then src.share else Share("", "", 0, false);
    r := ShareVolumes.CreateVolumeByVolume(dsm, spec, name, share);
    if r.Ok? {
      ShareSizeDecided(dsm, spec.Asked(), old(dsm.store), name, r.value);
    }
  }

  lemma EmptyNamesNothing(dsm: Dsm)
    requires dsm.Valid()
    ensures "" !in dsm.store.luns && "" !in dsm.store.namespaces
  {
  }

  method RestoreOn(dsm: Dsm, spec: CreateSpec, src: Snapshot) returns (r: Result<Volume, Code>)
    requires dsm.Valid() && spec.source.SourceSnapshot?
    requires spec.location == "" || spec.location == src.rootPath
    modifies dsm, spec`location
    ensures dsm.Valid()
    ensures CreatedOn(spec.Asked(), dsm.ip, old(BoxOf(dsm)), old(dsm.Now()), dsm.Now(), r)
    ensures r.Ok? ==> Fulfils(spec.Asked(), old(spec.location), old(dsm.store), dsm.copiesKeepSize, r.value)
    ensures dsm.reliable ==> RestoredAs(dsm, spec.Asked(), src, old(dsm.store), r)
    ensures !spec.protocol.IsShare() ==> dsm.store.shares == old(dsm.store.shares)
  {
    hide SizeDecided, Dsm.Valid, RolledBack;
    match spec.protocol {
      case Iscsi =>
        r := IscsiVolumes.CreateVolumeBySnapshot(dsm, spec, src);
        if r.Ok? {
          LunSizeDecided(spec.Asked(), old(dsm.store), dsm.copiesKeepSize, src.size, r.value);
        }
      case Nvme =>
        r := NvmeVolumes.CreateVolumeBySnapshot(dsm, spec, src);
        if r.Ok? {
          NamespaceSizeDecided(spec.Asked(), old(dsm.store), dsm.copiesKeepSize, src.size, r.value);
        }
      case _ =>
        r := ShareVolumes.CreateVolumeBySnapshot(dsm, spec, src);
        if r.Ok? {
          RestoredShareSizeDecided(spec.Asked(), old(dsm.store), dsm.copiesKeepSize, r.value);
        }
    }
  }

  // ---- CreateVolume over all DSMs ----

  // The outcome of a service call on every DSM: w is the world it found.
  ghost predicate CreatedInService(p: Params, w: World, starts: map<string, Trace>, ends: map<string, Trace>,
                                   r: Result<Volume, Code>) {
    && w.Keys == starts.Keys == ends.Keys
    && (r.Ok? ==> r.value.ip in w)
    && forall ip | ip in w ::
        if r.Ok? && r.value.ip == ip then CreatedOn(p, ip, w[ip], starts[ip], ends[ip], r)
        else RolledBack(p.own, starts[ip], ends[ip])
  }

  method CreateVolume(service: DsmService, spec: CreateSpec, faults: set<Call>) returns (r: Result<Volume, Code>)
    requires service.Valid()
    modifies service.Members(), spec`location
    ensures service.Valid()
    ensures CreatedInService(spec.Asked(), old(service.World()), old(Traces(service)), Traces(service), r)
    ensures ResultFulfils(service, spec.Asked(), old(spec.location), old(service.World()), r)
    ensures SharesSpared(spec.Asked(), old(service.World()), service.World())
    ensures Reliable(service) ==>
              SourceDecides(service, spec.Asked(), faults, old(spec.location), old(service.World()), r)
  {
    hide CreatedInService, ResultFulfils, CloneFrom, RestoreFrom, SomeServes, PickDecides, SharesSpared, Dsm.Valid;
    match spec.source {
      case SourceVolume(id) => r := CreateFromVolume(service, spec, id, faults);
      case SourceSnapshot(found) => r := CreateFromSnapshot(service, spec, found);
      case NoSource => r := CreateOnSome(service, spec);
    }
  }

  method CreateFromVolume(service: DsmService, spec: CreateSpec, id: string, faults: set<Call>)
    returns (r: Result<Volume, Code>)
    requires service.Valid() && spec.source.SourceVolume?
    modifies service.Members(), spec`location
    ensures service.Valid()
    ensures CreatedInService(spec.Asked(), old(service.World()), old(Traces(service)), Traces(service), r)
    ensures ResultFulfils(service, spec.Asked(), old(spec.location), old(service.World()), r)
    ensures SharesSpared(spec.Asked(), old(service.World()), service.World())
    ensures Reliable(service) && faults == {} ==> CloneFrom(spec.Asked(), id, old(service.World()), r)
  {
    hide CreatedInService, CreatedOn, ClonedAs, CloneFrom, SharesSpared, Dsm.Valid, VolumeLookup, VisibleInBox, Fulfils;
    ghost var w, starts, location := service.World(), Traces(service), spec.location;
    ValidWorld(service);
    var src := service.GetVolume(faults, id);
    assert service.World() == w;
    NothingInService(spec.Asked(), w, starts);
    NothingSpared(spec.Asked(), w);
    if src.Unknown? {
      UnknownNeedsFault(w, faults, id, src);
      return Err(Unavailable);
    }
    if src.Absent? {
      ClonedFrom(w, faults, id, src, spec.Asked(), Err(NotFound));
      return Err(NotFound);
    }
    FoundOnDsm(service, faults, id, src);
    var ip := src.volume.ip;
    r := CloneIn(service, ip, spec, src.volume);
    OneInService(spec.Asked(), w, starts, Traces(service), ip, r);
    OneFulfils(service, spec.Asked(), location, w, starts, Traces(service), ip, BoxOf(service.dsms[ip]), r);
    if service.dsms[ip].reliable {
      ClonedFrom(w, faults, id, src, spec.Asked(), r);
    }
  }

  // On one of the DSMs, with the others left alone.
  method CloneIn(service: DsmService, ip: string, spec: CreateSpec, src: Volume) returns (r: Result<Volume, Code>)
    requires service.Valid() && ip in service.dsms && spec.source.SourceVolume?
    requires VisibleInBox(BoxOf(service.dsms[ip]), src)
    modifies service.dsms[ip], spec`location
    ensures service.Valid()
    ensures Traces(service) == old(Traces(service))[ip := service.dsms[ip].Now()]
    ensures service.World() == old(service.World())[ip := BoxOf(service.dsms[ip])]
    ensures var dsm := service.dsms[ip];
            && CreatedOn(spec.Asked(), ip, old(BoxOf(dsm)), old(dsm.Now()), dsm.Now(), r)
            && (r.Ok? ==> Fulfils(spec.Asked(), old(spec.location), old(dsm.store), dsm.copiesKeepSize, r.value))
            && (!spec.protocol.IsShare() ==> dsm.store.shares == old(dsm.store.shares))
            && (dsm.reliable ==> ClonedAs(spec.Asked(), src, old(BoxOf(dsm)), r))
  {
    hide CreatedOn, Fulfils, ClonedAs, Dsm.Valid, VisibleInBox;
    r := CloneOn(service.dsms[ip], spec, src);
  }

  lemma OneFulfils(service: DsmService, p: Params, location: string, w: World, starts: map<string, Trace>,
                   ends: map<string, Trace>, ip: string, after: Box, r: Result<Volume, Code>)
    requires ip in service.dsms && ip in w && ip in starts && ip in ends && !p.source.NoSource?
    requires p.source.SourceVolume? || Invited(p, ip)
    requires CreatedOn(p, ip, w[ip], starts[ip], ends[ip], r)
    requires r.Ok? ==> Fulfils(p, location, w[ip].store, service.dsms[ip].copiesKeepSize, r.value)
    requires !p.protocol.IsShare() ==> after.store.shares == w[ip].store.shares
    ensures OnDsm(ip, r) && ResultFulfils(service, p, location, w, r) && SharesSpared(p, w, w[ip := after])
  {
    hide Fulfils, Built;
    OneSpared(p, w, ip, after);
  }

  method CreateFromSnapshot(service: DsmService, spec: CreateSpec, found: Option<Snapshot>)
    returns (r: Result<Volume, Code>)
    requires service.Valid() && spec.source.SourceSnapshot?
    modifies service.Members(), spec`location
    ensures service.Valid()
    ensures CreatedInService(spec.Asked(), old(service.World()), old(Traces(service)), Traces(service), r)
    ensures ResultFulfils(service, spec.Asked(), old(spec.location), old(service.World()), r)
    ensures SharesSpared(spec.Asked(), old(service.World()), service.World())
    ensures RestoreFrom(service, spec.Asked(), found, old(spec.location), old(service.World()), r)
  {
    hide CreatedInService, CreatedOn, Fulfils, RestoredAs, SharesSpared, Dsm.Valid;
    ghost var w, starts, location := service.World(), Traces(service), spec.location;
    NothingInService(spec.Asked(), w, starts);
    NothingSpared(spec.Asked(), w);
    if found.None? {
      return Err(NotFound);
    }
    var snap := found.value;
    if (spec.dsmIp != "" && spec.dsmIp != snap.ip) || (spec.location != "" && spec.location != snap.rootPath) {
      return Err(InvalidArgument);
    }
    if (spec.protocol == Iscsi || snap.protocol == Iscsi) && spec.protocol != snap.protocol {
      return Err(InvalidArgument);
    }
    if snap.ip !in service.dsms {
      return Err(Internal);
    }
    r := RestoreIn(service, snap.ip, spec, snap);
    OneInService(spec.Asked(), w, starts, Traces(service), snap.ip, r);
    OneFulfils(service, spec.Asked(), location, w, starts, Traces(service), snap.ip, BoxOf(service.dsms[snap.ip]), r);
  }

  method RestoreIn(service: DsmService, ip: string, spec: CreateSpec, src: Snapshot) returns (r: Result<Volume, Code>)
    requires service.Valid() && ip in service.dsms && spec.source.SourceSnapshot?
    requires spec.location == "" || spec.location == src.rootPath
    modifies service.dsms[ip], spec`location
    ensures service.Valid()
    ensures Traces(service) == old(Traces(service))[ip := service.dsms[ip].Now()]
    ensures service.World() == old(service.World())[ip := BoxOf(service.dsms[ip])]
    ensures var dsm := service.dsms[ip];
            && CreatedOn(spec.Asked(), ip, old(BoxOf(dsm)), old(dsm.Now()), dsm.Now(), r)
            && (r.Ok? ==> Fulfils(spec.Asked(), old(spec.location), old(dsm.store), dsm.copiesKeepSize, r.value))
            && (!spec.protocol.IsShare() ==> dsm.store.shares == old(dsm.store.shares))
            && (dsm.reliable ==> RestoredAs(dsm, spec.Asked(), src, old(dsm.store), r))
  {
    hide CreatedOn, Fulfils, RestoredAs, Dsm.Valid;
    r := RestoreOn(service.dsms[ip], spec, src);
  }

  lemma NothingSpared(p: Params, w: World)
    ensures SharesSpared(p, w, w)
  {
  }

  lemma OneSpared(p: Params, w: World, ip: string, box: Box)
    requires ip in w && (p.source.NoSource? ==> Invited(p, ip))
    requires !p.protocol.IsShare() ==> box.store.shares == w[ip].store.shares
    ensures SharesSpared(p, w, w[ip := box])
  {
  }

  lemma NothingInService(p: Params, w: World, starts: map<string, Trace>)
    requires w.Keys == starts.Keys
    ensures forall code :: CreatedInService(p, w, starts, starts, Err(code))
  {
    forall t: Trace ensures RolledBack(p.own, t, t) { UntouchedIsRolledBack(p.own, t); }
  }

  lemma OneInService(p: Params, w: World, starts: map<string, Trace>, ends: map<string, Trace>, ip: string,
                     r: Result<Volume, Code>)
    requires w.Keys == starts.Keys == ends.Keys && ip in w && ends == starts[ip := ends[ip]]
    requires CreatedOn(p, ip, w[ip], starts[ip], ends[ip], r)
    ensures CreatedInService(p, w, starts, ends, r)
  {
    hide RolledBack;
    forall t: Trace ensures RolledBack(p.own, t, t) { UntouchedIsRolledBack(p.own, t); }
  }

  lemma ClonedFrom(w: World, faults: set<Call>, id: string, src: Lookup, p: Params, r: Result<Volume, Code>)
    requires WorldValid(w) && VolumeLookup(w, faults, IdShare(id), IdVolume(id), src)
    requires src.Found? ==> ClonedAs(p, src.volume, w[src.volume.ip], r) && OnDsm(src.volume.ip, r)
    requires src.Absent? ==> r == Err(NotFound)
    ensures faults == {} ==> CloneFrom(p, id, w, r)
  {
    if faults == {} {
      NoFaultsDecide(w, IdShare(id), IdVolume(id), src);
      if src.Found? {
        assert Visible(w, src.volume) && src.volume.VolumeId() == id;
      } else {
        AbsentMeansGone(w, faults, id);
      }
    }
  }

  lemma UntouchedIsRolledBack(own: Own, t: Trace)
    ensures RolledBack(own, t, t)
  {
    assert t.tried[|t.tried|..] == [] && t.made[|t.made|..] == [];
  }

  lemma ValidWorld(service: DsmService)
    requires service.Valid()
    ensures WorldValid(service.World())
  {
  }

  lemma UnknownNeedsFault(w: World, faults: set<Call>, id: string, src: Lookup)
    requires WorldValid(w) && VolumeLookup(w, faults, IdShare(id), IdVolume(id), src) && src.Unknown?
    ensures faults != {}
  {
    if faults == {} {
      NoFaultsDecide(w, IdShare(id), IdVolume(id), src);
    }
  }

  lemma FoundOnDsm(service: DsmService, faults: set<Call>, id: string, r: Lookup)
    requires service.Valid() && r.Found? && VolumeLookup(service.World(), faults, IdShare(id), IdVolume(id), r)
    ensures r.volume.ip in service.dsms && VisibleInBox(BoxOf(service.dsms[r.volume.ip]), r.volume)
  {
  }

  // The first DSM, in whatever order they come, that can create the volume.
  method CreateOnSome(service: DsmService, spec: CreateSpec) returns (r: Result<Volume, Code>)
    requires service.Valid() && spec.source.NoSource?
    modifies service.Members(), spec`location
    ensures service.Valid()
    ensures CreatedInService(spec.Asked(), old(service.World()), old(Traces(service)), Traces(service), r)
    ensures ResultFulfils(service, spec.Asked(), old(spec.location), old(service.World()), r)
    ensures SharesSpared(spec.Asked(), old(service.World()), service.World())
    ensures Reliable(service) && old(spec.location) != "" ==>
              (r.Ok? <==> SomeServes(service, spec.Asked(), old(spec.location), old(service.World())))
    ensures Reliable(service) && old(spec.location) == "" ==>
              PickDecides(service, spec.Asked(), old(service.World()), r.Ok?)
  {
    hide RolledBack, CreatedOn, Dsm.Valid, Serves, BoxOf, CreatedInService, Fulfils, SharesSpared;
    hide Untried, Reliable, NoneServes, SomeServes, PickDecides, PickLeft, PickedOn;
    ghost var own, w, starts, p, location :=
        spec.Names(), service.World(), Traces(service), spec.Asked(), spec.location;
    var rest := service.dsms.Keys;
    NothingTriedYet(own, w, starts, service, p, location);
    NothingSpared(p, w);
    NothingPicked(service, p, w);
    while rest != {}
      invariant rest <= service.dsms.Keys
      invariant service.Valid()
      invariant Untried(own, w, starts, service.World(), Traces(service), rest)
      invariant location != "" ==> spec.location == location
      invariant Reliable(service) && location != "" ==> NoneServes(service, rest, p, location, w)
      invariant Reliable(service) && location == "" ==> PickLeft(service, rest, p, w, spec.location)
      invariant SharesSpared(p, w, service.World())
      decreases rest
    {
      var ip :| ip in rest;
      ghost var now, ends := service.World(), Traces(service);
      UntriedIsAsBefore(own, w, starts, now, ends, rest, ip);
      ghost var asked := spec.location;
      r := TryOn(service, ip, spec, w[ip], starts[ip]);
      MoreSpared(p, w, now, ip, BoxOf(service.dsms[ip]));
      NextPickLeft(service, rest, p, w, asked, spec.location, ip, r.Ok?);
      if r.Ok? {
        FulfilsAskedFirst(p, location, asked, w[ip].store, service.dsms[ip].copiesKeepSize, r.value);
        SucceededInService(p, w, starts, ends, Traces(service), now, rest, ip, r);
        SomeServed(service, ip, p, location, w);
        return;
      }
      NextUntried(own, w, starts, now, ends, service.World(), Traces(service), rest, ip);
      NextServesNot(service, rest, ip, p, location, w);
      rest := rest - {ip};
    }
    FailedInService(p, w, starts, service.World(), Traces(service));
    NoneServed(service, p, location, w);
    NoPickServed(service, p, w, spec.location);
    return Err(Internal);
  }

  lemma FulfilsAskedFirst(p: Params, location: string, asked: string, a: Store, keepsSize: bool, v: Volume)
    requires Fulfils(p, asked, a, keepsSize, v) && (location == "" || asked == location)
    ensures Fulfils(p, location, a, keepsSize, v)
  {
    hide SizeDecided, Delivers;
  }

  lemma MoreSpared(p: Params, w: World, now: World, ip: string, box: Box)
    requires SharesSpared(p, w, now) && p.source.NoSource? && ip in w
    requires box.store.shares != w[ip].store.shares ==> p.protocol.IsShare() && Invited(p, ip)
    ensures SharesSpared(p, w, now[ip := box])
  {
  }

  // No DSM tried so far had a location to pick, or one did and none tried since can serve there.
  ghost predicate PickLeft(service: DsmService, rest: set<string>, p: Params, w: World, location: string)
    requires w.Keys == service.dsms.Keys
  {
    if location == "" then forall ip, path | ip in w && ip !in rest :: !PickedBy(service, p, ip, path)
    else
      && (exists ip :: PickedBy(service, p, ip, location))
      && forall ip, path | ip in w && ip !in rest && PickedBy(service, p, ip, path) ::
          !Serves(service, ip, p, location, w[ip].store)
  }

  lemma NothingPicked(service: DsmService, p: Params, w: World)
    requires w.Keys == service.dsms.Keys
    ensures PickLeft(service, service.dsms.Keys, p, w, "")
  {
  }

  lemma NextPickLeft(service: DsmService, rest: set<string>, p: Params, w: World, asked: string, location: string,
                     ip: string, ok: bool)
    requires w.Keys == service.dsms.Keys && ip in rest && ip in w
    requires Invited(p, ip) || (location == asked && !ok)
    requires service.dsms[ip].reliable && asked == "" && Invited(p, ip) ==>
               PickedOn(service.dsms[ip], p, w[ip].store, location, ok)
    requires service.dsms[ip].reliable && asked != "" ==>
               location == asked && (ok <==> Serves(service, ip, p, location, w[ip].store))
    ensures Reliable(service) && PickLeft(service, rest, p, w, asked) ==>
              if ok then PickDecides(service, p, w, true) else PickLeft(service, rest - {ip}, p, w, location)
  {
    hide Hosts, MayPick;
    if Reliable(service) && PickLeft(service, rest, p, w, asked) && asked == "" && location != "" {
      assert PickedBy(service, p, ip, location);
    }
  }

  lemma NoPickServed(service: DsmService, p: Params, w: World, location: string)
    requires w.Keys == service.dsms.Keys
    ensures PickLeft(service, {}, p, w, location) ==> PickDecides(service, p, w, false)
  {
    hide Serves, MayPick;
  }

  // The loop over the DSMs: those in rest are as they were, the others have been tried in vain.
  ghost predicate Untried(own: Own, w: World, starts: map<string, Trace>, now: World, ends: map<string, Trace>,
                          rest: set<string>) {
    && w.Keys == starts.Keys == now.Keys == ends.Keys && rest <= w.Keys
    && (forall ip | ip in rest :: ends[ip] == starts[ip] && now[ip] == w[ip])
    && forall ip | ip in w :: RolledBack(own, starts[ip], ends[ip])
  }

  lemma NothingTriedYet(own: Own, w: World, starts: map<string, Trace>, service: DsmService, p: Params,
                        location: string)
    requires w.Keys == starts.Keys == service.dsms.Keys
    ensures Untried(own, w, starts, w, starts, service.dsms.Keys)
    ensures NoneServes(service, service.dsms.Keys, p, location, w)
  {
    forall t: Trace ensures RolledBack(own, t, t) { UntouchedIsRolledBack(own, t); }
  }

  lemma UntriedIsAsBefore(own: Own, w: World, starts: map<string, Trace>, now: World, ends: map<string, Trace>,
                          rest: set<string>, ip: string)
    requires Untried(own, w, starts, now, ends, rest) && ip in rest
    ensures ip in w && ip in starts && ip in now && ip in ends && ends[ip] == starts[ip] && now[ip] == w[ip]
  {
    hide RolledBack, CreatedOn;
  }

  lemma NextUntried(own: Own, w: World, starts: map<string, Trace>, now: World, ends: map<string, Trace>, now': World,
                    ends': map<string, Trace>, rest: set<string>, ip: string)
    requires Untried(own, w, starts, now, ends, rest) && ip in rest && ip in starts && ip in now' && ip in ends'
    requires now' == now[ip := now'[ip]] && ends' == ends[ip := ends'[ip]] && RolledBack(own, starts[ip], ends'[ip])
    ensures Untried(own, w, starts, now', ends', rest - {ip})
  {
    hide RolledBack, CreatedOn;
  }

  lemma SucceededInService(p: Params, w: World, starts: map<string, Trace>, ends: map<string, Trace>,
                           ends': map<string, Trace>, now: World, rest: set<string>, ip: string,
                           r: Result<Volume, Code>)
    requires Untried(p.own, w, starts, now, ends, rest) && ip in rest && ip in w && ip in starts && ip in ends'
    requires ends' == ends[ip := ends'[ip]] && r.Ok? && r.value.ip == ip
    requires CreatedOn(p, ip, w[ip], starts[ip], ends'[ip], r)
    ensures CreatedInService(p, w, starts, ends', r)
  {
    hide RolledBack, CreatedOn;
  }

  lemma FailedInService(p: Params, w: World, starts: map<string, Trace>, now: World, ends: map<string, Trace>)
    requires Untried(p.own, w, starts, now, ends, {})
    ensures forall code :: CreatedInService(p, w, starts, ends, Err(code))
  {
    hide RolledBack, CreatedOn;
  }

  // One round of the loop: passes over a DSM that was not asked for or cannot serve the protocol.
  method TryOn(service: DsmService, ip: string, spec: CreateSpec, ghost box: Box, ghost start: Trace)
    returns (r: Result<Volume, Code>)
    requires service.Valid() && spec.source.NoSource?
    requires ip in service.dsms && service.dsms[ip].Now() == start && BoxOf(service.dsms[ip]) == box
    modifies service.dsms[ip], spec`location
    ensures service.Valid()
    ensures Traces(service) == old(Traces(service))[ip := service.dsms[ip].Now()]
    ensures service.World() == old(service.World())[ip := BoxOf(service.dsms[ip])]
    ensures CreatedOn(spec.Asked(), ip, box, start, service.dsms[ip].Now(), r)
    ensures BoxOf(service.dsms[ip]).store.shares != box.store.shares ==>
              spec.protocol.IsShare() && Invited(spec.Asked(), ip)
    ensures Invited(spec.Asked(), ip) || (r.Err? && spec.location == old(spec.location))
    ensures service.dsms[ip].reliable && old(spec.location) == "" && Invited(spec.Asked(), ip) ==>
              PickedOn(service.dsms[ip], spec.Asked(), box.store, spec.location, r.Ok?)
    ensures r.Ok? ==>
              && r.value.ip == ip
              && Fulfils(spec.Asked(), old(spec.location), box.store, service.dsms[ip].copiesKeepSize, r.value)
    ensures r.Err? ==> RolledBack(spec.Names(), start, service.dsms[ip].Now())
    ensures old(spec.location) != "" ==> spec.location == old(spec.location)
    ensures service.dsms[ip].reliable && old(spec.location) != "" ==>
              (r.Ok? <==> Serves(service, ip, spec.Asked(), spec.location, box.store))
  {
    hide RolledBack, Dsm.Valid, Fulfils, CreatedOn, Hosts, ServesNfs, PickedOn, Traces, DsmService.World;
    NothingToPick(service.dsms[ip], spec.Asked(), box.store);
    PassedOver(spec.Asked(), ip, box, start);
    NothingReplaced(service, ip);
    OnlyServesNfs(service.dsms[ip], spec.Asked(), spec.location, box.store);
    if !Admits(service.dsms[ip], spec) {
      return Err(Internal);
    }
    if spec.protocol == Nfs {
      r := CreateNfsIn(service, ip, spec, box, start);
    } else {
      r := CreateIn(service, ip, spec, box, start);
    }
  }

  predicate Admits(dsm: Dsm, spec: CreateSpec) {
    !(spec.dsmIp != "" && spec.dsmIp != dsm.ip) && !(spec.protocol == Nvme && !dsm.supportNvmeof)
  }

  method CreateNfsIn(service: DsmService, ip: string, spec: CreateSpec, ghost box: Box, ghost start: Trace)
    returns (r: Result<Volume, Code>)
    requires service.Valid() && spec.source.NoSource? && spec.protocol == Nfs
    requires ip in service.dsms && service.dsms[ip].Now() == start && BoxOf(service.dsms[ip]) == box
    modifies service.dsms[ip], spec`location
    ensures service.Valid()
    ensures Traces(service) == old(Traces(service))[ip := service.dsms[ip].Now()]
    ensures service.World() == old(service.World())[ip := BoxOf(service.dsms[ip])]
    ensures CreatedOn(spec.Asked(), ip, box, start, service.dsms[ip].Now(), r)
    ensures r.Ok? ==>
              && r.value.ip == ip
              && Fulfils(spec.Asked(), old(spec.location), box.store, service.dsms[ip].copiesKeepSize, r.value)
    ensures r.Err? ==> RolledBack(spec.Names(), start, service.dsms[ip].Now())
    ensures old(spec.location) != "" ==> spec.location == old(spec.location)
    ensures service.dsms[ip].store.shares != box.store.shares ==> spec.protocol.IsShare()
    ensures service.dsms[ip].reliable && old(spec.location) == "" ==>
              PickedOn(service.dsms[ip], spec.Asked(), box.store, spec.location, r.Ok?)
    ensures service.dsms[ip].reliable && old(spec.location) != "" ==>
              (r.Ok? <==> Hosts(service.dsms[ip], spec.Asked(), spec.location, box.store))
  {
    hide RolledBack, Dsm.Valid, Fulfils, CreatedOn, Hosts, ServesNfs, PickedOn;
    NothingToPick(service.dsms[ip], spec.Asked(), box.store);
    ghost var now, traces := service.World(), Traces(service);
    PassedOver(spec.Asked(), ip, box, start);
    NothingReplaced(service, ip);
    OnlyServesNfs(service.dsms[ip], spec.Asked(), spec.location, box.store);
    var supported := NfsVersionSupported(service.dsms[ip], spec.nfsVersion);
    assert service.World() == now && Traces(service) == traces;
    if !supported {
      return Err(Internal);
    }
    r := CreateIn(service, ip, spec, box, start);
  }

  lemma NothingReplaced(service: DsmService, ip: string)
    requires ip in service.dsms
    ensures Traces(service) == Traces(service)[ip := service.dsms[ip].Now()]
    ensures service.World() == service.World()[ip := BoxOf(service.dsms[ip])]
  {
  }

  lemma OnlyServesNfs(dsm: Dsm, p: Params, location: string, s: Store)
    ensures Hosts(dsm, p, location, s) ==>
              (p.protocol == Nfs ==> ServesNfs(dsm, p.nfsVersion)) && (p.protocol == Nvme ==> dsm.supportNvmeof)
  {
  }

  lemma PassedOver(p: Params, ip: string, a: Box, t: Trace)
    ensures RolledBack(p.own, t, t) && forall code :: CreatedOn(p, ip, a, t, t, Err(code))
  {
    UntouchedIsRolledBack(p.own, t);
  }

  method CreateIn(service: DsmService, ip: string, spec: CreateSpec, ghost box: Box, ghost start: Trace)
    returns (r: Result<Volume, Code>)
    requires service.Valid() && spec.source.NoSource?
    requires ip in service.dsms && service.dsms[ip].Now() == start && BoxOf(service.dsms[ip]) == box
    requires spec.protocol == Nvme ==> service.dsms[ip].supportNvmeof
    modifies service.dsms[ip], spec`location
    ensures service.Valid()
    ensures Traces(service) == old(Traces(service))[ip := service.dsms[ip].Now()]
    ensures service.World() == old(service.World())[ip := BoxOf(service.dsms[ip])]
    ensures CreatedOn(spec.Asked(), ip, box, start, service.dsms[ip].Now(), r)
    ensures r.Ok? ==>
              && r.value.ip == ip
              && Fulfils(spec.Asked(), old(spec.location), box.store, service.dsms[ip].copiesKeepSize, r.value)
    ensures r.Err? ==> RolledBack(spec.Names(), start, service.dsms[ip].Now())
    ensures old(spec.location) != "" ==> spec.location == old(spec.location)
    ensures service.dsms[ip].store.shares != box.store.shares ==> spec.protocol.IsShare()
    ensures service.dsms[ip].reliable && (spec.protocol == Nfs ==> ServesNfs(service.dsms[ip], spec.nfsVersion)) ==>
              && (r.Ok? <==> Hosts(service.dsms[ip], spec.Asked(), spec.location, box.store))
              && (old(spec.location) == "" ==>
                    PickedOn(service.dsms[ip], spec.Asked(), box.store, spec.location, r.Ok?))
  {
    hide RolledBack, Dsm.Valid, Built, Fulfils, Hosts, PickedOn;
    r := CreateOn(service.dsms[ip], spec);
  }

  // A DSM that cannot serve the protocol is right to refuse.
  lemma NothingToPick(dsm: Dsm, p: Params, s: Store)
    ensures (p.protocol == Nfs && !ServesNfs(dsm, p.nfsVersion)) || (p.protocol == Nvme && !dsm.supportNvmeof) ==>
              PickedOn(dsm, p, s, "", false)
  {
  }

  // isNfsVersionSupport: asks the DSM, and has it enable its highest NFS version.
  method NfsVersionSupported(dsm: Dsm, version: string) returns (supported: bool)
    ensures supported ==> ServesNfs(dsm, version)
    ensures dsm.reliable ==> (supported <==> ServesNfs(dsm, version))
  {
    var info := dsm.NfsGet();
    if info.Err? {
      return false;
    }
    var wanted := NfsVersion(version, info.value.0, info.value.1);
    if wanted.None? {
      return false;
    }
    var (major, minor) := wanted.value;
    if major > info.value.0 || (major == info.value.0 && minor > info.value.1) {
      return false;
    }
    var enabled := dsm.NfsSet();
    return enabled.Ok?;
  }

  // ---- DeleteVolume ----

  // Deletes what v stands for on its DSM. A refused delete still succeeds when the object turns out to be gone,
  // and the target goes too unless v was only one of the LUNs it serves.
  method DeleteOn(dsm: Dsm, v: Volume) returns (r: Result<(), Code>)
    requires dsm.Valid() && VisibleInBox(BoxOf(dsm), v)
    modifies dsm`store
    ensures dsm.Valid()
    ensures DeletedFrom(old(dsm.store), dsm.store, v)
    ensures r.Ok? ==> ObjectGone(dsm.store, v)
    ensures dsm.reliable ==> r.Ok? && dsm.store == Removed(old(dsm.store), v)
  {
    match v {
      case ShareVolume(_, name, _, _) =>
        var d := dsm.ShareDelete(name);
        if d.Err? {
          return Err(Internal);
        }

      case NamespaceVolume(_, nsId, _, subsystemId, _) =>
        var d := dsm.NamespaceDelete(nsId);
        if d.Err? {
          var g := dsm.NamespaceGet(nsId);
          if g == Err(NoSuchNamespace) {
            return Ok(());
          }
          return Err(Internal);
        }
        var ds := dsm.SubsystemDelete(subsystemId);
        if ds.Err? {
          var g := dsm.SubsystemGet(subsystemId);
          if g == Err(FailedToGetSubsystem) {
            return Ok(());
          }
          return Err(Internal);
        }

      case LunVolume(_, lunId, _, targetId, target) =>
        var d := dsm.LunDelete(lunId);
        if d.Err? {
          var g := dsm.LunGet(lunId);
          if g == Err(NoSuchLun) {
            return Ok(());
          }
          return Err(Internal);
        }
        if |target.mapped| != 1 {
          return Ok(());
        }
        var dt := dsm.TargetDelete(targetId);
        if dt.Err? {
          var g := dsm.TargetGet(targetId);
          if g.Err? {
            return Ok(());
          }
          return Err(Internal);
        }
    }
    return Ok(());
  }

  method DeleteVolume(service: DsmService, volId: string, faults: set<Call>)
    returns (r: Result<(), Code>, ghost e: Event)
    requires service.Valid()
    modifies service.Members()
    ensures service.Valid()
    ensures e.Unchanged? || (e.Deleted? && e.volume.VolumeId() == volId)
    ensures Step(old(service.World()), e, service.World())
    ensures r.Ok? && UniqueIds(old(service.World())) ==> forall u | Visible(service.World(), u) :: u.VolumeId() != volId
    ensures Reliable(service) && faults == {} ==>
              && r.Ok?
              && (e.Unchanged? ==> forall u | Visible(old(service.World()), u) :: u.VolumeId() != volId)
              && (e.Deleted? ==> e.volume.ip in service.World()
                                 && service.World()[e.volume.ip].store
                                     == Removed(old(service.World())[e.volume.ip].store, e.volume))
  {
    hide VisibleInBox, Dsm.Valid, Store.Valid, DeletedFrom, UniqueIds, Removed;
    e := Unchanged;
    ghost var w := service.World();
    ValidWorld(service);
    var found := service.GetVolume(faults, volId);
    assert service.World() == w;
    if found.Unknown? {
      UnknownNeedsFault(w, faults, volId, found);
      return Err(Unavailable), e;
    }
    if found.Absent? {
      AbsentMeansGone(w, faults, volId);
      return Ok(()), e;
    }
    var v := found.volume;
    var dsm := service.dsms[v.ip];
    r := DeleteOn(dsm, v);
    e := Deleted(v);
    assert service.World() == WithStore(w, v.ip, dsm.store);
    if r.Ok? {
      GoneById(w, service.World(), v, volId);
    }
  }

  lemma AbsentMeansGone(w: World, faults: set<Call>, volId: string)
    requires VolumeLookup(w, faults, IdShare(volId), IdVolume(volId), Absent)
    ensures forall u | Visible(w, u) :: u.VolumeId() != volId
  {
    forall u | Visible(w, u) ensures u.VolumeId() != volId {
      assert !Hit(IdShare(volId), IdVolume(volId), u);
    }
  }

  lemma GoneById(w: World, w': World, v: Volume, volId: string)
    requires Step(w, Deleted(v), w') && ObjectGone(w'[v.ip].store, v) && v.VolumeId() == volId
    ensures UniqueIds(w) ==> forall u | Visible(w', u) :: u.VolumeId() != volId
  {
    if UniqueIds(w) {
      DeletedIsGone(w, w', v);
    }
  }

  // ---- ExpandVolume ----

  method ExpandOn(dsm: Dsm, v: Volume, newSize: nat) returns (r: Result<(), Code>)
    requires dsm.Valid() && VisibleInBox(BoxOf(dsm), v) && newSize > 0
    modifies dsm`store
    ensures dsm.Valid() && HasObject(old(dsm.store), v)
    ensures dsm.store == if r.Ok? then ExpandedStore(old(dsm.store), v, newSize) else old(dsm.store)
    ensures dsm.reliable ==> r.Ok?
  {
    match v {
      case ShareVolume(_, name, _, _) =>
        var done := dsm.SetShareQuota(name, BytesToMBCeil(newSize));
        r := if done.Ok? then Ok(()) else Err(Internal);
      case NamespaceVolume(_, nsId, _, _, _) =>
        var done := dsm.NamespaceSet(nsId, newSize);
        r := if done.Ok? then Ok(()) else Err(Internal);
      case LunVolume(_, lunId, _, _, _) =>
        var done := dsm.LunUpdate(lunId, newSize);
        r := if done.Ok? then Ok(()) else Err(Internal);
    }
  }

  // The answer is the size the volume now reports.
  method ExpandVolume(service: DsmService, volId: string, newSize: nat, faults: set<Call>)
    returns (r: Result<(Volume, int), Code>, ghost e: Event)
    requires service.Valid() && newSize > 0
    modifies service.Members()
    ensures service.Valid()
    ensures Step(old(service.World()), e, service.World())
    ensures r.Ok? ==> e == Expanded(r.value.0, newSize) && r.value.0.VolumeId() == volId
    ensures r.Ok? ==> r.value.1 == if r.value.0.ShareVolume? then RoundTrip(newSize) else newSize
    ensures r.Err? ==> e == Unchanged
    ensures Reliable(service) && faults == {} && r.Err? ==>
              && r.error == InvalidArgument
              && ((exists v :: Visible(old(service.World()), v) && v.VolumeId() == volId) ==>
                    exists v :: Visible(old(service.World()), v) && v.VolumeId() == volId && v.SizeInBytes() > newSize)
  {
    hide VisibleInBox, Dsm.Valid, Store.Valid;
    e := Unchanged;
    ghost var w := service.World();
    ValidWorld(service);
    var found := service.GetVolume(faults, volId);
    assert service.World() == w;
    if found.Unknown? {
      UnknownNeedsFault(w, faults, volId, found);
      return Err(Unavailable), e;
    }
    if found.Absent? {
      AbsentMeansGone(w, faults, volId);
      return Err(InvalidArgument), e;
    }
    var v := found.volume;
    if v.SizeInBytes() > newSize {
      return Err(InvalidArgument), e;
    }
    var dsm := service.dsms[v.ip];
    var done := ExpandOn(dsm, v, newSize);
    if done.Err? {
      assert service.World() == w;
      return Err(Internal), e;
    }
    e := Expanded(v, newSize);
    assert service.World() == WithStore(w, v.ip, dsm.store);
    r := Ok((v, if v.ShareVolume? then MBToBytes(BytesToMBCeil(newSize)) else newSize));
  }
}
