/** Staging, publishing and unstaging an iSCSI volume on a node (pkg/driver/nodeserver.go). */
module Nodes {
  import opened Results
  import opened Stores
  import opened Dsms
  import opened Volumes
  import opened Worlds
  import opened Lookups
  import Provisioning
  import opened Steps
  import opened OneToOneRuns
  import opened Texts
  import opened Multipath
  import opened Identity

  datatype Surroundings = Surroundings(
    iqnOf: (string, TargetId) -> string,  // the IQN of a DSM's target
    portals: string -> seq<string>,  // what getPortals answers for a DSM
    loginFails: string -> bool,  // by portal
    pathMissing: string -> bool,  // by device path
    lsblk: Option<seq<seq<string>>>,
    appears: bool,
    sysfs: Sysfs)

  // The target has no first mapping when the volume found is no LUN; indexing it panics.
  datatype NodeError = Status(code: Code) | NoFirstMapping

  datatype Login = Login(paths: seq<string>, iqn: string, lun: nat)

  function DevicePath(portal: string, iqn: string, lun: nat): string {
    "/dev/disk/by-path/ip-" + portal + "-iscsi-" + iqn + "-lun-" + Itoa(lun)
  }

  // iqn and lun are those of the first mapping of a visible volume with the id.
  ghost predicate StandsFor(w: World, env: Surroundings, volumeId: string, v: Volume, iqn: string, lun: nat) {
    && Visible(w, v) && v.LunVolume? && v.lunId == volumeId
    && iqn == env.iqnOf(v.ip, v.targetId)
    && v.target.mapped != [] && v.target.mapped[0].index == lun
  }

  // dev was checked against such an iqn and lun, and not rejected.
  ghost predicate Accepted(w: World, env: Surroundings, volumeId: string, dev: string) {
    exists v, iqn, lun :: StandsFor(w, env, volumeId, v, iqn, lun) && !Rejected(env.sysfs, dev, iqn, lun)
  }

  // The volume is a LUN, and the node can log in to its target through every portal of its DSM.
  ghost predicate Reachable(env: Surroundings, v: Volume) {
    && v.LunVolume? && v.target.mapped != [] && env.portals(v.ip) != []
    && forall portal | portal in env.portals(v.ip) ::
        !env.loginFails(portal) && !env.pathMissing(PathOf(env, v, portal))
  }

  function PathOf(env: Surroundings, v: Volume, portal: string): string
    requires v.LunVolume? && v.target.mapped != []
  {
    DevicePath(portal, env.iqnOf(v.ip, v.targetId), v.target.mapped[0].index)
  }

  // The device behind the paths of v: the only one, or the multipath device chosen above them.
  ghost predicate LeadsTo(env: Surroundings, v: Volume, dev: string)
    requires Reachable(env, v)
  {
    && env.appears
    && if |env.portals(v.ip)| == 1 then dev == PathOf(env, v, env.portals(v.ip)[0])
       else Chosen(env.lsblk, dev)
  }

  ghost predicate Chosen(lines: Option<seq<seq<string>>>, dev: string) {
    && lines.Some? && Parsed(lines.value).Ok? && Resolves(Parsed(lines.value).value)
    && var rows := Parsed(lines.value).value;
       exists m :: TreeChoice(Roots(rows, Rebuilt(rows, |rows|)), m) && dev == "/dev/mapper/" + m
  }

  // The device behind v is there and passes for v.
  ghost predicate Attachable(env: Surroundings, v: Volume) {
    Reachable(env, v) &&
    exists dev | LeadsTo(env, v, dev) ::
      !Rejected(env.sysfs, dev, env.iqnOf(v.ip, v.targetId), v.target.mapped[0].index)
  }

  // Whatever volume the id is looked up to can be attached.
  ghost predicate Ready(w: World, env: Surroundings, volumeId: string) {
    && (exists v :: Visible(w, v) && v.VolumeId() == volumeId)
    && forall v | Visible(w, v) && v.VolumeId() == volumeId :: Attachable(env, v)
  }

  class NodeServer {
    const service: DsmService
    const env: Surroundings
    var mounts: map<string, string>  // mount point -> what is mounted there

    constructor (service: DsmService, env: Surroundings)
      ensures this.service == service && this.env == env && mounts == map[]
    {
      this.service, this.env, mounts := service, env, map[];
    }

    method LoginTarget(volumeId: string, faults: set<Call>)
      returns (r: Result<Login, NodeError>, ghost v: Option<Volume>)
      requires service.Valid()
      ensures r.Ok? ==> v.Some? && StandsFor(service.World(), env, volumeId, v.value, r.value.iqn, r.value.lun)
      ensures r.Ok? ==> r.value.paths != [] && |r.value.paths| == |env.portals(v.value.ip)|
      ensures r.Ok? ==>
                var (portals, iqn, lun) := (env.portals(v.value.ip), r.value.iqn, r.value.lun);
                forall i | 0 <= i < |portals| ::
                  r.value.paths[i]
                  == "/dev/disk/by-path/ip-" + portals[i] + "-iscsi-" + iqn + "-lun-" + Itoa(lun)
      ensures r == Err(NoFirstMapping) ==>
                v.Some? && Visible(service.World(), v.value) && v.value.VolumeId() == volumeId && !v.value.LunVolume?
      ensures r == Err(Status(NotFound)) ==> forall u | Visible(service.World(), u) :: u.VolumeId() != volumeId
      ensures r == Err(Status(Unavailable)) ==> faults != {}
      ensures faults == {} && Ready(service.World(), env, volumeId) ==> r.Ok? && Attachable(env, v.value)
    {
      hide Dsm.Valid, Itoa, Attachable;
      ghost var w := service.World();
      var lookup := service.GetVolume(faults, volumeId);
      assert service.World() == w;
      v := None;
      if lookup.Unknown? {
        UnknownMeansFault(service, faults, volumeId, lookup);
        return Err(Status(Unavailable)), None;
      }
      if lookup.Absent? {
        AbsentIsNotReady(w, env, volumeId, faults);
        return Err(Status(NotFound)), None;
      }
      var volume := lookup.volume;
      v := Some(volume);
      FoundIsReachable(w, env, volumeId, volume);
      var portals := env.portals(volume.ip);
      if portals == [] {
        return Err(Status(Internal)), v;
      }
      if !volume.LunVolume? || volume.target.mapped == [] {
        return Err(NoFirstMapping), v;
      }
      var iqn, lun := env.iqnOf(volume.ip, volume.targetId), volume.target.mapped[0].index;
      var paths: seq<string> := [];
      for i := 0 to |portals|
        invariant |paths| == i && forall j | 0 <= j < i :: paths[j] == DevicePath(portals[j], iqn, lun)
      {
        var path := DevicePath(portals[i], iqn, lun);
        if env.loginFails(portals[i]) || env.pathMissing(path) {
          return Err(Status(Internal)), v;
        }
        paths := paths + [path];
      }
      return Ok(Login(paths, iqn, lun)), v;
    }

    // Logs in and checks the device found: what staging and publishing have in common.
    method CheckedDevice(volumeId: string, faults: set<Call>) returns (r: Result<string, NodeError>)
      requires service.Valid()
      ensures r.Ok? ==> r.value != "" && Accepted(service.World(), env, volumeId, r.value)
      ensures faults == {} && Ready(service.World(), env, volumeId) ==> r.Ok?
    {
      hide Dsm.Valid, Visible, Rejected, Ready, Attachable;
      ghost var w := service.World();
      var login, v := LoginTarget(volumeId, faults);
      assert service.World() == w;
      if login == Err(NoFirstMapping) {
        return Err(NoFirstMapping);
      }
      if login.Err? {
        return Err(Status(Internal));
      }
      var dev := GetVolumeMountPath(login.value.paths, env.lsblk, env.appears);
      assert service.World() == w;
      if Attachable(env, v.value) {
        AttachableIsFound(env, v.value, login.value.paths, dev);
      }
      if dev == "" {
        return Err(Status(Internal));
      }
      var ok := VerifyIscsiDevice(env.sysfs, dev, login.value.iqn, login.value.lun);
      assert service.World() == w;
      if !ok {
        return Err(Status(Internal));
      }
      assert StandsFor(w, env, volumeId, v.value, login.value.iqn, login.value.lun);
      return Ok(dev);
    }

    // nodeStageISCSIVolume. notMount is what the mount point check answers, None if it fails.
    method StageIscsi(isBlock: bool, volumeId: string, staging: string, faults: set<Call>, notMount: Option<bool>,
                      mountFails: bool, growFails: bool)
      returns (r: Result<(), NodeError>, dev: Option<string>)
      requires service.Valid()
      modifies this
      ensures mounts == if dev.Some? then old(mounts)[staging := dev.value] else old(mounts)
      ensures dev.Some? ==>
                !isBlock && notMount == Some(true) && !mountFails && Accepted(service.World(), env, volumeId, dev.value)
      ensures isBlock ==> r == Ok(())
      ensures r.Ok? && !isBlock && notMount == Some(true) ==> dev.Some? && !growFails
      ensures r.Ok? && !isBlock ==> notMount.Some?
      ensures dev.Some? && growFails ==> r == Err(Status(Internal))
      ensures !isBlock && notMount.Some? && faults == {} && Ready(service.World(), env, volumeId) ==>
                if notMount.value then (dev.Some? <==> !mountFails) && (r.Ok? <==> !mountFails && !growFails)
                else r.Ok?
    {
      hide Dsm.Valid, Accepted, Ready;
      dev := None;
      if isBlock {
        return Ok(()), None;
      }
      ghost var w := service.World();
      var checked := CheckedDevice(volumeId, faults);
      assert service.World() == w;
      if checked.Err? {
        return Err(checked.error), None;
      }
      if notMount.None? {
        return Err(Status(Internal)), None;
      }
      if !notMount.value {
        return Ok(()), None;
      }
      if mountFails {
        return Err(Status(Internal)), None;
      }
      mounts := mounts[staging := checked.value];
      assert service.World() == w;
      return if growFails then Err(Status(Internal)) else Ok(()), Some(checked.value);
    }

    // The iSCSI part of NodePublishVolume: a block volume's device itself, or the staged filesystem.
    method PublishIscsi(isBlock: bool, volumeId: string, staging: string, target: string, faults: set<Call>,
                        notMount: Option<bool>, mountFails: bool)
      returns (r: Result<(), NodeError>, dev: Option<string>)
      requires service.Valid()
      modifies this
      ensures mounts == if dev.Some? then old(mounts)[target := if isBlock then dev.value else staging] else old(mounts)
      ensures dev.Some? ==> r == Ok(()) && notMount == Some(true) && Accepted(service.World(), env, volumeId, dev.value)
      ensures notMount == Some(false) ==> r == Ok(())
      ensures r.Ok? && notMount == Some(true) ==> dev.Some?
      ensures r.Ok? ==> notMount.Some?
      ensures notMount == Some(true) && !mountFails && faults == {} && Ready(service.World(), env, volumeId) ==> r.Ok?
    {
      hide Dsm.Valid, Accepted, Ready;
      dev := None;
      if notMount.None? {
        return Err(Status(Internal)), None;
      }
      if !notMount.value {
        return Ok(()), None;
      }
      ghost var w := service.World();
      var checked := CheckedDevice(volumeId, faults);
      assert service.World() == w;
      if checked.Err? {
        return Err(checked.error), None;
      }
      if mountFails {
        return Err(Status(Internal)), None;
      }
      mounts := mounts[target := if isBlock then checked.value else staging];
      assert service.World() == w;
      return Ok(()), Some(checked.value);
    }

    // NodeUnstageVolume. Where logout flushes is decided by the first mapping again.
    method Unstage(volumeId: string, staging: string, faults: set<Call>, notMount: Option<bool>, unmountFails: bool)
      returns (r: Result<(), NodeError>, loggedOut: Option<(string, nat)>)
      requires service.Valid()
      modifies this
      ensures mounts == old(mounts) || (notMount == Some(false) && mounts == old(mounts) - {staging})
      ensures r.Ok? && notMount == Some(false) ==> staging !in mounts
      ensures loggedOut.Some? ==>
                exists v :: StandsFor(service.World(), env, volumeId, v, loggedOut.value.0, loggedOut.value.1)
      ensures r.Ok? && loggedOut.None? ==> forall v | Visible(service.World(), v) && v.VolumeId() == volumeId ::
                  exists u :: Visible(service.World(), u) && u.VolumeId() == volumeId && !u.LunVolume?
      ensures r == Err(Status(Unavailable)) ==> faults != {}
      ensures volumeId != "" && staging != "" && faults == {} ==>
                (r.Ok? <==> notMount.Some? && (notMount.value || !unmountFails))
    {
      hide Dsm.Valid;
      loggedOut := None;
      if volumeId == "" || staging == "" {
        return Err(Status(InvalidArgument)), None;
      }
      if notMount.None? {
        return Err(Status(Internal)), None;
      }
      if !notMount.value {
        if unmountFails {
          return Err(Status(Internal)), None;
        }
        mounts := mounts - {staging};
      }
      ghost var w := service.World();
      var lookup := service.GetVolume(faults, volumeId);
      assert service.World() == w;
      if lookup.Unknown? {
        UnknownMeansFault(service, faults, volumeId, lookup);
        return Err(Status(Unavailable)), None;
      }
      if lookup.Absent? {
        return Ok(()), None;
      }
      var v := lookup.volume;
      if v.LunVolume? {
        assert v.target.mapped != []
               && StandsFor(w, env, volumeId, v, env.iqnOf(v.ip, v.targetId), v.target.mapped[0].index);
        loggedOut := Some((env.iqnOf(v.ip, v.targetId), v.target.mapped[0].index));
      }
      return Ok(()), loggedOut;
    }
  }

  lemma AbsentIsNotReady(w: World, env: Surroundings, volumeId: string, faults: set<Call>)
    requires VolumeLookup(w, faults, IdShare(volumeId), IdVolume(volumeId), Absent)
    ensures !Ready(w, env, volumeId)
  {
    Provisioning.AbsentMeansGone(w, faults, volumeId);
  }

  lemma FoundIsReachable(w: World, env: Surroundings, volumeId: string, v: Volume)
    requires Visible(w, v) && v.VolumeId() == volumeId
    ensures Ready(w, env, volumeId) ==> Attachable(env, v) && Reachable(env, v)
  {
  }

  // The choice among the paths of v finds the device that passes for it.
  lemma AttachableIsFound(env: Surroundings, v: Volume, paths: seq<string>, path: string)
    requires Attachable(env, v) && |paths| == |env.portals(v.ip)|
    requires forall i | 0 <= i < |paths| :: paths[i] == PathOf(env, v, env.portals(v.ip)[i])
    requires |paths| == 1 && env.appears ==> path == paths[0]
    requires |paths| > 1 && env.appears && env.lsblk.Some? && Parsed(env.lsblk.value).Ok?
             && Resolves(Parsed(env.lsblk.value).value) ==>
               var rows := Parsed(env.lsblk.value).value;
               forall m | TreeChoice(Roots(rows, Rebuilt(rows, |rows|)), m) :: path == "/dev/mapper/" + m
    ensures path != "" && !Rejected(env.sysfs, path, env.iqnOf(v.ip, v.targetId), v.target.mapped[0].index)
  {
    hide Rejected, Parsed, Resolves, Roots, Rebuilt, TreeChoice, Itoa;
    var dev :| LeadsTo(env, v, dev) && !Rejected(env.sysfs, dev, env.iqnOf(v.ip, v.targetId), v.target.mapped[0].index);
    assert dev != "";
  }

  lemma UnknownMeansFault(service: DsmService, faults: set<Call>, volumeId: string, r: Lookup)
    requires service.Valid() && r.Unknown?
    requires VolumeLookup(service.World(), faults, IdShare(volumeId), IdVolume(volumeId), r)
    ensures faults != {}
  {
    Provisioning.ValidWorld(service);
    Provisioning.UnknownNeedsFault(service.World(), faults, volumeId, r);
  }

  // In a one to one world the first mapping is the volume's own and only one, and no other LUN answers to it.
  lemma StandsForItself(w: World, env: Surroundings, volumeId: string, v: Volume, iqn: string, lun: nat)
    requires WorldValid(w) && WorldOneToOne(w) && StandsFor(w, env, volumeId, v, iqn, lun)
    ensures v.target.mapped == [Mapping(volumeId, lun)]
    ensures forall u | Visible(w, u) && u.LunVolume? && u.ip == v.ip && u.targetId == v.targetId :: u == v
  {
    FirstMappingIsOwn(w, v);
    forall u | Visible(w, u) && u.LunVolume? && u.ip == v.ip && u.targetId == v.targetId ensures u == v {
      FirstMappingIsOwn(w, u);
    }
  }

  // From any run of the controller: every disk of a device that was accepted, whose place the kernel publishes, is the
  // LUN of the volume asked for, on the target that serves nothing else, and none is off any session. A multipath
  // device has several such disks.
  lemma AcceptedDisksAreOwn(worlds: seq<World>, events: seq<Event>, i: nat, env: Surroundings, volumeId: string,
                            dev: string)
    returns (v: Volume)
    requires Run(worlds, events) && WorldOneToOne(worlds[0]) && i < |worlds|
    requires Accepted(worlds[i], env, volumeId, dev) && Legs(env.sysfs, dev).Some?
    ensures Visible(worlds[i], v) && v.VolumeId() == volumeId && v.LunVolume?
    ensures forall name, iqn, lun | name in Legs(env.sysfs, dev).value && Published(env.sysfs, name, iqn, lun) ::
              iqn == env.iqnOf(v.ip, v.targetId) && v.target.mapped == [Mapping(volumeId, lun)]
    ensures forall name | name in Legs(env.sysfs, dev).value :: !OffSession(env.sysfs, name)
  {
    hide Visible, Rejected, Published, OffSession, Legs;
    RunKeepsOneToOne(worlds, events);
    var w := worlds[i];
    var wantIqn, wantLun;
    v, wantIqn, wantLun :| StandsFor(w, env, volumeId, v, wantIqn, wantLun)
        && !Rejected(env.sysfs, dev, wantIqn, wantLun);
    StandsForItself(w, env, volumeId, v, wantIqn, wantLun);
    AcceptedIsOnSession(env.sysfs, dev, wantIqn, wantLun);
    forall name, iqn, lun | name in Legs(env.sysfs, dev).value && Published(env.sysfs, name, iqn, lun)
      ensures iqn == env.iqnOf(v.ip, v.targetId) && v.target.mapped == [Mapping(volumeId, lun)]
    {
      AcceptedLegIsWanted(env.sysfs, dev, name, iqn, lun, wantIqn, wantLun);
    }
  }

  // Where all legs are published, off any session or unreadable, acceptance by the identity of a visible volume means
  // just that.
  lemma AcceptedIffAllOwn(w: World, env: Surroundings, volumeId: string, v: Volume, dev: string, names: seq<string>)
    requires WorldValid(w) && WorldOneToOne(w) && Visible(w, v) && v.LunVolume? && v.lunId == volumeId
    requires Legs(env.sysfs, dev) == Some(names) && KernelReads(env.sysfs, names)
    ensures |v.target.mapped| == 1
    ensures !Rejected(env.sysfs, dev, env.iqnOf(v.ip, v.targetId), v.target.mapped[0].index) <==>
            && (forall name, iqn, lun | name in names && Published(env.sysfs, name, iqn, lun) ::
                  iqn == env.iqnOf(v.ip, v.targetId) && v.target.mapped == [Mapping(volumeId, lun)])
            && (forall name | name in names :: !OffSession(env.sysfs, name))
  {
    hide Visible, Rejected, Published, OffSession, Legs, KernelReads;
    FirstMappingIsOwn(w, v);
    DeviceAcceptedIff(env.sysfs, dev, names, env.iqnOf(v.ip, v.targetId), v.target.mapped[0].index);
  }
}
