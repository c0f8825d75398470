/** Volumes, snapshots and creation specs as the service hands them around (pkg/models/dsm_req_spec.go). */
module Volumes {
  import opened Results
  import opened Sizes
  import opened Names
  import opened Stores
  import opened Outcomes

  datatype Protocol = Iscsi | Nvme | Smb | Nfs {
    predicate IsShare() {
      Smb? || Nfs?
    }
  }

  datatype Volume =
    | LunVolume(ip: string, lunId: Uuid, lun: Lun, targetId: TargetId, target: Target)
    | NamespaceVolume(ip: string, nsId: Uuid, ns: Namespace, subsystemId: Uuid, subsystem: Subsystem)
    | ShareVolume(ip: string, shareName: string, share: Share, shareProtocol: Protocol)
  {
    function VolumeId(): Uuid {
      match this
      case LunVolume(_, lunId, _, _, _) => lunId
      case NamespaceVolume(_, nsId, _, _, _) => nsId
      case ShareVolume(_, _, share, _) => share.uuid
    }

    function Name(): string {
      match this
      case LunVolume(_, _, lun, _, _) => lun.name
      case NamespaceVolume(_, _, ns, _, _) => ns.name
      case ShareVolume(_, shareName, _, _) => shareName
    }

    function SizeInBytes(): int {
      match this
      case LunVolume(_, _, lun, _, _) => lun.size
      case NamespaceVolume(_, _, ns, _, _) => ns.size
      case ShareVolume(_, _, share, _) => MBToBytes(share.quotaMB)
    }

    function Protocol(): Protocol {
      match this
      case LunVolume(_, _, _, _, _) => Iscsi
      case NamespaceVolume(_, _, _, _, _) => Nvme
      case ShareVolume(_, _, _, p) => p
    }
  }

  datatype Snapshot = Snapshot(uuid: Uuid, ip: string, parentUuid: Uuid, parentName: string, size: nat,
                               rootPath: string, protocol: Protocol)

  datatype Source =
    | NoSource
    | SourceVolume(volumeId: string)
    | SourceSnapshot(found: Option<Snapshot>)  // what GetSnapshotByUuid answered

  // The size check on an existing or created volume: in MiB for shares.
  predicate SizeFits(v: Volume, size: int) {
    if v.ShareVolume? then BytesToMB(v.SizeInBytes()) == BytesToMBCeil(size) else v.SizeInBytes() == size
  }

  // What a creation is asked for, but for its location.
  datatype Params = Params(
    own: Own,
    subsystemName: string,
    dsmIp: string,
    size: nat,
    lunType: string,
    multiSession: bool,
    source: Source,
    protocol: Protocol,
    nfsVersion: string)

  // CreateK8sVolumeSpec. The location is filled in by the first DSM that picks one.
  class CreateSpec {
    const dsmIp: string
    const k8sVolumeName: string
    const backendName: string
    const targetName: string
    const subsystemName: string
    const shareName: string
    const size: nat
    const lunType: string
    const multipleSession: bool
    const source: Source
    const protocol: Protocol
    const nfsVersion: string
    var location: string

    constructor (dsmIp: string, volName: string, size: nat, lunType: string, multipleSession: bool, source: Source,
                 protocol: Protocol, nfsVersion: string, location: string)
      ensures this.dsmIp == dsmIp && this.size == size && this.protocol == protocol && this.source == source
      ensures this.multipleSession == multipleSession && this.lunType == lunType && this.nfsVersion == nfsVersion
      ensures this.location == location
      ensures IsFor(volName)
    {
      this.dsmIp, this.k8sVolumeName, this.size := dsmIp, volName, size;
      backendName, targetName := GenBackendName(volName), DEVICE_PREFIX + "-" + volName;
      subsystemName, shareName := DEVICE_PREFIX + "-" + volName, GenShareName(volName);
      this.lunType, this.multipleSession, this.source := lunType, multipleSession, source;
      this.protocol, this.nfsVersion, this.location := protocol, nfsVersion, location;
    }

    // The names a controller request gives its spec.
    ghost predicate IsFor(volName: string) {
      && k8sVolumeName == volName
      && backendName == targetName == subsystemName == GenBackendName(volName)
      && shareName == GenShareName(volName)
    }

    function Names(): Own {
      Own(backendName, targetName, shareName)
    }

    function Asked(): Params {
      Params(Names(), subsystemName, dsmIp, size, lunType, multipleSession, source, protocol, nfsVersion)
    }
  }
}
