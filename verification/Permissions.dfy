/** Permissions of a mounted volume's root, beside kubelet's fsGroup handling (pkg/driver/nfs_utils.go). */
module Permissions {

  // Go's os.FileMode.
  type FileMode = bv32

  const PERM: FileMode := 0x1FF
  const GROUP: FileMode := 0x38
  const NOT_GROUP: FileMode := 0x1C7
  const SETUID: FileMode := 0x80_0000
  const SETGID: FileMode := 0x40_0000
  const STICKY: FileMode := 0x10_0000
  const WRITTEN: FileMode := PERM | SETUID | SETGID | STICKY  // what chmod sets or clears
  const KEPT: FileMode := 0xFF2F_FE00  // everything else: the file type and its attributes

  function MountPermissionsFor(current: FileMode, requested: FileMode): FileMode {
    if current & SETGID == 0 then requested & PERM
    else (requested & PERM & !GROUP) | (current & PERM & GROUP) | SETGID
  }

  // A mode differs from the wanted one in the bits the driver controls.
  predicate Mismatch(mode: FileMode, want: FileMode) {
    mode & (PERM | SETGID) != want
  }

  function Chmodded(mode: FileMode, want: FileMode): FileMode {
    (mode & !WRITTEN) | (want & WRITTEN)
  }

  function Mounted(mode: FileMode, requested: FileMode): FileMode {
    var want := MountPermissionsFor(mode, requested);
    if Mismatch(mode, want) then Chmodded(mode, want) else mode
  }

  datatype ChmodError = LstatFailed | ChmodFailed

  datatype ChmodResult = Done | Failed(error: ChmodError)

  class File {
    var mode: FileMode
    var writes: nat

    constructor (mode: FileMode)
      ensures this.mode == mode && writes == 0
    {
      this.mode, writes := mode, 0;
    }

    // chmodIfPermissionMismatch
    method ChmodIfPermissionMismatch(requested: FileMode, lstatFails: bool, chmodFails: bool) returns (r: ChmodResult)
      modifies this
      ensures r == Done ==> mode == Mounted(old(mode), requested)
      ensures r != Done ==> mode == old(mode) && writes == old(writes)
      ensures r == Failed(LstatFailed) <==> lstatFails
      ensures r == Failed(ChmodFailed) <==> !lstatFails && chmodFails && !Settled(old(mode), requested)
      ensures r == Done ==> (writes == old(writes) <==> Settled(old(mode), requested))
    {
      if lstatFails {
        return Failed(LstatFailed);
      }
      var want := MountPermissionsFor(mode, requested);
      if Mismatch(mode, want) {
        if chmodFails {
          return Failed(ChmodFailed);
        }
        mode := Chmodded(mode, want);
        writes := writes + 1;
      }
      return Done;
    }
  }

  // The mode after a sequence of mounts, each asking for a mode of its own.
  function AfterMounts(mode: FileMode, requests: seq<FileMode>): FileMode {
    if requests == [] then mode
    else Mounted(AfterMounts(mode, requests[..|requests| - 1]), requests[|requests| - 1])
  }

  // The parts of a mode.
  function Marker(mode: FileMode): FileMode {
    mode & SETGID
  }

  function GroupBits(mode: FileMode): FileMode {
    mode & GROUP
  }

  function OwnerAndOther(mode: FileMode): FileMode {
    mode & NOT_GROUP
  }

  function Rest(mode: FileMode): FileMode {
    mode & KEPT
  }

  predicate Settled(mode: FileMode, requested: FileMode) {
    !Mismatch(mode, MountPermissionsFor(mode, requested))
  }

  lemma MountKeepsMarker(mode: FileMode, requested: FileMode)
    ensures Marker(Mounted(mode, requested)) == Marker(mode)
  {
  }

  lemma MountKeepsRest(mode: FileMode, requested: FileMode)
    ensures Rest(Mounted(mode, requested)) == Rest(mode)
  {
  }

  lemma MountSetsOwnerAndOther(mode: FileMode, requested: FileMode)
    ensures OwnerAndOther(Mounted(mode, requested)) == OwnerAndOther(requested)
  {
  }

  lemma MountSetsUnmarkedGroup(mode: FileMode, requested: FileMode)
    ensures GroupBits(Mounted(mode, requested)) == GroupBits(if Marker(mode) == 0 then requested else mode)
  {
  }

  lemma WantedIsWritten(mode: FileMode, requested: FileMode)
    ensures var want := MountPermissionsFor(mode, requested); Chmodded(mode, want) & (PERM | SETGID) == want
  {
  }

  lemma WantedStays(mode: FileMode, requested: FileMode, after: FileMode)
    requires after & (PERM | SETGID) == MountPermissionsFor(mode, requested)
    ensures MountPermissionsFor(after, requested) == MountPermissionsFor(mode, requested)
  {
  }

  lemma MountSettles(mode: FileMode, requested: FileMode)
    ensures Settled(Mounted(mode, requested), requested)
  {
    hide MountPermissionsFor, Chmodded;
    WantedIsWritten(mode, requested);
    WantedStays(mode, requested, Mounted(mode, requested));
  }

  // Over any sequence of mounts, owner and other bits are those asked for last. The group's are too, unless the
  // setgid marker is present: then they never change. The marker itself never does, and neither does the file type.
  lemma {:induction false} MarkerKeepsGroup(mode: FileMode, requests: seq<FileMode>)
    ensures Marker(AfterMounts(mode, requests)) == Marker(mode)
    ensures Rest(AfterMounts(mode, requests)) == Rest(mode)
    ensures Marker(mode) != 0 ==> GroupBits(AfterMounts(mode, requests)) == GroupBits(mode)
    ensures requests != [] ==>
              var last := requests[|requests| - 1];
              && OwnerAndOther(AfterMounts(mode, requests)) == OwnerAndOther(last)
              && (Marker(mode) == 0 ==> GroupBits(AfterMounts(mode, requests)) == GroupBits(last))
  {
    hide Marker, Rest, GroupBits, OwnerAndOther, Mounted;
    if requests != [] {
      var n := |requests| - 1;
      var before := AfterMounts(mode, requests[..n]);
      MarkerKeepsGroup(mode, requests[..n]);
      MountKeepsMarker(before, requests[n]);
      MountKeepsRest(before, requests[n]);
      MountSetsOwnerAndOther(before, requests[n]);
      MountSetsUnmarkedGroup(before, requests[n]);
    }
  }

  // What kubelet looks for before it skips its recursive chown: its marker, and rwx for the group.
  predicate LeftToKubelet(mode: FileMode) {
    mode & SETGID != 0 && mode & GROUP == GROUP
  }

  // No mount makes kubelet take a volume over again.
  lemma KubeletStaysSatisfied(mode: FileMode, requests: seq<FileMode>)
    requires LeftToKubelet(mode)
    ensures LeftToKubelet(AfterMounts(mode, requests))
  {
    hide AfterMounts;
    MarkerKeepsGroup(mode, requests);
  }

  // Repeating the last request writes nothing.
  lemma RepeatWritesNothing(mode: FileMode, requests: seq<FileMode>)
    requires requests != []
    ensures var last := requests[|requests| - 1];
            && Settled(AfterMounts(mode, requests), last)
            && AfterMounts(mode, requests + [last]) == AfterMounts(mode, requests)
  {
    var n := |requests| - 1;
    MountSettles(AfterMounts(mode, requests[..n]), requests[n]);
    assert (requests + [requests[n]])[..n + 1] == requests;
  }
}
