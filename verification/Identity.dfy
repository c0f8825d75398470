/** Whether a device is the volume's own: verifyIscsiDevice against the kernel's view in sysfs. */
module Identity {
  import opened Results
  import opened Sizes
  import opened Texts

  // What can be read; a missing entry is a read that fails.
  datatype Sysfs = Sysfs(
    resolved: map<string, string>,  // device path -> name of the device it leads to
    slaves: map<string, seq<string>>,  // multipath device -> its legs
    devices: map<string, string>,  // disk -> its canonical device path
    targetNames: map<string, string>)  // session -> contents of its targetname file

  // "session" and at least one digit.
  predicate IsSession(part: string) {
    |part| > 7 && part[..7] == "session" && AllDigits(part[7..])
  }

  function FirstSession(parts: seq<string>): Option<string> {
    if parts == [] then None
    else if IsSession(parts[0]) then Some(parts[0])
    else FirstSession(parts[1..])
  }

  // The LUN number in H:C:T:L; -1 when it cannot be told.
  function LunOf(hctl: string): int {
    var parts := Split(hctl, ':');
    if |parts| == 4 then
      match Atoi(parts[3])
      case None => -1
      case Some(lun) => lun
    else -1
  }

  datatype Leg = Unresolved | NoSession | TargetUnreadable | Seen(iqn: string, lun: int)

  // The kernel's view of one disk.
  function LegOf(sysfs: Sysfs, name: string): Leg {
    if name !in sysfs.devices then Unresolved
    else
      var parts := Split(sysfs.devices[name], '/');
      match FirstSession(parts)
      case None => NoSession
      case Some(session) =>
        if session !in sysfs.targetNames then TargetUnreadable
        else Seen(TrimSpace(sysfs.targetNames[session]), LunOf(parts[|parts| - 1]))
  }

  predicate ShownWrong(leg: Leg, wantIqn: string, wantLun: nat) {
    leg.NoSession? || (leg.Seen? && (leg.iqn != wantIqn || (leg.lun != -1 && leg.lun != wantLun)))
  }

  // The disks a device stands for; None when they cannot be told.
  function Legs(sysfs: Sysfs, devPath: string): Option<seq<string>> {
    if devPath !in sysfs.resolved then None
    else
      var name := sysfs.resolved[devPath];
      if !("dm-" <= name) then Some([name])
      else if name in sysfs.slaves then Some(sysfs.slaves[name])
      else None
  }

  // Some disk of the device is shown not to be the wanted LUN.
  ghost predicate Rejected(sysfs: Sysfs, devPath: string, wantIqn: string, wantLun: nat) {
    match Legs(sysfs, devPath)
    case None => false
    case Some(names) => exists name | name in names :: ShownWrong(LegOf(sysfs, name), wantIqn, wantLun)
  }

  // A disk the kernel does not know says nothing. Any other has to hang off an iSCSI session, of the wanted target and
  // with the wanted LUN number, as far as these can be read.
  method VerifyIscsiDevice(sysfs: Sysfs, devPath: string, wantIqn: string, wantLun: nat) returns (ok: bool)
    ensures ok <==> !Rejected(sysfs, devPath, wantIqn, wantLun)
    ensures ok <==> forall name | HasLeg(sysfs, devPath, name) && name in sysfs.devices ::
              ShowsWanted(sysfs, sysfs.devices[name], wantIqn, wantLun)
  {
    AcceptedIff(sysfs, devPath, wantIqn, wantLun);
    hide HasLeg, ShowsWanted;
    hide Split, FirstSession, IsSession, TrimSpace, LunOf;
    if devPath !in sysfs.resolved {
      return true;
    }
    var device := sysfs.resolved[devPath];
    var names := [device];
    if "dm-" <= device {
      if device !in sysfs.slaves {
        return true;
      }
      names := sysfs.slaves[device];
    }
    for i := 0 to |names|
      invariant forall j | 0 <= j < i :: !ShownWrong(LegOf(sysfs, names[j]), wantIqn, wantLun)
    {
      var name := names[i];
      if name !in sysfs.devices {
        continue;
      }
      var parts := Split(sysfs.devices[name], '/');
      var session := FirstSession(parts);
      if session.None? {
        assert LegOf(sysfs, name) == NoSession && name in names;
        return false;
      }
      var gotLun := LunOf(parts[|parts| - 1]);
      if session.value !in sysfs.targetNames {
        continue;
      }
      var gotIqn := TrimSpace(sysfs.targetNames[session.value]);
      if gotIqn != wantIqn || (gotLun != -1 && gotLun != wantLun) {
        assert ShownWrong(LegOf(sysfs, name), wantIqn, wantLun) && name in names;
        return false;
      }
    }
    return true;
  }

  // ---- what a path shows ----

  // The device the path leads to, or a leg of it if it is a multipath device.
  ghost predicate HasLeg(sysfs: Sysfs, devPath: string, name: string) {
    devPath in sysfs.resolved &&
    var device := sysfs.resolved[devPath];
    if "dm-" <= device then device in sysfs.slaves && name in sysfs.slaves[device] else name == device
  }

  ghost predicate IsPath(path: string, parts: seq<string>) {
    parts != [] && Free(parts, '/') && Join(parts, '/') == path
  }

  ghost predicate NamesSession(part: string) {
    exists digits: string :: digits != "" && AllDigits(digits) && part == "session" + digits
  }

  // Some part of the path names an iSCSI session.
  ghost predicate OnSession(path: string) {
    exists parts, part :: IsPath(path, parts) && part in parts && NamesSession(part)
  }

  ghost predicate FirstSessionAt(parts: seq<string>, k: nat) {
    k < |parts| && NamesSession(parts[k]) && forall j | 0 <= j < k :: !NamesSession(parts[j])
  }

  // The path runs through a session. If its target can be read it is the wanted one, and so is the LUN number at the
  // end of the path if that is one; -1 counts as none.
  ghost predicate ShowsWanted(sysfs: Sysfs, path: string, wantIqn: string, wantLun: nat) {
    exists parts, k: nat :: IsPath(path, parts) && FirstSessionAt(parts, k) && Fits(sysfs, parts, k, wantIqn, wantLun)
  }

  ghost predicate Fits(sysfs: Sysfs, parts: seq<string>, k: nat, wantIqn: string, wantLun: nat)
    requires k < |parts|
  {
    parts[k] in sysfs.targetNames ==>
      TrimSpace(sysfs.targetNames[parts[k]]) == wantIqn && LunFits(parts[|parts| - 1], wantLun)
  }

  ghost predicate LunFits(hctl: string, wantLun: nat) {
    forall hct, number | IsAddress(hctl, hct, number) :: Suits(number, wantLun)
  }

  // host:channel:target:lun
  ghost predicate IsAddress(hctl: string, hct: seq<string>, number: string) {
    |hct| == 3 && Free(hct + [number], ':') && hctl == Join(hct + [number], ':')
  }

  predicate Suits(number: string, wantLun: nat) {
    var lun := Atoi(number);
    lun == None || lun == Some(-1) || lun == Some(wantLun as int)
  }

  // A device is accepted exactly if every leg the kernel knows shows what is wanted.
  lemma AcceptedIff(sysfs: Sysfs, devPath: string, wantIqn: string, wantLun: nat)
    ensures !Rejected(sysfs, devPath, wantIqn, wantLun) <==>
            forall name | HasLeg(sysfs, devPath, name) && name in sysfs.devices ::
              ShowsWanted(sysfs, sysfs.devices[name], wantIqn, wantLun)
  {
    hide LegOf, ShowsWanted, ShownWrong;
    forall name
      ensures ShownWrong(LegOf(sysfs, name), wantIqn, wantLun) <==>
              name in sysfs.devices && !ShowsWanted(sysfs, sysfs.devices[name], wantIqn, wantLun)
    {
      LegIsWantedIff(sysfs, name, wantIqn, wantLun);
    }
  }

  lemma LegIsWantedIff(sysfs: Sysfs, name: string, wantIqn: string, wantLun: nat)
    ensures ShownWrong(LegOf(sysfs, name), wantIqn, wantLun) <==>
            name in sysfs.devices && !ShowsWanted(sysfs, sysfs.devices[name], wantIqn, wantLun)
  {
    hide Split, IsPath, FirstSession, FirstSessionAt, TrimSpace, LunOf, LunFits;
    if name in sysfs.devices {
      var parts := Split(sysfs.devices[name], '/');
      PathHasTheParts(sysfs.devices[name]);
      FirstSessionIsFirst(parts);
      LunOfReads(parts[|parts| - 1], wantLun);
      assert forall k: nat | FirstSessionAt(parts, k) :: k < |parts| by { FirstSessionIsThere(parts); }
    }
  }

  lemma FirstSessionIsThere(parts: seq<string>)
    ensures forall k: nat | FirstSessionAt(parts, k) :: k < |parts|
  {
  }

  lemma PathHasTheParts(path: string)
    ensures forall parts :: IsPath(path, parts) <==> parts == Split(path, '/')
  {
    forall parts ensures IsPath(path, parts) <==> parts == Split(path, '/') {
      if parts != [] {
        SplitIff(path, parts, '/');
      }
    }
  }

  lemma IsSessionIff(part: string)
    ensures IsSession(part) <==> NamesSession(part)
  {
    if IsSession(part) {
      assert part == "session" + part[7..];
    }
    if digits: string :| digits != "" && AllDigits(digits) && part == "session" + digits {
      assert part[7..] == digits && part[..7] == "session";
    }
  }

  lemma {:induction false} FirstSessionIsFirst(parts: seq<string>)
    ensures forall k: nat :: FirstSessionAt(parts, k) ==> FirstSession(parts) == Some(parts[k])
    ensures FirstSession(parts).Some? ==> exists k: nat :: FirstSessionAt(parts, k)
  {
    hide IsSession, NamesSession;
    if parts != [] {
      IsSessionIff(parts[0]);
      if IsSession(parts[0]) {
        assert FirstSessionAt(parts, 0);
      } else {
        FirstSessionIsFirst(parts[1..]);
        if k: nat :| FirstSessionAt(parts[1..], k) {
          FirstSessionAfter(parts, k);
        }
        forall k: nat | FirstSessionAt(parts, k) ensures FirstSession(parts) == Some(parts[k]) {
          NextSession(parts, k);
        }
      }
    }
  }

  lemma NextSession(parts: seq<string>, k: nat)
    requires FirstSessionAt(parts, k) && !NamesSession(parts[0])
    ensures k > 0 && FirstSessionAt(parts[1..], k - 1)
  {
    hide NamesSession;
    forall j | 0 <= j < k - 1 ensures !NamesSession(parts[1..][j]) {
      assert parts[1..][j] == parts[j + 1];
    }
  }

  lemma FirstSessionAfter(parts: seq<string>, k: nat)
    requires parts != [] && FirstSessionAt(parts[1..], k) && !NamesSession(parts[0])
    ensures FirstSessionAt(parts, k + 1)
  {
    hide NamesSession;
    forall j | 0 <= j < k + 1 ensures !NamesSession(parts[j]) {
      if j > 0 {
        assert parts[j] == parts[1..][j - 1];
      }
    }
  }

  // LunOf tells the last of four fields, if it is a number.
  lemma LunOfReads(hctl: string, wantLun: nat)
    ensures LunOf(hctl) == -1 || LunOf(hctl) == wantLun <==> LunFits(hctl, wantLun)
  {
    hide Split, Join, Atoi;
    var parts := Split(hctl, ':');
    JoinOfSplit(hctl, ':');
    if |parts| == 4 {
      assert parts == parts[..3] + [parts[3]];
      assert IsAddress(hctl, parts[..3], parts[3]);
    }
    forall hct, number | IsAddress(hctl, hct, number) ensures parts == hct + [number] {
      SplitOfJoin(hct + [number], ':');
    }
  }

  // ---- what the kernel publishes for a disk ----

  // The disk called name hangs off the session at place k of its device path and is LUN lun there, and the
  // session is logged in to iqn.
  ghost predicate Publishes(sysfs: Sysfs, name: string, parts: seq<string>, k: nat, hct: seq<string>, iqn: string,
                            lun: nat) {
    && k < |parts| && Free(parts, '/') && (forall j | 0 <= j < k :: !IsSession(parts[j])) && IsSession(parts[k])
    && |hct| == 3 && Free(hct, ':') && parts[|parts| - 1] == Join(hct + [Itoa(lun)], ':')
    && name in sysfs.devices && sysfs.devices[name] == Join(parts, '/')
    && parts[k] in sysfs.targetNames && TrimSpace(sysfs.targetNames[parts[k]]) == iqn
  }

  // Reading the published path back gives the target and LUN it was made of.
  lemma LegReadsBack(sysfs: Sysfs, name: string, parts: seq<string>, k: nat, hct: seq<string>, iqn: string, lun: nat)
    requires Publishes(sysfs, name, parts, k, hct, iqn, lun) && lun < TWO_63
    ensures LegOf(sysfs, name) == Seen(iqn, lun)
  {
    hide Split, Join, Atoi, Itoa, FirstSession, TrimSpace;
    SplitOfJoin(parts, '/');
    FirstSessionStands(parts, k);
    LunReadsBack(hct, lun);
  }

  lemma LunReadsBack(hct: seq<string>, lun: nat)
    requires |hct| == 3 && Free(hct, ':') && lun < TWO_63
    ensures LunOf(Join(hct + [Itoa(lun)], ':')) == lun
  {
    hide Split, Join, Atoi, Itoa;
    ItoaIsNumeral(lun);
    AtoiOfItoa(lun);
    assert ':' !in Itoa(lun);
    SplitOfJoin(hct + [Itoa(lun)], ':');
  }

  lemma {:induction false} FirstSessionStands(parts: seq<string>, k: nat)
    requires k < |parts| && (forall j | 0 <= j < k :: !IsSession(parts[j])) && IsSession(parts[k])
    ensures FirstSession(parts) == Some(parts[k])
  {
    if k > 0 {
      assert !IsSession(parts[0]);
      FirstSessionStands(parts[1..], k - 1);
    }
  }

  // The kernel publishes the disk as LUN lun of target iqn.
  ghost predicate Published(sysfs: Sysfs, name: string, iqn: string, lun: nat) {
    lun < TWO_63 && exists parts, k, hct :: Publishes(sysfs, name, parts, k, hct, iqn, lun)
  }

  lemma PublishedReadsBack(sysfs: Sysfs, name: string, iqn: string, lun: nat)
    requires Published(sysfs, name, iqn, lun)
    ensures LegOf(sysfs, name) == Seen(iqn, lun)
  {
    var parts, k, hct :| Publishes(sysfs, name, parts, k, hct, iqn, lun);
    LegReadsBack(sysfs, name, parts, k, hct, iqn, lun);
  }

  // Of an accepted device, one disk or the legs of a multipath device, every leg that is published is the wanted LUN.
  lemma AcceptedLegIsWanted(sysfs: Sysfs, devPath: string, name: string, iqn: string, lun: nat, wantIqn: string,
                            wantLun: nat)
    requires Legs(sysfs, devPath).Some? && name in Legs(sysfs, devPath).value && Published(sysfs, name, iqn, lun)
    requires !Rejected(sysfs, devPath, wantIqn, wantLun)
    ensures iqn == wantIqn && lun == wantLun
  {
    hide LegOf, Legs;
    PublishedReadsBack(sysfs, name, iqn, lun);
    assert !ShownWrong(LegOf(sysfs, name), wantIqn, wantLun);
  }

  // The kernel knows the disk and shows it off any iSCSI session.
  ghost predicate OffSession(sysfs: Sysfs, name: string) {
    name in sysfs.devices && !OnSession(sysfs.devices[name])
  }

  lemma OffSessionIff(sysfs: Sysfs, name: string)
    ensures OffSession(sysfs, name) <==> LegOf(sysfs, name).NoSession?
  {
    hide Split, Join, IsSession, NamesSession, FirstSession;
    if name in sysfs.devices {
      var path := sysfs.devices[name];
      var parts := Split(path, '/');
      PathHasTheParts(path);
      FirstSessionIsFirst(parts);
      SomeSessionIff(parts);
    }
  }

  lemma {:induction false} SomeSessionIff(parts: seq<string>)
    ensures FirstSession(parts).Some? <==> exists part :: part in parts && NamesSession(part)
  {
    hide IsSession, NamesSession;
    if parts != [] {
      IsSessionIff(parts[0]);
      SomeSessionIff(parts[1..]);
      assert parts == [parts[0]] + parts[1..];
    }
  }

  // No leg of an accepted device is a disk off any session, such as a local one.
  lemma AcceptedIsOnSession(sysfs: Sysfs, devPath: string, wantIqn: string, wantLun: nat)
    requires !Rejected(sysfs, devPath, wantIqn, wantLun) && Legs(sysfs, devPath).Some?
    ensures forall name | name in Legs(sysfs, devPath).value :: !OffSession(sysfs, name)
  {
    hide LegOf, Legs, OffSession;
    forall name | name in Legs(sysfs, devPath).value ensures !OffSession(sysfs, name) {
      OffSessionIff(sysfs, name);
      assert !ShownWrong(LegOf(sysfs, name), wantIqn, wantLun);
    }
  }

  // Every leg is published, off any session, or cannot be read.
  ghost predicate KernelReads(sysfs: Sysfs, names: seq<string>) {
    forall name | name in names ::
      || LegOf(sysfs, name).Unresolved? || LegOf(sysfs, name).TargetUnreadable? || OffSession(sysfs, name)
      || exists iqn, lun :: Published(sysfs, name, iqn, lun)
  }

  // A device is accepted exactly if every leg the kernel publishes is the wanted LUN of the wanted target, and none is
  // off any session.
  lemma DeviceAcceptedIff(sysfs: Sysfs, devPath: string, names: seq<string>, wantIqn: string, wantLun: nat)
    requires Legs(sysfs, devPath) == Some(names) && KernelReads(sysfs, names)
    ensures !Rejected(sysfs, devPath, wantIqn, wantLun) <==>
            && (forall name, iqn, lun | name in names && Published(sysfs, name, iqn, lun) ::
                  iqn == wantIqn && lun == wantLun)
            && (forall name | name in names :: !OffSession(sysfs, name))
  {
    hide LegOf, Legs, Published, OffSession;
    if !Rejected(sysfs, devPath, wantIqn, wantLun) {
      AcceptedIsOnSession(sysfs, devPath, wantIqn, wantLun);
      forall name, iqn, lun | name in names && Published(sysfs, name, iqn, lun)
        ensures iqn == wantIqn && lun == wantLun
      {
        AcceptedLegIsWanted(sysfs, devPath, name, iqn, lun, wantIqn, wantLun);
      }
    } else {
      var name :| name in names && ShownWrong(LegOf(sysfs, name), wantIqn, wantLun);
      OffSessionIff(sysfs, name);
      if iqn, lun :| Published(sysfs, name, iqn, lun) {
        PublishedReadsBack(sysfs, name, iqn, lun);
      }
    }
  }

  // One leg shown wrong rejects a multipath device, wherever it stands among the others; and only the set of
  // legs matters.
  lemma LegOrderDoesNotMatter(sysfs: Sysfs, other: Sysfs, devPath: string, wantIqn: string, wantLun: nat)
    requires other.resolved == sysfs.resolved && other.devices == sysfs.devices
    requires other.targetNames == sysfs.targetNames
    requires other.slaves.Keys == sysfs.slaves.Keys
    requires forall dm | dm in sysfs.slaves :: multiset(other.slaves[dm]) == multiset(sysfs.slaves[dm])
    ensures Rejected(other, devPath, wantIqn, wantLun) <==> Rejected(sysfs, devPath, wantIqn, wantLun)
  {
    hide LegOf;
    assert forall name :: LegOf(other, name) == LegOf(sysfs, name) by { SameLegs(sysfs, other); }
    if Legs(sysfs, devPath).Some? {
      var a, b := Legs(sysfs, devPath).value, Legs(other, devPath).value;
      assert multiset(a) == multiset(b);
      forall name ensures name in a <==> name in b {
        assert name in a <==> name in multiset(a);
        assert name in b <==> name in multiset(b);
      }
    }
  }

  lemma SameLegs(sysfs: Sysfs, other: Sysfs)
    requires other.devices == sysfs.devices && other.targetNames == sysfs.targetNames
    ensures forall name :: LegOf(other, name) == LegOf(sysfs, name)
  {
  }
}
