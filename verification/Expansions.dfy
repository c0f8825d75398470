/** Recorded sizes over runs of expansions. */
module Expansions {
  import opened Sizes
  import opened Stores
  import opened Volumes
  import opened Worlds
  import opened Steps

  // The size a volume on this object reports.
  function RecordedSize(s: Store, v: Volume): int
    requires HasObject(s, v)
  {
    match v
    case LunVolume(_, lunId, _, _, _) => s.luns[lunId].size
    case NamespaceVolume(_, nsId, _, _, _) => s.namespaces[nsId].size
    case ShareVolume(_, name, _, _) => MBToBytes(s.shares[name].quotaMB)
  }

  // An accepted expansion reaches the requested size, except that a share asked for more than the MiB
  // round trip can hold falls short.
  lemma ExpansionReaches(w: World, w': World, v: Volume, newSize: nat)
    requires Step(w, Expanded(v, newSize), w') && newSize < TWO_63
    ensures HasObject(w'[v.ip].store, v)
    ensures RecordedSize(w'[v.ip].store, v) >= newSize <==> !v.ShareVolume? || newSize <= MAX_SHARE_BYTES
    ensures v.ShareVolume? ==> RecordedSize(w'[v.ip].store, v) == RoundTrip(newSize)
    ensures !v.ShareVolume? ==> RecordedSize(w'[v.ip].store, v) == newSize
  {
    RoundTripCovers(newSize);
  }

  // The volume as it reports itself after the expansion.
  function Grown(v: Volume, newSize: nat): Volume {
    match v
    case LunVolume(ip, lunId, lun, targetId, target) => LunVolume(ip, lunId, lun.(size := newSize), targetId, target)
    case NamespaceVolume(ip, nsId, ns, subsystemId, subsystem) =>
        NamespaceVolume(ip, nsId, ns.(size := newSize), subsystemId, subsystem)
    case ShareVolume(ip, name, share, p) => ShareVolume(ip, name, share.(quotaMB := BytesToMBCeil(newSize)), p)
  }

  // Asking again for the size just granted: the volume is still there, the request passes the size check exactly
  // when the volume is no share, or the size is in whole MiB or past what the MiB round trip can hold; then it changes
  // nothing.
  lemma ExpandAgain(w: World, w': World, v: Volume, newSize: nat)
    requires Step(w, Expanded(v, newSize), w') && newSize < TWO_63
    ensures Visible(w', Grown(v, newSize)) && SameBacking(v, Grown(v, newSize))
    ensures Grown(v, newSize).SizeInBytes() <= newSize <==>
            !v.ShareVolume? || newSize % UNIT_MB == 0 || newSize > MAX_SHARE_BYTES
    ensures ExpandedStore(w'[v.ip].store, Grown(v, newSize), newSize) == w'[v.ip].store
  {
    hide ExpandedStore, RoundTrip, Visible;
    AskAgain(newSize);
    GrownIsVisible(w, w', v, newSize);
  }

  lemma AskAgain(newSize: nat)
    requires newSize < TWO_63
    ensures RoundTrip(newSize) <= newSize <==> newSize % UNIT_MB == 0 || newSize > MAX_SHARE_BYTES
  {
    RoundTripCovers(newSize);
    if newSize <= MAX_SHARE_BYTES {
      RoundTripSettles(newSize);
    }
  }

  lemma GrownIsVisible(w: World, w': World, v: Volume, newSize: nat)
    requires Step(w, Expanded(v, newSize), w')
    ensures Visible(w', Grown(v, newSize))
    ensures ExpandedStore(w'[v.ip].store, Grown(v, newSize), newSize) == w'[v.ip].store
    ensures Grown(v, newSize).SizeInBytes() == if v.ShareVolume? then RoundTrip(newSize) else newSize
  {
  }

  // ---- sizes never decrease ----

  ghost predicate Expansion(e: Event) {
    e.Unchanged? || (e.Expanded? && e.newSize < TWO_63)
  }

  // A share asked for more than the MiB round trip can hold, when it reported more than what that comes to.
  ghost predicate CutsShare(e: Event) {
    && e.Expanded? && e.volume.ShareVolume? && e.newSize > MAX_SHARE_BYTES
    && e.volume.SizeInBytes() > RoundTrip(e.newSize)
  }

  // An expansion lowers the recorded size of an object exactly if it cuts it, and of its own volume only.
  lemma ExpansionShrinksIff(w: World, e: Event, w': World, ip: string, u: Volume)
    requires Step(w, e, w') && Expansion(e) && ip in w && HasObject(w[ip].store, u)
    ensures ip in w' && HasObject(w'[ip].store, u)
    ensures RecordedSize(w'[ip].store, u) < RecordedSize(w[ip].store, u) <==>
            CutsShare(e) && ip == e.volume.ip && u.ShareVolume? && u.shareName == e.volume.shareName
  {
    hide RoundTrip;
    if e.Expanded? {
      RoundTripCovers(e.newSize);
      ExpandedSizes(w, e.volume, e.newSize, w', ip, u);
    }
  }

  lemma ExpandedSizes(w: World, v: Volume, newSize: nat, w': World, ip: string, u: Volume)
    requires Step(w, Expanded(v, newSize), w') && ip in w && HasObject(w[ip].store, u)
    ensures ip in w' && HasObject(w'[ip].store, u)
    ensures RecordedSize(w'[ip].store, u) ==
            if ip == v.ip && SameBacking(u.(ip := ip), v) then (if v.ShareVolume? then RoundTrip(newSize) else newSize)
            else RecordedSize(w[ip].store, u)
    ensures ip == v.ip && SameBacking(u.(ip := ip), v) ==> RecordedSize(w[ip].store, u) == v.SizeInBytes() <= newSize
  {
  }

  ghost predicate OnlyExpansions(events: seq<Event>) {
    forall i | 0 <= i < |events| :: Expansion(events[i])
  }

  ghost predicate CutsNothing(events: seq<Event>) {
    forall i | 0 <= i < |events| :: !CutsShare(events[i])
  }

  ghost predicate NeverShrinks(worlds: seq<World>, events: seq<Event>)
    requires |worlds| == |events| + 1
  {
    forall i, ip, u | 0 <= i < |events| && ip in worlds[i] && HasObject(worlds[i][ip].store, u) ::
      && ip in worlds[i + 1] && HasObject(worlds[i + 1][ip].store, u)
      && RecordedSize(worlds[i + 1][ip].store, u) >= RecordedSize(worlds[i][ip].store, u)
  }

  // A run of expansions never decreases a recorded size exactly if none of them cuts a share.
  lemma RunNeverShrinksIff(worlds: seq<World>, events: seq<Event>)
    requires Run(worlds, events) && OnlyExpansions(events)
    ensures NeverShrinks(worlds, events) <==> CutsNothing(events)
  {
    hide CutsShare, Step, WorldValid, RecordedSize;
    if CutsNothing(events) {
      forall i, ip, u | 0 <= i < |events| && ip in worlds[i] && HasObject(worlds[i][ip].store, u)
        ensures ip in worlds[i + 1] && HasObject(worlds[i + 1][ip].store, u)
                && RecordedSize(worlds[i + 1][ip].store, u) >= RecordedSize(worlds[i][ip].store, u)
      {
        ExpansionShrinksIff(worlds[i], events[i], worlds[i + 1], ip, u);
      }
    }
    forall i | 0 <= i < |events| && CutsShare(events[i]) ensures !NeverShrinks(worlds, events) {
      CutIsOfAnObject(worlds[i], events[i], worlds[i + 1]);
      var v := events[i].volume;
      ExpansionShrinksIff(worlds[i], events[i], worlds[i + 1], v.ip, v);
    }
  }

  lemma CutIsOfAnObject(w: World, e: Event, w': World)
    requires Step(w, e, w') && CutsShare(e)
    ensures e.Expanded? && e.volume.ShareVolume? && e.volume.ip in w && HasObject(w[e.volume.ip].store, e.volume)
  {
  }

  // So over a run that cuts nothing, which a run on LUNs and namespaces always is, sizes only grow.
  lemma {:induction false} RunNeverShrinks(worlds: seq<World>, events: seq<Event>, ip: string, u: Volume)
    requires Run(worlds, events) && OnlyExpansions(events) && ip in worlds[0] && HasObject(worlds[0][ip].store, u)
    requires CutsNothing(events) || !u.ShareVolume?
    ensures ip in worlds[|events|] && HasObject(worlds[|events|][ip].store, u)
    ensures RecordedSize(worlds[|events|][ip].store, u) >= RecordedSize(worlds[0][ip].store, u)
  {
    hide CutsShare, Step, WorldValid, RecordedSize;
    if events != [] {
      var n := |events| - 1;
      assert Run(worlds[..n + 1], events[..n]);
      RunNeverShrinks(worlds[..n + 1], events[..n], ip, u);
      ExpansionShrinksIff(worlds[n], events[n], worlds[n + 1], ip, u);
    }
  }
}
