/** The ListVolumes RPC: the volumes of all DSMs and protocols, paged. */
module Listing {
  import opened Results
  import opened Dsms
  import opened Volumes
  import opened Worlds
  import opened Lookups
  import opened Steps
  import opened OneToOneRuns
  import opened Deletions
  import opened Ordering
  import opened Paging

  // Every visible volume, once.
  ghost predicate AllVisible(w: World, infos: seq<Volume>) {
    NoDuplicates(infos) && forall v :: v in infos <==> Visible(w, v)
  }

  function ToEntry(v: Volume): Entry {
    Entry(v.VolumeId(), "", v.SizeInBytes())
  }

  function ToEntries(infos: seq<Volume>): seq<Entry> {
    seq(|infos|, i requires 0 <= i < |infos| => ToEntry(infos[i]))
  }

  // DsmService.ListVolumes
  method ListServiceVolumes(service: DsmService, faults: set<Call>) returns (infos: seq<Volume>, failed: bool)
    requires service.Valid()
    ensures failed <==> exists kind, ip | ip in service.World() :: Incomplete(kind, ip, service.World()[ip], faults)
    ensures !failed ==> AllVisible(service.World(), infos)
  {
    hide Dsm.Valid, Incomplete, VisibleInBox;
    ghost var w := service.World();
    var luns, f0 := service.List(Luns, "", faults);
    assert service.World() == w;
    var shares, f1 := service.List(Shares, "", faults);
    assert service.World() == w;
    var namespaces, f2 := service.List(Namespaces, "", faults);
    assert service.World() == w;
    infos := Append(Append(luns, shares), namespaces);
    failed := f0 || f1 || f2;
    assert failed <==> exists kind, ip | ip in w :: Incomplete(kind, ip, w[ip], faults) by {
      SomeKindFails(w, faults, luns, shares, namespaces, f0, f1, f2);
    }
    if !failed {
      forall v | Visible(w, v) ensures v in infos { CompleteShows(w, faults, v); }
    }
  }

  lemma SomeKindFails(w: World, faults: set<Call>, luns: seq<Volume>, shares: seq<Volume>, namespaces: seq<Volume>,
                      f0: bool, f1: bool, f2: bool)
    requires Listed(Luns, w, "", faults, luns, f0) && Listed(Shares, w, "", faults, shares, f1)
    requires Listed(Namespaces, w, "", faults, namespaces, f2)
    ensures f0 || f1 || f2 <==> exists kind, ip | ip in w :: Incomplete(kind, ip, w[ip], faults)
  {
    hide Incomplete, NoDuplicates;
    assert forall ip: string :: InScope("", ip);
    if kind, ip :| ip in w && Incomplete(kind, ip, w[ip], faults) {
      match kind
      case Luns => assert f0;
      case Namespaces => assert f2;
      case Shares => assert f1;
    }
  }

  // A complete listing reads every visible volume.
  lemma CompleteShows(w: World, faults: set<Call>, v: Volume)
    requires Visible(w, v) && forall kind :: !Incomplete(kind, v.ip, w[v.ip], faults)
    ensures Answered(faults, v)
  {
    assert !Incomplete(Luns, v.ip, w[v.ip], faults) && !Incomplete(Namespaces, v.ip, w[v.ip], faults)
           && !Incomplete(Shares, v.ip, w[v.ip], faults);
    if v.LunVolume? {
      var m :| m in v.target.mapped && m.lun == v.lunId;
      assert Call(v.ip, LunGet(v.targetId, m.lun)) !in faults;
    } else if v.NamespaceVolume? {
      assert IsAttachedCsi(w[v.ip].store.namespaces[v.nsId]);
    }
  }

  // ListVolumes: an incomplete listing is an error, never a shorter answer.
  method ListVolumes(service: DsmService, faults: set<Call>, maxEntries: int, token: string)
    returns (r: Result<Page, ListError>)
    requires service.Valid()
    ensures r == Err(BadMaxEntries) <==> maxEntries < 0
    ensures r == Err(ListIncomplete) <==>
            maxEntries >= 0
            && exists kind, ip | ip in service.World() :: Incomplete(kind, ip, service.World()[ip], faults)
    ensures r.Ok? ==>
              exists infos | AllVisible(service.World(), infos) ::
                    Answers(ById, ToEntries(infos), "", maxEntries, token, Some(r.value))
    ensures r.Ok? ==>
              forall e | e in r.value.entries ::
                exists v | Visible(service.World(), v) :: e.id == v.VolumeId() && e.size == v.SizeInBytes()
    ensures r == Err(BadStartingToken) ==>
              exists infos | AllVisible(service.World(), infos) ::
                    Answers(ById, ToEntries(infos), "", maxEntries, token, None)
  {
    hide Dsm.Valid, Incomplete, Visible, Answers, AllVisible, ToEntries;
    if maxEntries < 0 {
      return Err(BadMaxEntries);
    }
    ghost var w := service.World();
    var infos, failed := ListServiceVolumes(service, faults);
    assert service.World() == w;
    r := List(ById, ToEntries(infos), failed, "", maxEntries, token);
    assert service.World() == w;
    if r.Ok? {
      PageIsListed(ById, ToEntries(infos), "", maxEntries, token, r.value);
      EntriesAreOfVolumes(w, infos);
    }
  }

  lemma PageIsListed(order: Order, infos: seq<Entry>, wanted: string, maxEntries: nat, token: string, page: Page)
    requires Answers(order, infos, wanted, maxEntries, token, Some(page))
    ensures forall e | e in page.entries :: e in infos
  {
    hide Sorted, From, Shown;
    var s :| multiset(s) == multiset(infos) && Sorted(order, s) && Some(page) == PageFrom(s, wanted, maxEntries, token);
    var rest := From(s, token).value;
    RestIsListed(s, token);
    ShownAreListed(rest, wanted);
    forall e | e in page.entries ensures e in infos {
      assert e in Shown(rest, wanted);
      assert e in rest && e in s;
      assert e in multiset(s);
    }
  }

  lemma {:induction false} RestIsListed(s: seq<Entry>, token: string)
    ensures From(s, token).Some? ==> forall e | e in From(s, token).value :: e in s
  {
    if token != "" && s != [] {
      RestIsListed(s[1..], token);
    }
  }

  // Two complete listings of an unchanged world hold the same entries, in whatever order: what WalkCoversListing
  // needs of the lists it pages through.
  lemma ListingsArePermutations(w: World, a: seq<Volume>, b: seq<Volume>)
    requires AllVisible(w, a) && AllVisible(w, b)
    ensures multiset(ToEntries(a)) == multiset(ToEntries(b))
  {
    SameElementsSameMultiset(a, b);
    EntriesOfPermutations(a, b);
  }

  lemma SameElementsSameMultiset(a: seq<Volume>, b: seq<Volume>)
    requires NoDuplicates(a) && NoDuplicates(b) && forall v :: v in a <==> v in b
    ensures multiset(a) == multiset(b)
  {
    forall v ensures multiset(a)[v] == multiset(b)[v] {
      EachOnce(a, v);
      EachOnce(b, v);
    }
  }

  lemma {:induction false} EachOnce(s: seq<Volume>, v: Volume)
    requires NoDuplicates(s)
    ensures multiset(s)[v] == if v in s then 1 else 0
  {
    if s != [] {
      EachOnce(s[1..], v);
      assert s == [s[0]] + s[1..];
    }
  }

  lemma {:induction false} EntriesOfPermutations(a: seq<Volume>, b: seq<Volume>)
    requires multiset(a) == multiset(b)
    ensures multiset(ToEntries(a)) == multiset(ToEntries(b))
    decreases |a|
  {
    hide ToEntries, Without;
    assert |a| == |multiset(a)| == |multiset(b)| == |b|;
    if a == [] {
      assert b == a;
    } else {
      assert a[0] in multiset(b);
      var j :| 0 <= j < |b| && b[j] == a[0];
      WithoutOne(a, 0);
      WithoutOne(b, j);
      EntriesOfPermutations(Without(a, 0), Without(b, j));
      EntriesSplit(a, 0);
      EntriesSplit(b, j);
    }
  }

  function Without<T>(s: seq<T>, j: nat): seq<T>
    requires j < |s|
  {
    s[..j] + s[j + 1..]
  }

  lemma WithoutOne<T>(s: seq<T>, j: nat)
    requires j < |s|
    ensures |Without(s, j)| == |s| - 1 && multiset(Without(s, j)) == multiset(s) - multiset{s[j]}
  {
    assert s == s[..j] + [s[j]] + s[j + 1..];
  }

  lemma EntryAt(s: seq<Volume>, j: nat)
    requires j < |s|
    ensures |ToEntries(s)| == |s| && ToEntries(s)[j] == ToEntry(s[j])
  {
  }

  lemma EntriesSplit(s: seq<Volume>, j: nat)
    requires j < |s|
    ensures multiset(ToEntries(s)) == multiset(ToEntries(Without(s, j))) + multiset{ToEntry(s[j])}
  {
    assert ToEntries(Without(s, j)) == Without(ToEntries(s), j);
    hide Without, ToEntries;
    EntryAt(s, j);
    WithoutOne(ToEntries(s), j);
  }

  ghost predicate DistinctVolumeIds(w: World) {
    && (forall u, v | Visible(w, u) && Visible(w, v) && u.VolumeId() == v.VolumeId() :: u == v)
    && (forall v | Visible(w, v) :: v.VolumeId() != "")
  }

  // In a one to one world no LUN is listed twice, so ids that tell backing objects apart tell volumes apart.
  lemma OneToOneListsOnce(w: World)
    requires WorldValid(w) && WorldOneToOne(w) && UniqueIds(w)
    requires forall v | Visible(w, v) :: v.VolumeId() != ""
    ensures DistinctVolumeIds(w)
  {
    forall u, v | Visible(w, u) && Visible(w, v) && u.VolumeId() == v.VolumeId() ensures u == v {
      assert SameBacking(u, v);
      if v.LunVolume? {
        FirstMappingIsOwn(w, v);
      }
    }
  }

  // Call k of a walk over an unchanged world lists infos[k], in an order of its own, and answers pages[k].
  ghost predicate VolumeWalk(w: World, infos: seq<seq<Volume>>, maxEntries: nat, pages: seq<Page>) {
    && |infos| == |pages| > 0
    && (forall k | 0 <= k < |pages| ::
        AllVisible(w, infos[k])
            && Answers(ById, ToEntries(infos[k]), "", maxEntries, TokenFor(pages, k), Some(pages[k])))
    && (forall k | 0 <= k < |pages| - 1 :: pages[k].nextToken != "")
    && pages[|pages| - 1].nextToken == ""
  }

  // Following the next tokens to the end lists every visible volume exactly once, by ascending id.
  lemma WalkListsEveryVolume(w: World, infos: seq<seq<Volume>>, maxEntries: nat, pages: seq<Page>)
    requires VolumeWalk(w, infos, maxEntries, pages) && maxEntries > 0 && DistinctVolumeIds(w)
    ensures forall v | Visible(w, v) :: multiset(Entries(pages))[Entry(v.VolumeId(), "", v.SizeInBytes())] == 1
    ensures forall e | e in Entries(pages) :: exists v | Visible(w, v) :: e == Entry(v.VolumeId(), "", v.SizeInBytes())
    ensures Sorted(ById, Entries(pages))
    ensures |pages| == if infos[0] == [] then 1 else (|infos[0]| + maxEntries - 1) / maxEntries
  {
    hide AllVisible, Visible, Entries, Sorted, DistinctVolumeIds, DistinctIds, ToEntries;
    var base := ToEntries(infos[0]);
    WalkIsSorted(w, infos, maxEntries, pages);
    EntriesAreOfVolumes(w, infos[0]);
    forall e | e in Entries(pages) ensures exists v | Visible(w, v) :: e == ToEntry(v) {
      assert e in multiset(base) && e in base;
      var v :| Visible(w, v) && e == ToEntry(v);
    }
    forall v | Visible(w, v) ensures multiset(Entries(pages))[ToEntry(v)] == 1 {
      EntryOnce(base, ToEntry(v));
    }
  }

  // The pages hold the first call's entries, sorted.
  lemma WalkIsSorted(w: World, infos: seq<seq<Volume>>, maxEntries: nat, pages: seq<Page>)
    requires VolumeWalk(w, infos, maxEntries, pages) && maxEntries > 0 && DistinctVolumeIds(w)
    ensures AllVisible(w, infos[0]) && DistinctIds(ToEntries(infos[0]))
    ensures multiset(Entries(pages)) == multiset(ToEntries(infos[0])) && Sorted(ById, Entries(pages))
    ensures |pages| == if infos[0] == [] then 1 else (|infos[0]| + maxEntries - 1) / maxEntries
  {
    hide AllVisible, Answers, Visible, Entries, Sorted, DistinctVolumeIds, DistinctIds, Walk, VolumeWalk, ToEntries,
         Shown, PageFrom, DistinctKeys, NoDuplicates;
    var base, lists := ListsOf(w, infos, maxEntries, pages);
    var s := SortedFor(ById, base, maxEntries, pages[0]);
    VolumesGiveDistinctIds(w, infos[0]);
    DistinctIdsPermute(base, s);
    WalkCoversListing(ById, base, s, lists, "", maxEntries, pages);
    AllShown(s);
    EntryCount(infos[0], s);
  }

  lemma EntryCount(infos: seq<Volume>, s: seq<Entry>)
    requires multiset(s) == multiset(ToEntries(infos))
    ensures |s| == |infos| && (s == [] <==> infos == [])
  {
    assert |s| == |multiset(s)| == |multiset(ToEntries(infos))| == |infos|;
  }

  lemma ListsOf(w: World, infos: seq<seq<Volume>>, maxEntries: nat, pages: seq<Page>)
    returns (base: seq<Entry>, lists: seq<seq<Entry>>)
    requires VolumeWalk(w, infos, maxEntries, pages)
    ensures |infos| == |pages| > 0 && pages[|pages| - 1].nextToken == "" && AllVisible(w, infos[0])
    ensures base == ToEntries(infos[0])
    ensures Answers(ById, base, "", maxEntries, "", Some(pages[0])) && Walk(ById, base, lists, "", maxEntries, pages)
  {
    hide AllVisible, Answers, ToEntries;
    base := ToEntries(infos[0]);
    lists := seq(|infos|, k requires 0 <= k < |infos| => ToEntries(infos[k]));
    forall k | 0 <= k < |lists| ensures multiset(lists[k]) == multiset(base) {
      ListingsArePermutations(w, infos[k], infos[0]);
    }
    assert TokenFor(pages, 0) == "";
  }

  lemma SortedFor(order: Order, base: seq<Entry>, maxEntries: nat, page: Page) returns (s: seq<Entry>)
    requires Answers(order, base, "", maxEntries, "", Some(page))
    ensures multiset(s) == multiset(base) && Sorted(order, s)
  {
    s :| multiset(s) == multiset(base) && Sorted(order, s) && Some(page) == PageFrom(s, "", maxEntries, "");
  }

  lemma {:induction false} AllShown(s: seq<Entry>)
    ensures Shown(s, "") == s
  {
    if s != [] {
      AllShown(s[1..]);
    }
  }

  lemma EntriesAreOfVolumes(w: World, infos: seq<Volume>)
    requires AllVisible(w, infos)
    ensures forall e | e in ToEntries(infos) :: exists v | Visible(w, v) :: e == ToEntry(v)
    ensures forall v | Visible(w, v) :: ToEntry(v) in ToEntries(infos)
  {
    hide Visible;
    forall e | e in ToEntries(infos) ensures exists v | Visible(w, v) :: e == ToEntry(v) {
      var i :| 0 <= i < |infos| && e == ToEntry(infos[i]);
      assert infos[i] in infos;
    }
    forall v | Visible(w, v) ensures ToEntry(v) in ToEntries(infos) {
      var i :| 0 <= i < |infos| && infos[i] == v;
      assert ToEntries(infos)[i] == ToEntry(v);
    }
  }

  lemma VolumesGiveDistinctIds(w: World, infos: seq<Volume>)
    requires AllVisible(w, infos) && DistinctVolumeIds(w)
    ensures DistinctIds(ToEntries(infos))
  {
    hide Visible;
    assert forall i | 0 <= i < |infos| :: infos[i] in infos;
  }

  lemma {:induction false} EntryOnce(s: seq<Entry>, e: Entry)
    requires DistinctIds(s) && e in s
    ensures multiset(s)[e] == 1
  {
    assert s == [s[0]] + s[1..];
    if e in s[1..] {
      EntryOnce(s[1..], e);
    }
  }

  lemma {:induction false} DistinctIdsPermute(a: seq<Entry>, b: seq<Entry>)
    requires DistinctIds(a) && multiset(a) == multiset(b)
    ensures DistinctIds(b)
  {
    forall i | 0 <= i < |b| ensures b[i].id != "" {
      assert b[i] in multiset(a);
    }
    forall i, j | 0 <= i < j < |b| ensures b[i].id != b[j].id {
      assert b[i] in multiset(a) && b[j] in multiset(a);
      TwiceCounts(b, i, j);
      if b[i].id == b[j].id {
        EntryOnce(a, b[i]);
      }
    }
  }

  lemma TwiceCounts(b: seq<Entry>, i: nat, j: nat)
    requires i < j < |b|
    ensures b[i] == b[j] ==> multiset(b)[b[i]] >= 2
  {
    var head, tail := b[..j], b[j..];
    assert b == head + tail && b[i] == head[i] && b[j] == tail[0];
    assert multiset(b) == multiset(head) + multiset(tail);
  }
}
