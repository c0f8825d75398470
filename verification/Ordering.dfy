/** Go's order on strings, and sorting by it (sort.Sort over pkg/models/dsm_req_spec.go:78-88). */
module Ordering {

  datatype Entry = Entry(id: string, parent: string, size: int)

  // ByVolumeId, and BySnapshotAndParentUuid.
  datatype Order = ById | ByParentAndId

  function Key(order: Order, e: Entry): string {
    match order
    case ById => e.id
    case ByParentAndId => e.parent + "/" + e.id
  }

  predicate Less(a: string, b: string) {
    b != [] && (a == [] || a[0] < b[0] || (a[0] == b[0] && Less(a[1..], b[1..])))
  }

  lemma {:induction false} LessIsTotal(a: string, b: string)
    ensures a == b || Less(a, b) || Less(b, a)
    ensures !(Less(a, b) && Less(b, a)) && !Less(a, a)
  {
    if a != [] {
      LessIsTotal(a[1..], a[1..]);
    }
    if a != [] && b != [] {
      LessIsTotal(a[1..], b[1..]);
      if a[0] == b[0] && a[1..] == b[1..] {
        assert a == [a[0]] + a[1..] == b;
      }
    }
  }

  lemma {:induction false} LessIsTransitive(a: string, b: string, c: string)
    requires !Less(b, a) && !Less(c, b)
    ensures !Less(c, a)
  {
    if a != [] && b != [] && c != [] {
      if a[0] == b[0] == c[0] {
        LessIsTransitive(a[1..], b[1..], c[1..]);
      }
    }
  }

  ghost predicate Sorted(order: Order, s: seq<Entry>) {
    forall i, j | 0 <= i < j < |s| :: !Less(Key(order, s[j]), Key(order, s[i]))
  }

  ghost predicate DistinctKeys(order: Order, s: seq<Entry>) {
    forall i, j | 0 <= i < j < |s| :: Key(order, s[i]) != Key(order, s[j])
  }

  // A sorted permutation of entries with distinct keys is unique, so it does not matter in which order they came.
  lemma {:induction false} SortedIsUnique(order: Order, a: seq<Entry>, b: seq<Entry>)
    requires multiset(a) == multiset(b) && Sorted(order, a) && Sorted(order, b) && DistinctKeys(order, a)
    ensures a == b
  {
    hide Sorted, DistinctKeys;
    assert |a| == |multiset(a)| == |multiset(b)| == |b|;
    if a != [] {
      FirstsAgree(order, a, b);
      TailMultiset(a);
      TailMultiset(b);
      TailSorted(order, a);
      TailSorted(order, b);
      SortedIsUnique(order, a[1..], b[1..]);
      assert a == [a[0]] + a[1..] && b == [b[0]] + b[1..];
    }
  }

  lemma TailMultiset(s: seq<Entry>)
    requires s != []
    ensures multiset(s[1..]) == multiset(s) - multiset{s[0]}
  {
    assert s == [s[0]] + s[1..];
  }

  lemma TailSorted(order: Order, s: seq<Entry>)
    requires s != []
    ensures Sorted(order, s) ==> Sorted(order, s[1..])
    ensures DistinctKeys(order, s) ==> DistinctKeys(order, s[1..])
  {
  }

  lemma FirstsAgree(order: Order, a: seq<Entry>, b: seq<Entry>)
    requires a != [] && b != [] && multiset(a) == multiset(b)
    requires Sorted(order, a) && Sorted(order, b) && DistinctKeys(order, a)
    ensures a[0] == b[0]
  {
    assert a[0] in multiset(b) && b[0] in multiset(a);
    var i :| 0 <= i < |a| && a[i] == b[0];
    var j :| 0 <= j < |b| && b[j] == a[0];
    LessIsTotal(Key(order, a[0]), Key(order, b[0]));
  }

  // Distinct ids give distinct keys: as they are for volumes, and for snapshots when no id holds a '/'.
  lemma DistinctIdsGiveDistinctKeys(order: Order, s: seq<Entry>)
    requires forall i, j | 0 <= i < j < |s| :: s[i].id != s[j].id
    requires order == ByParentAndId ==> forall e | e in s :: '/' !in e.id
    ensures DistinctKeys(order, s)
  {
    if order == ByParentAndId {
      forall i, j | 0 <= i < j < |s| ensures Key(order, s[i]) != Key(order, s[j]) {
        if Key(order, s[i]) == Key(order, s[j]) {
          IdAfterSlash(s[i].parent, s[i].id, s[j].parent, s[j].id);
        }
      }
    }
  }

  lemma IdAfterSlash(p: string, x: string, q: string, y: string)
    requires p + "/" + x == q + "/" + y && '/' !in x && '/' !in y
    ensures x == y
  {
    if |p| < |q| {
      ShorterParentLeavesSlash(p, x, q, y);
    } else if |q| < |p| {
      ShorterParentLeavesSlash(q, y, p, x);
    } else {
      assert (p + "/" + x)[|p| + 1..] == x && (q + "/" + y)[|q| + 1..] == y;
    }
  }

  lemma ShorterParentLeavesSlash(p: string, x: string, q: string, y: string)
    requires p + "/" + x == q + "/" + y && |p| < |q|
    ensures '/' in x
  {
    assert (q + "/" + y)[|q|] == '/';
    assert (p + "/" + x)[|q|] == x[|q| - |p| - 1];
  }

  // Sorts by insertion. Nothing is relied on but that the result is a sorted permutation.
  method Sort(order: Order, infos: seq<Entry>) returns (r: seq<Entry>)
    ensures Sorted(order, r) && multiset(r) == multiset(infos)
  {
    r := [];
    for i := 0 to |infos|
      invariant Sorted(order, r) && multiset(r) == multiset(infos[..i])
    {
      assert infos[..i + 1] == infos[..i] + [infos[i]];
      r := Insert(order, r, infos[i]);
    }
    assert infos[..|infos|] == infos;
  }

  method Insert(order: Order, s: seq<Entry>, e: Entry) returns (r: seq<Entry>)
    requires Sorted(order, s)
    ensures Sorted(order, r) && multiset(r) == multiset(s) + multiset{e}
  {
    hide Less, Key, Sorted;
    var k := |s|;
    while k > 0 && Less(Key(order, e), Key(order, s[k - 1]))
      invariant 0 <= k <= |s|
      invariant forall i | k <= i < |s| :: Less(Key(order, e), Key(order, s[i]))
    {
      k := k - 1;
    }
    r := s[..k] + [e] + s[k..];
    assert s == s[..k] + s[k..];
    InsertedIsSorted(order, s, k, e);
  }

  lemma InsertedIsSorted(order: Order, s: seq<Entry>, k: nat, e: Entry)
    requires Sorted(order, s) && k <= |s|
    requires k > 0 ==> !Less(Key(order, e), Key(order, s[k - 1]))
    requires forall i | k <= i < |s| :: Less(Key(order, e), Key(order, s[i]))
    ensures Sorted(order, s[..k] + [e] + s[k..])
  {
    hide Less, Key;
    forall i | 0 <= i < k ensures !Less(Key(order, e), Key(order, s[i])) {
      if i < k - 1 {
        LessIsTransitive(Key(order, s[i]), Key(order, s[k - 1]), Key(order, e));
      }
    }
    forall i | k <= i < |s| ensures !Less(Key(order, s[i]), Key(order, e)) {
      LessIsTotal(Key(order, e), Key(order, s[i]));
    }
  }
}
