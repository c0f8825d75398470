/** Paged listing (ListVolumes and ListSnapshots in pkg/driver/controllerserver.go). */
module Paging {
  import opened Results
  import opened Ordering

  datatype Page = Page(entries: seq<Entry>, nextToken: string)

  datatype ListError = BadMaxEntries | ListIncomplete | BadStartingToken

  // ---- one page ----

  // The entries a listing shows: all of them, or only the snapshot asked for.
  function Shown(s: seq<Entry>, wanted: string): seq<Entry> {
    if s == [] then []
    else (if wanted == "" || s[0].id == wanted then [s[0]] else []) + Shown(s[1..], wanted)
  }

  // The listing from the entry with the token's id on; None when there is none.
  function From(s: seq<Entry>, token: string): Option<seq<Entry>> {
    if token == "" then Some(s)
    else if s == [] then None
    else if s[0].id == token then Some(s)
    else From(s[1..], token)
  }

  function Cut(shown: seq<Entry>, maxEntries: nat): Page {
    if maxEntries > 0 && |shown| > maxEntries then Page(shown[..maxEntries], shown[maxEntries].id) else Page(shown, "")
  }

  // The page of a sorted listing.
  function PageFrom(s: seq<Entry>, wanted: string, maxEntries: nat, token: string): Option<Page> {
    match From(s, token)
    case None => None
    case Some(rest) => Some(Cut(Shown(rest, wanted), maxEntries))
  }

  // The paging loop: one pass that skips up to the token, filters, counts, and stops at the first entry too many.
  method PageOf(s: seq<Entry>, wanted: string, maxEntries: nat, token: string) returns (r: Option<Page>)
    ensures r == PageFrom(s, wanted, maxEntries, token)
  {
    hide Shown, From, Cut;
    var entries: seq<Entry> := [];
    var skip := token != "";
    ghost var rest := s;
    Limits(s, wanted, maxEntries, token);
    for i := 0 to |s|
      invariant skip ==> entries == [] && token != "" && From(s, token) == From(s[i..], token)
      invariant !skip ==> From(s, token) == Some(rest) && Shown(rest, wanted) == entries + Shown(s[i..], wanted)
      invariant maxEntries > 0 ==> |entries| <= maxEntries
    {
      var e := s[i];
      Unfolded(s, i, wanted, token);
      if e.id == token {
        rest := if skip then s[i..] else rest;
        skip := false;
      }
      if skip || (wanted != "" && e.id != wanted) {
        continue;
      }
      if maxEntries > 0 && |entries| >= maxEntries {
        assert Shown(rest, wanted) == entries + ([e] + Shown(s[i + 1..], wanted));
        CutAt(Shown(rest, wanted), entries, e, Shown(s[i + 1..], wanted));
        return Some(Page(entries, e.id));
      }
      assert entries + ([e] + Shown(s[i + 1..], wanted)) == (entries + [e]) + Shown(s[i + 1..], wanted);
      entries := entries + [e];
    }
    assert entries + [] == entries;
    Limits(entries, wanted, maxEntries, token);
    return if skip then None else Some(Page(entries, ""));
  }

  lemma Unfolded(s: seq<Entry>, i: nat, wanted: string, token: string)
    requires i < |s|
    ensures Shown(s[i..], wanted)
            == (if wanted == "" || s[i].id == wanted then [s[i]] else []) + Shown(s[i + 1..], wanted)
    ensures token != "" ==> From(s[i..], token) == if s[i].id == token then Some(s[i..]) else From(s[i + 1..], token)
  {
    assert s[i..][1..] == s[i + 1..];
  }

  lemma Limits(s: seq<Entry>, wanted: string, maxEntries: nat, token: string)
    ensures s[0..] == s && s[|s|..] == [] && Shown(s[|s|..], wanted) == []
    ensures From(s, "") == Some(s) && (token != "" ==> From(s[|s|..], token) == None)
    ensures maxEntries == 0 || |s| <= maxEntries ==> Cut(s, maxEntries) == Page(s, "")
  {
  }

  lemma CutAt(shown: seq<Entry>, entries: seq<Entry>, e: Entry, more: seq<Entry>)
    requires shown == entries + ([e] + more) && entries != []
    ensures Cut(shown, |entries|) == Page(entries, e.id)
  {
    assert shown[..|entries|] == entries && shown[|entries|] == e;
  }

  // Any order the entries may have come in, sorted, gives the page.
  ghost predicate Answers(order: Order, infos: seq<Entry>, wanted: string, maxEntries: nat, token: string,
                          r: Option<Page>) {
    exists s :: multiset(s) == multiset(infos) && Sorted(order, s) && r == PageFrom(s, wanted, maxEntries, token)
  }

  // ListVolumes is (ById, ""); ListSnapshots is ByParentAndId with the requested snapshot, and never incomplete.
  method List(order: Order, infos: seq<Entry>, incomplete: bool, wanted: string, maxEntries: int, token: string)
    returns (r: Result<Page, ListError>)
    ensures maxEntries < 0 ==> r == Err(BadMaxEntries)
    ensures maxEntries >= 0 && incomplete ==> r == Err(ListIncomplete)
    ensures maxEntries >= 0 && !incomplete ==>
              && (r.Ok? ==> Answers(order, infos, wanted, maxEntries, token, Some(r.value)))
              && (r.Err? ==> r.error == BadStartingToken && Answers(order, infos, wanted, maxEntries, token, None))
  {
    if maxEntries < 0 {
      return Err(BadMaxEntries);
    }
    if incomplete {
      return Err(ListIncomplete);
    }
    var sorted := Sort(order, infos);
    var page := PageOf(sorted, wanted, maxEntries, token);
    return if page.Some? then Ok(page.value) else Err(BadStartingToken);
  }

  // ---- all pages ----

  ghost predicate DistinctIds(s: seq<Entry>) {
    && (forall i, j | 0 <= i < j < |s| :: s[i].id != s[j].id)
    && (forall i | 0 <= i < |s| :: s[i].id != "")
  }

  function Min(a: nat, b: nat): nat {
    if a < b then a else b
  }

  // Where page k starts: k * maxEntries.
  function Start(k: nat, maxEntries: nat): nat {
    if k == 0 then 0 else Start(k - 1, maxEntries) + maxEntries
  }

  // Every entry is shown as often as it is listed, unless another snapshot is wanted.
  lemma {:induction false} ShownIff(s: seq<Entry>, wanted: string)
    ensures forall e :: multiset(Shown(s, wanted))[e] == if wanted == "" || e.id == wanted then multiset(s)[e] else 0
  {
    if s != [] {
      ShownIff(s[1..], wanted);
      assert s == [s[0]] + s[1..];
    }
  }

  lemma {:induction false} ShownAreListed(s: seq<Entry>, wanted: string)
    ensures forall e | e in Shown(s, wanted) :: e in s
    ensures |Shown(s, wanted)| <= |s|
  {
    if s != [] {
      ShownAreListed(s[1..], wanted);
    }
  }

  lemma TailIdsDiffer(s: seq<Entry>)
    requires s != [] && DistinctIds(s)
    ensures DistinctIds(s[1..]) && s[0].id != "" && forall e | e in s[1..] :: e.id != s[0].id && e.id != ""
  {
  }

  // Continuing from a shown entry shows what comes after it.
  lemma {:induction false} FromShown(s: seq<Entry>, wanted: string, j: nat)
    requires DistinctIds(s) && j < |Shown(s, wanted)|
    ensures From(s, Shown(s, wanted)[j].id).Some?
    ensures Shown(From(s, Shown(s, wanted)[j].id).value, wanted) == Shown(s, wanted)[j..]
  {
    hide DistinctIds, From, Shown;
    assert s != [] by { NothingShown(wanted); }
    var e, shown, rest := Shown(s, wanted)[j], Shown(s, wanted), Shown(s[1..], wanted);
    var front := FirstShown(s, wanted);
    TailIdsDiffer(s);
    FromFirst(s);
    if j < |front| {
      assert shown[j..] == shown && e == s[0];
    } else {
      var k := j - |front|;
      ShownAreListed(s[1..], wanted);
      assert rest[k] == e && e in s[1..];
      FromSkips(s, e.id);
      FromShown(s[1..], wanted, k);
      assert rest[k..] == shown[j..];
    }
  }

  lemma NothingShown(wanted: string)
    ensures Shown([], wanted) == []
  {
  }

  lemma FirstShown(s: seq<Entry>, wanted: string) returns (front: seq<Entry>)
    requires s != []
    ensures Shown(s, wanted) == front + Shown(s[1..], wanted) && (front == [] || front == [s[0]])
  {
    front := if wanted == "" || s[0].id == wanted then [s[0]] else [];
  }

  lemma FromFirst(s: seq<Entry>)
    requires s != []
    ensures From(s, s[0].id) == Some(s)
  {
  }

  lemma FromSkips(s: seq<Entry>, token: string)
    requires s != [] && token != "" && s[0].id != token
    ensures From(s, token) == From(s[1..], token)
  {
  }

  // The token of the page that starts at position lo.
  function TokenAt(shown: seq<Entry>, lo: nat): string
    requires lo == 0 || lo < |shown|
  {
    if lo == 0 then "" else shown[lo].id
  }

  // The stretch of at most maxEntries shown entries from lo on, pointing to the next stretch if there is one.
  function Stretch(shown: seq<Entry>, maxEntries: nat, lo: nat): Page
    requires lo <= |shown|
  {
    var hi := Min(lo + maxEntries, |shown|);
    Page(shown[lo..hi], if hi < |shown| then shown[hi].id else "")
  }

  lemma PageAt(s: seq<Entry>, wanted: string, maxEntries: nat, lo: nat)
    requires DistinctIds(s) && maxEntries > 0
    requires lo == 0 || lo < |Shown(s, wanted)|
    ensures PageFrom(s, wanted, maxEntries, TokenAt(Shown(s, wanted), lo))
            == Some(Stretch(Shown(s, wanted), maxEntries, lo))
  {
    var shown := Shown(s, wanted);
    if lo > 0 {
      ShownAreListed(s, wanted);
      assert shown[lo] in s;
      FromShown(s, wanted, lo);
    } else {
      assert shown[0..] == shown;
    }
    CutIsStretch(shown, maxEntries, lo);
  }

  lemma CutIsStretch(shown: seq<Entry>, maxEntries: nat, lo: nat)
    requires maxEntries > 0 && lo <= |shown|
    ensures Cut(shown[lo..], maxEntries) == Stretch(shown, maxEntries, lo)
  {
    if |shown| - lo > maxEntries {
      assert shown[lo..][..maxEntries] == shown[lo..lo + maxEntries];
    } else {
      assert shown[lo..] == shown[lo..|shown|];
    }
  }

  // A caller following next tokens from "": each call may get the entries in another order, lists[k] for call k.
  ghost predicate Walk(order: Order, base: seq<Entry>, lists: seq<seq<Entry>>, wanted: string, maxEntries: nat,
                       pages: seq<Page>) {
    && |lists| == |pages| > 0
    && (forall k | 0 <= k < |lists| :: multiset(lists[k]) == multiset(base))
    && (forall k | 0 <= k < |pages| ::
          Answers(order, lists[k], wanted, maxEntries, TokenFor(pages, k), Some(pages[k])))
    && (forall k | 0 <= k < |pages| - 1 :: pages[k].nextToken != "")
  }

  function TokenFor(pages: seq<Page>, k: nat): string
    requires k <= |pages|
  {
    if k == 0 then "" else pages[k - 1].nextToken
  }

  function Entries(pages: seq<Page>): seq<Entry> {
    if pages == [] then [] else Entries(pages[..|pages| - 1]) + pages[|pages| - 1].entries
  }

  // The sorted listing each call pages through is the same.
  lemma AnswersAreOfTheSorted(order: Order, base: seq<Entry>, s: seq<Entry>, infos: seq<Entry>, wanted: string,
                              maxEntries: nat, token: string, r: Option<Page>)
    requires multiset(s) == multiset(base) == multiset(infos) && Sorted(order, s) && DistinctKeys(order, s)
    requires Answers(order, infos, wanted, maxEntries, token, r)
    ensures r == PageFrom(s, wanted, maxEntries, token)
  {
    var t :| multiset(t) == multiset(infos) && Sorted(order, t) && r == PageFrom(t, wanted, maxEntries, token);
    SortedIsUnique(order, s, t);
  }

  // Page k of a walk is the k-th stretch of the sorted listing.
  lemma {:induction false} WalkPage(order: Order, base: seq<Entry>, s: seq<Entry>, lists: seq<seq<Entry>>,
                                    wanted: string, maxEntries: nat, pages: seq<Page>, k: nat)
    requires Walk(order, base, lists, wanted, maxEntries, pages) && maxEntries > 0 && k < |pages|
    requires multiset(s) == multiset(base) && Sorted(order, s) && DistinctKeys(order, s) && DistinctIds(s)
    ensures k == 0 || Start(k, maxEntries) < |Shown(s, wanted)|
    ensures Start(k, maxEntries) <= |Shown(s, wanted)|
    ensures pages[k] == Stretch(Shown(s, wanted), maxEntries, Start(k, maxEntries)) && |pages[k].entries| <= maxEntries
  {
    hide DistinctKeys, DistinctIds, Sorted, Answers, PageFrom, Walk, Shown, Stretch, TokenAt;
    var shown, lo := Shown(s, wanted), Start(k, maxEntries);
    var token := TokenFor(pages, k);
    if k > 0 {
      WalkPage(order, base, s, lists, wanted, maxEntries, pages, k - 1);
      WalkAnswers(order, base, lists, wanted, maxEntries, pages, k - 1);
      NextStretch(shown, maxEntries, Start(k - 1, maxEntries));
    }
    StretchIsShort(shown, maxEntries, lo);
    assert token == TokenAt(shown, lo);
    WalkAnswers(order, base, lists, wanted, maxEntries, pages, k);
    AnswersAreOfTheSorted(order, base, s, lists[k], wanted, maxEntries, token, Some(pages[k]));
    PageAt(s, wanted, maxEntries, lo);
  }

  lemma {:induction false} WalkEntries(order: Order, base: seq<Entry>, s: seq<Entry>, lists: seq<seq<Entry>>,
                                       wanted: string, maxEntries: nat, pages: seq<Page>, n: nat)
    requires Walk(order, base, lists, wanted, maxEntries, pages) && maxEntries > 0 && n <= |pages|
    requires multiset(s) == multiset(base) && Sorted(order, s) && DistinctKeys(order, s) && DistinctIds(s)
    ensures Entries(pages[..n]) == Shown(s, wanted)[..Min(Start(n, maxEntries), |Shown(s, wanted)|)]
  {
    hide DistinctKeys, DistinctIds, Sorted, Walk, Shown, Stretch;
    if n > 0 {
      WalkEntries(order, base, s, lists, wanted, maxEntries, pages, n - 1);
      WalkPage(order, base, s, lists, wanted, maxEntries, pages, n - 1);
      assert pages[..n][..n - 1] == pages[..n - 1];
      StretchExtends(Shown(s, wanted), maxEntries, Start(n - 1, maxEntries));
    }
  }

  lemma NextStretch(shown: seq<Entry>, maxEntries: nat, lo: nat)
    requires lo <= |shown| && maxEntries > 0 && Stretch(shown, maxEntries, lo).nextToken != ""
    ensures lo + maxEntries < |shown| && Stretch(shown, maxEntries, lo).nextToken == TokenAt(shown, lo + maxEntries)
  {
  }

  lemma StretchIsShort(shown: seq<Entry>, maxEntries: nat, lo: nat)
    requires lo <= |shown|
    ensures |Stretch(shown, maxEntries, lo).entries| <= maxEntries
    ensures TokenAt(shown, 0) == ""
  {
  }

  lemma StretchExtends(shown: seq<Entry>, maxEntries: nat, lo: nat)
    requires lo <= |shown|
    ensures shown[..lo] + Stretch(shown, maxEntries, lo).entries == shown[..Min(lo + maxEntries, |shown|)]
  {
  }

  // Following the next tokens to the end visits every shown entry once, in order, in pages of at most maxEntries;
  // it takes as many pages as it must, and one when there is nothing to show.
  lemma WalkCoversListing(order: Order, base: seq<Entry>, s: seq<Entry>, lists: seq<seq<Entry>>, wanted: string,
                          maxEntries: nat, pages: seq<Page>)
    requires Walk(order, base, lists, wanted, maxEntries, pages) && maxEntries > 0
    requires multiset(s) == multiset(base) && Sorted(order, s) && DistinctIds(s)
    requires order == ByParentAndId ==> forall e | e in s :: '/' !in e.id
    ensures forall k | 0 <= k < |pages| :: |pages[k].entries| <= maxEntries
    ensures pages[|pages| - 1].nextToken == "" ==>
              && Entries(pages) == Shown(s, wanted)
              && |pages| == if Shown(s, wanted) == [] then 1 else (|Shown(s, wanted)| + maxEntries - 1) / maxEntries
    ensures pages[|pages| - 1].nextToken != "" ==> |pages| * maxEntries < |Shown(s, wanted)|
  {
    hide Sorted, Walk, DistinctKeys, DistinctIds, Shown, Entries, Start;
    var n, shown := |pages|, Shown(s, wanted);
    assert n > 0 by { WalkNonEmpty(order, base, lists, wanted, maxEntries, pages); }
    assert DistinctKeys(order, s) by { DistinctIdsGiveKeys(order, s); }
    forall k | 0 <= k < n ensures |pages[k].entries| <= maxEntries {
      WalkPage(order, base, s, lists, wanted, maxEntries, pages, k);
    }
    WalkPage(order, base, s, lists, wanted, maxEntries, pages, n - 1);
    WalkEntries(order, base, s, lists, wanted, maxEntries, pages, n);
    assert pages[..n] == pages;
    LastPage(s, wanted, maxEntries, n);
    assert shown[..|shown|] == shown;
  }

  // A walk is never refused: the call that follows a next token is answered with a page, whatever order it gets the
  // entries in, and so is the first.
  lemma NextCallIsAnswered(order: Order, base: seq<Entry>, s: seq<Entry>, lists: seq<seq<Entry>>, wanted: string,
                           maxEntries: nat,
                           pages: seq<Page>, infos: seq<Entry>, r: Option<Page>)
    requires maxEntries > 0 && multiset(s) == multiset(base) == multiset(infos) && Sorted(order, s) && DistinctIds(s)
    requires order == ByParentAndId ==> forall e | e in s :: '/' !in e.id
    requires pages == [] ==> lists == []
    requires pages == [] || (Walk(order, base, lists, wanted, maxEntries, pages) && pages[|pages| - 1].nextToken != "")
    requires Answers(order, infos, wanted, maxEntries, TokenFor(pages, |pages|), r)
    ensures r.Some? && Walk(order, base, lists + [infos], wanted, maxEntries, pages + [r.value])
  {
    hide Sorted, DistinctKeys, DistinctIds, Shown, Start, Answers, PageFrom, Stretch, TokenAt, Walk, TokenFor;
    DistinctIdsGiveKeys(order, s);
    var lo := NextStart(order, base, s, lists, wanted, maxEntries, pages);
    AnswersAreOfTheSorted(order, base, s, infos, wanted, maxEntries, TokenAt(Shown(s, wanted), lo), r);
    PageAt(s, wanted, maxEntries, lo);
    WalkExtends(order, base, lists, wanted, maxEntries, pages, infos, r.value);
  }

  // Where the page after a walk so far starts.
  lemma NextStart(order: Order, base: seq<Entry>, s: seq<Entry>, lists: seq<seq<Entry>>, wanted: string,
                  maxEntries: nat, pages: seq<Page>) returns (lo: nat)
    requires maxEntries > 0 && multiset(s) == multiset(base) && Sorted(order, s)
    requires DistinctIds(s) && DistinctKeys(order, s)
    requires pages == [] || (Walk(order, base, lists, wanted, maxEntries, pages) && pages[|pages| - 1].nextToken != "")
    ensures lo == 0 || lo < |Shown(s, wanted)|
    ensures TokenFor(pages, |pages|) == TokenAt(Shown(s, wanted), lo)
  {
    hide Sorted, DistinctKeys, DistinctIds, Shown, Start, Stretch, TokenAt, Walk;
    var n, shown := |pages|, Shown(s, wanted);
    if n == 0 {
      lo := 0;
      StretchIsShort(shown, maxEntries, 0);
    } else {
      lo := Start(n - 1, maxEntries) + maxEntries;
      WalkPage(order, base, s, lists, wanted, maxEntries, pages, n - 1);
      NextStretch(shown, maxEntries, Start(n - 1, maxEntries));
    }
  }

  lemma WalkExtends(order: Order, base: seq<Entry>, lists: seq<seq<Entry>>, wanted: string, maxEntries: nat,
                    pages: seq<Page>,
                    infos: seq<Entry>, page: Page)
    requires pages == [] || (Walk(order, base, lists, wanted, maxEntries, pages) && pages[|pages| - 1].nextToken != "")
    requires pages == [] ==> lists == []
    requires multiset(infos) == multiset(base)
    requires Answers(order, infos, wanted, maxEntries, TokenFor(pages, |pages|), Some(page))
    ensures Walk(order, base, lists + [infos], wanted, maxEntries, pages + [page])
  {
    hide Answers, Walk, TokenFor;
    var n, longer, more := |pages|, pages + [page], lists + [infos];
    if n > 0 {
      WalkAnswers(order, base, lists, wanted, maxEntries, pages, 0);
    }
    forall k | 0 <= k <= n
      ensures multiset(more[k]) == multiset(base)
      ensures Answers(order, more[k], wanted, maxEntries, TokenFor(longer, k), Some(longer[k]))
      ensures k < n ==> longer[k].nextToken != ""
    {
      TokenOfPrefix(pages, page, k);
      if k < n {
        WalkAnswers(order, base, lists, wanted, maxEntries, pages, k);
        assert more[k] == lists[k] && longer[k] == pages[k];
      }
    }
    WalkOf(order, base, more, wanted, maxEntries, longer);
  }

  lemma TokenOfPrefix(pages: seq<Page>, page: Page, k: nat)
    requires k <= |pages|
    ensures TokenFor(pages + [page], k) == TokenFor(pages, k)
  {
  }

  lemma WalkOf(order: Order, base: seq<Entry>, lists: seq<seq<Entry>>, wanted: string, maxEntries: nat,
               pages: seq<Page>)
    requires |lists| == |pages| > 0
    requires forall k | 0 <= k < |pages| ::
               multiset(lists[k]) == multiset(base)
                   && Answers(order, lists[k], wanted, maxEntries, TokenFor(pages, k), Some(pages[k]))
    requires forall k | 0 <= k < |pages| - 1 :: pages[k].nextToken != ""
    ensures Walk(order, base, lists, wanted, maxEntries, pages)
  {
  }

  lemma DistinctIdsGiveKeys(order: Order, s: seq<Entry>)
    requires DistinctIds(s) && (order == ByParentAndId ==> forall e | e in s :: '/' !in e.id)
    ensures DistinctKeys(order, s)
  {
    DistinctIdsGiveDistinctKeys(order, s);
  }

  // The n-th page ends the walk exactly when n pages hold everything shown.
  lemma LastPage(s: seq<Entry>, wanted: string, maxEntries: nat, n: nat)
    requires DistinctIds(s) && maxEntries > 0 && n > 0
    requires n == 1 || Start(n - 1, maxEntries) < |Shown(s, wanted)|
    ensures Start(n - 1, maxEntries) <= |Shown(s, wanted)| && Start(n, maxEntries) == n * maxEntries
    ensures Stretch(Shown(s, wanted), maxEntries, Start(n - 1, maxEntries)).nextToken == "" <==>
            |Shown(s, wanted)| <= Start(n, maxEntries)
    ensures |Shown(s, wanted)| <= Start(n, maxEntries) ==>
              n == if Shown(s, wanted) == [] then 1 else (|Shown(s, wanted)| + maxEntries - 1) / maxEntries
  {
    var shown, end := Shown(s, wanted), Start(n, maxEntries);
    StartIsProduct(n, maxEntries);
    if end < |shown| {
      ShownAreListed(s, wanted);
      assert shown[end] in s;
    } else {
      PagesNeeded(n, maxEntries, |shown|);
    }
  }

  lemma WalkAnswers(order: Order, base: seq<Entry>, lists: seq<seq<Entry>>, wanted: string, maxEntries: nat,
                    pages: seq<Page>, k: nat)
    requires Walk(order, base, lists, wanted, maxEntries, pages) && k < |pages|
    ensures |lists| == |pages| && multiset(lists[k]) == multiset(base)
    ensures Answers(order, lists[k], wanted, maxEntries, TokenFor(pages, k), Some(pages[k]))
    ensures k < |pages| - 1 ==> pages[k].nextToken != ""
  {
  }

  lemma WalkNonEmpty(order: Order, base: seq<Entry>, lists: seq<seq<Entry>>, wanted: string, maxEntries: nat,
                     pages: seq<Page>)
    requires Walk(order, base, lists, wanted, maxEntries, pages)
    ensures |pages| > 0
  {
  }

  lemma {:induction false} StartIsProduct(k: nat, maxEntries: nat)
    ensures Start(k, maxEntries) == k * maxEntries
  {
    if k > 0 {
      StartIsProduct(k - 1, maxEntries);
      assert (k - 1) * maxEntries + maxEntries == k * maxEntries;
    }
  }

  lemma PagesNeeded(n: nat, maxEntries: nat, total: nat)
    requires n > 0 && maxEntries > 0 && total <= Start(n, maxEntries)
    requires n == 1 || Start(n - 1, maxEntries) < total
    ensures n == if total == 0 then 1 else (total + maxEntries - 1) / maxEntries
  {
    if total > 0 {
      DivisionIs(total + maxEntries - 1, maxEntries, n);
    }
  }

  lemma DivisionIs(x: nat, d: nat, q: nat)
    requires d > 0 && Start(q, d) <= x < Start(q, d) + d
    ensures x / d == q
  {
    StartIsProduct(q, d);
    QuotientIs(x, d, q, x - q * d);
  }

  lemma QuotientIs(x: nat, d: nat, q: nat, r: nat)
    requires d > 0 && x == q * d + r && r < d
    ensures x / d == q
  {
    var q' := x / d;
    assert x == q' * d + x % d;
    assert (q - q') * d == x % d - r;
    SmallMultipleIsZero(q - q', d);
  }

  lemma SmallMultipleIsZero(k: int, d: nat)
    requires 0 - d < k * d < d
    ensures k == 0
  {
  }
}
