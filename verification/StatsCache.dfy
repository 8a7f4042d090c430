/** The per-request cache of grouped statistics: in-memory sorting and paging, and the once-only computation. */
module StatsCache {
  import opened Prelude
  import opened StatsModel
  import GroupedStats

  // ----- sorting

  /** The field is an int64, as every Go int of the source. */
  predicate Sized(s: Stats, f: Field) {
    -TWO_63 <= Get(s, f) < TWO_63
  }

  /** The comparator getter(b) - getter(a), with Go's wrap-around. */
  function Compare(a: Stats, b: Stats, f: Field): Int64 {
    Wrap64(Get(b, f) - Get(a, f))
  }

  predicate Fits(a: Stats, b: Stats, f: Field) {
    -TWO_63 < Get(b, f) - Get(a, f) < TWO_63
  }

  /** The comparator orders a pair by descending field, in both directions, exactly when the difference fits. */
  lemma CompareIff(a: Stats, b: Stats, f: Field)
    requires Sized(a, f) && Sized(b, f)
    ensures Fits(a, b, f) <==>
              && (Compare(a, b, f) < 0 <==> Get(a, f) > Get(b, f)) && (Compare(a, b, f) > 0 <==> Get(a, f) < Get(b, f))
              && (Compare(b, a, f) < 0 <==> Get(b, f) > Get(a, f)) && (Compare(b, a, f) > 0 <==> Get(b, f) < Get(a, f))
  {
    hide Get;
    var x, y := Get(a, f), Get(b, f);
    WrapSign(y - x);
    WrapSign(x - y);
  }

  lemma WrapSign(d: int)
    requires -TWO_64 < d < TWO_64
    ensures -TWO_63 <= d < TWO_63 ==> Wrap64(d) == d
    ensures d >= TWO_63 ==> Wrap64(d) < 0
    ensures d < -TWO_63 ==> Wrap64(d) >= 0
  {
    if d >= TWO_63 {
      assert (d + TWO_63) % TWO_64 == d + TWO_63 - TWO_64;
    } else if d < -TWO_63 {
      assert (d + TWO_63) % TWO_64 == d + TWO_63 + TWO_64;
    }
  }

  /** Moves x left over the elements it must precede. */
  function Insert(s: seq<Stats>, x: Stats, f: Field): seq<Stats> {
    if s == [] || Compare(x, s[|s| - 1], f) >= 0 then s + [x]
    else Insert(s[..|s| - 1], x, f) + [s[|s| - 1]]
  }

  function SortBy(s: seq<Stats>, f: Field): seq<Stats> {
    if s == [] then [] else Insert(SortBy(s[..|s| - 1], f), s[|s| - 1], f)
  }

  lemma {:induction false} InsertPermutes(s: seq<Stats>, x: Stats, f: Field)
    ensures multiset(Insert(s, x, f)) == multiset(s) + multiset{x}
  {
    hide Compare;
    if s == [] {
    } else {
      InsertPermutes(s[..|s| - 1], x, f);
      assert s == s[..|s| - 1] + [s[|s| - 1]];
    }
  }

  /** Whatever the comparator does, the sorted copy holds the same records. */
  lemma {:induction false} SortPermutes(s: seq<Stats>, f: Field)
    ensures multiset(SortBy(s, f)) == multiset(s)
  {
    hide Insert;
    if s == [] {
    } else {
      SortPermutes(s[..|s| - 1], f);
      InsertPermutes(SortBy(s[..|s| - 1], f), s[|s| - 1], f);
      assert s == s[..|s| - 1] + [s[|s| - 1]];
    }
  }

  predicate Descending(s: seq<Stats>, f: Field) {
    forall i, k :: 0 <= i < k < |s| ==> Get(s[i], f) >= Get(s[k], f)
  }

  /** Every two records of s compare correctly. */
  ghost predicate AllFit(s: seq<Stats>, f: Field) {
    forall a, b :: a in s && b in s ==> Sized(a, f) && Fits(a, b, f)
  }

  lemma DescendingSnoc(s: seq<Stats>, x: Stats, f: Field)
    requires Descending(s, f) && forall a :: a in s ==> Get(a, f) >= Get(x, f)
    ensures Descending(s + [x], f)
  {
    hide Get;
  }

  lemma DescendingInit(s: seq<Stats>, f: Field)
    requires s != [] && Descending(s, f)
    ensures Descending(s[..|s| - 1], f) && forall a :: a in s ==> Get(a, f) >= Get(s[|s| - 1], f)
  {
    hide Get;
  }

  lemma {:induction false} InsertDescending(s: seq<Stats>, x: Stats, f: Field)
    requires Descending(s, f) && Sized(x, f) && forall a :: a in s ==> Sized(a, f) && Fits(x, a, f)
    ensures Descending(Insert(s, x, f), f)
    ensures forall a :: a in Insert(s, x, f) <==> a in s || a == x
  {
    hide Get, Fits, Sized, Compare, Descending;
    if s == [] {
      EmptyDescending(f);
      DescendingSnoc([], x, f);
    } else {
      var init, last := s[..|s| - 1], s[|s| - 1];
      assert forall a :: a in s <==> a in init || a == last;
      DescendingInit(s, f);
      CompareIff(x, last, f);
      if Compare(x, last, f) < 0 {
        InsertDescending(init, x, f);
        DescendingSnoc(Insert(init, x, f), last, f);
      } else {
        DescendingSnoc(s, x, f);
      }
    }
  }

  lemma EmptyDescending(f: Field)
    ensures Descending([], f)
  {
  }

  /** Sorting is right for every list whose records compare correctly. */
  lemma {:induction false} SortDescending(s: seq<Stats>, f: Field)
    requires AllFit(s, f)
    ensures Descending(SortBy(s, f), f)
    ensures forall a :: a in SortBy(s, f) <==> a in s
  {
    hide Get, Fits, Sized, Compare, Descending, Insert;
    if s == [] {
      EmptyDescending(f);
    } else {
      var init, last := s[..|s| - 1], s[|s| - 1];
      assert forall a :: a in s <==> a in init || a == last;
      assert last in s;
      SortDescending(init, f);
      InsertDescending(SortBy(init, f), last, f);
    }
  }

  lemma SortPair(a: Stats, b: Stats, f: Field)
    ensures SortBy([a, b], f) == Insert([a], b, f)
  {
    hide Insert, Compare;
    assert [a, b][..1] == [a] && [a][..0] == [];
    InsertOne(a, f);
  }

  lemma InsertOne(a: Stats, f: Field)
    ensures SortBy([], f) == [] && Insert([], a, f) == [a]
  {
    hide Compare;
  }

  /** Two records too far apart would be left in ascending order; `GroupedAllFit` shows that there are no such records. */
  lemma WideSpreadMisorders(a: Stats, b: Stats, f: Field)
    requires Sized(a, f) && Sized(b, f) && Get(b, f) - Get(a, f) > TWO_63
    ensures SortBy([a, b], f) == [a, b] && !Descending([a, b], f)
  {
    hide Get, Compare, SortBy;
    CompareWide(a, b, f);
    SortPair(a, b, f);
    assert Get([a, b][0], f) < Get([a, b][1], f);
  }

  lemma CompareWide(a: Stats, b: Stats, f: Field)
    requires Sized(a, f) && Sized(b, f) && Get(b, f) - Get(a, f) > TWO_63
    ensures Compare(b, a, f) >= 0
  {
    hide Get;
    WrapSign(Get(a, f) - Get(b, f));
  }

  lemma {:induction false} InsertLength(s: seq<Stats>, x: Stats, f: Field)
    ensures |Insert(s, x, f)| == |s| + 1
  {
    hide Compare;
    if s == [] {
    } else {
      InsertLength(s[..|s| - 1], x, f);
    }
  }

  lemma {:induction false} SortLength(s: seq<Stats>, f: Field)
    ensures |SortBy(s, f)| == |s|
  {
    hide Insert;
    if s == [] {
    } else {
      SortLength(s[..|s| - 1], f);
      InsertLength(SortBy(s[..|s| - 1], f), s[|s| - 1], f);
    }
  }

  /** One more element of `was` goes into the sorted part. */
  lemma SortStep(was: seq<Stats>, i: nat, f: Field)
    requires i < |was|
    ensures var now := SortBy(was[..i], f) + was[i..];
            && i < |now|
            && Insert(now[..i], now[i], f) + now[i + 1..] == SortBy(was[..i + 1], f) + was[i + 1..]
  {
    hide Insert;
    SortLength(was[..i], f);
    assert was[..i + 1][..i] == was[..i];
    var now := SortBy(was[..i], f) + was[i..];
    assert now[..i] == SortBy(was[..i], f) && now[i + 1..] == was[i + 1..];
  }

  /** slices.SortFunc, as an insertion sort in place. */
  method SortInPlace(a: array<Stats>, f: Field)
    modifies a
    ensures a[..] == SortBy(old(a[..]), f)
  {
    hide SortBy, Insert;
    ghost var was := a[..];
    SortStart(was, f);
    for i := 0 to a.Length
      invariant a[..] == SortBy(was[..i], f) + was[i..]
    {
      SortStep(was, i, f);
      InsertInPlace(a, i, f);
    }
    assert was[..a.Length] == was && was[a.Length..] == [];
  }

  lemma SortStart(was: seq<Stats>, f: Field)
    ensures SortBy(was[..0], f) + was[0..] == was
  {
    assert SortBy(was[..0], f) == [];
  }

  /** Moves the element at position i into the sorted part before it. */
  method InsertInPlace(a: array<Stats>, i: nat, f: Field)
    requires i < a.Length
    modifies a
    ensures a[..] == Insert(old(a[..])[..i], old(a[..])[i], f) + old(a[..])[i + 1..]
  {
    hide Compare, Insert, Gap, Passed;
    ghost var s, tail := a[..][..i], a[..][i + 1..];
    var x := a[i];
    var j := i;
    GapStart(a[..], i);
    PassedStart(s, x, f);
    while j > 0 && Compare(x, a[j - 1], f) < 0
      invariant 0 <= j <= i
      invariant a[..] == Gap(s, x, j) + tail
      invariant Passed(s, x, f, j)
    {
      GapBefore(s, x, j, tail);
      PassedStep(s, x, f, j);
      GapStep(s, x, j, tail);
      MoveLeft(a, j, x);
      j := j - 1;
    }
    if j > 0 {
      GapBefore(s, x, j, tail);
    }
    PassedStop(s, x, f, j);
  }

  /** a[j - 1] moves one place to the right, and x comes before it. */
  method MoveLeft(a: array<Stats>, j: nat, x: Stats)
    requires 0 < j < a.Length
    modifies a
    ensures a[..] == Moved(old(a[..]), j, x)
  {
    a[j], a[j - 1] := a[j - 1], x;
  }

  ghost function Moved(all: seq<Stats>, j: nat, x: Stats): seq<Stats>
    requires 0 < j < |all|
  {
    all[j := all[j - 1]][j - 1 := x]
  }

  /** s with x put in at position j. */
  ghost function Gap(s: seq<Stats>, x: Stats, j: nat): (r: seq<Stats>)
    requires j <= |s|
    ensures |r| == |s| + 1
  {
    s[..j] + [x] + s[j..]
  }

  lemma GapStart(all: seq<Stats>, i: nat)
    requires i < |all|
    ensures all == Gap(all[..i], all[i], i) + all[i + 1..]
  {
  }

  lemma GapBefore(s: seq<Stats>, x: Stats, j: nat, tail: seq<Stats>)
    requires 0 < j <= |s|
    ensures (Gap(s, x, j) + tail)[j - 1] == s[j - 1]
  {
  }

  lemma GapStep(s: seq<Stats>, x: Stats, j: nat, tail: seq<Stats>)
    requires 0 < j <= |s|
    ensures Moved(Gap(s, x, j) + tail, j, x) == Gap(s, x, j - 1) + tail
  {
  }

  /** The elements from j on stay behind x. */
  ghost predicate Passed(s: seq<Stats>, x: Stats, f: Field, j: nat)
    requires j <= |s|
  {
    Insert(s, x, f) == Insert(s[..j], x, f) + s[j..]
  }

  lemma PassedStart(s: seq<Stats>, x: Stats, f: Field)
    ensures Passed(s, x, f, |s|)
  {
    hide Insert;
    assert s[..|s|] == s && s[|s|..] == [];
  }

  lemma PassedStep(s: seq<Stats>, x: Stats, f: Field, j: nat)
    requires 0 < j <= |s| && Compare(x, s[j - 1], f) < 0 && Passed(s, x, f, j)
    ensures Passed(s, x, f, j - 1)
  {
    hide Compare;
    assert s[..j][..j - 1] == s[..j - 1];
    assert s[j - 1..] == [s[j - 1]] + s[j..];
  }

  lemma PassedStop(s: seq<Stats>, x: Stats, f: Field, j: nat)
    requires j <= |s| && Passed(s, x, f, j) && (j > 0 ==> Compare(x, s[j - 1], f) >= 0)
    ensures Insert(s, x, f) == Gap(s, x, j)
  {
    hide Compare;
  }

  // ----- paging

  datatype PageRequest = PageRequest(page: Int64, itemsPerPage: Int64)

  /** A page, or a slice expression out of range. */
  datatype Slice = Rows(rows: seq<Stats>) | Panics

  /** The page request on a sorted list, with the wrap-around of its two products and sums. */
  function PageOf(s: seq<Stats>, p: Option<PageRequest>): Slice {
    if p.None? || p.value.itemsPerPage == -1 then Rows(s)
    else
      var start := Wrap64((p.value.page - 1) * p.value.itemsPerPage);
      if start >= |s| then Rows([])
      else
        var stop := Wrap64(start + p.value.itemsPerPage);
        var end := if stop > |s| then |s| else stop;
        if 0 <= start <= end then Rows(s[start..end]) else Panics
  }

  /** The k-th window of n elements, cut at the end of the list. */
  function Window(s: seq<Stats>, k: nat, n: nat): seq<Stats> {
    Cut(s, k * n, n)
  }

  /** Up to n elements from position a on. */
  function Cut(s: seq<Stats>, a: nat, n: nat): seq<Stats> {
    if a >= |s| then [] else if a + n > |s| then s[a..] else s[a..a + n]
  }

  function Take(s: seq<Stats>, a: nat): seq<Stats> {
    if a >= |s| then s else s[..a]
  }

  lemma TakeNone(s: seq<Stats>)
    ensures Take(s, 0) == []
  {
  }

  lemma TakeCut(s: seq<Stats>, a: nat, n: nat)
    ensures Take(s, a) + Cut(s, a, n) == Take(s, a + n)
  {
  }

  lemma NextProduct(k: nat, n: nat)
    ensures (k + 1) * n == k * n + n && k * n >= 0
    ensures k > 0 ==> k * n >= n
  {
    if k > 0 {
      assert (k - 1) * n >= 0;
    }
  }

  /** Page and page size at least 1: the page is the right window if and only if the wrapped start is not inside
      the list by accident. (A list of pointers is far shorter than 2^62.) */
  lemma PageIff(s: seq<Stats>, page: Int64, items: Int64)
    requires page >= 1 && items >= 1 && |s| < TWO_63 / 2
    ensures PageOf(s, Some(PageRequest(page, items))) == Rows(Window(s, page - 1, items)) <==>
              (page - 1) * items < TWO_63 || Wrap64((page - 1) * items) >= |s|
  {
    var product := (page - 1) * items;
    NextProduct(page - 1, items);
    if product < TWO_63 {
      SmallPage(s, page, items);
    } else {
      assert Window(s, page - 1, items) == [];
      if Wrap64(product) < |s| {
        LostPage(s, Wrap64(product), items);
      }
    }
  }

  lemma SmallPage(s: seq<Stats>, page: Int64, items: Int64)
    requires page >= 1 && items >= 1 && |s| < TWO_63 / 2 && (page - 1) * items < TWO_63
    ensures PageOf(s, Some(PageRequest(page, items))) == Rows(Window(s, page - 1, items))
  {
    var product := (page - 1) * items;
    NextProduct(page - 1, items);
    WrapSign(product);
    if product < |s| && page > 1 {
      WrapSign(product + items);
    }
  }

  lemma LostPage(s: seq<Stats>, start: Int64, items: Int64)
    requires items >= 1 && start < |s| < TWO_63 / 2
    ensures var stop := Wrap64(start + items);
            var end := if stop > |s| then |s| else stop;
            !(0 <= start <= end) || s[start..end] != []
  {
    if start >= 0 {
      WrapSign(start + items);
    }
  }

  /** Page 2^32 + 1 of size 2^31: the product wraps to a negative start. */
  lemma HugePagePanics(s: seq<Stats>)
    requires |s| < TWO_63 / 2
    ensures PageOf(s, Some(PageRequest(TWO_32 + 1, TWO_31))) == Panics
  {
    assert Wrap64(TWO_32 * TWO_31) == -TWO_63;
    WrapSign(-TWO_63 + TWO_31);
  }

  /** Exactly when a page request is a slice out of range, for every page and size of 64 bits: the start, wrapped,
      is negative, or lies in the list with a size that is negative or leads out of 64 bits. Where the start does not
      wrap, these are a page below 1 of a positive size, and a size below -1 but for the pages behind the list. */
  lemma PanicsIff(s: seq<Stats>, page: Int64, items: Int64)
    requires |s| < TWO_63 / 2
    ensures var start := Wrap64((page - 1) * items);
            PageOf(s, Some(PageRequest(page, items))) == Panics <==>
            items != -1 && (start < 0 || (start < |s| && (items < 0 || start + items >= TWO_63)))
    ensures -TWO_63 <= (page - 1) * items < TWO_63 ==>
              (PageOf(s, Some(PageRequest(page, items))) == Panics <==>
               (page < 1 && items > 0) || (items < -1 && (page > 1 || (page - 1) * items < |s|)))
  {
    var product := (page - 1) * items;
    var start := Wrap64(product);
    if 0 <= start < |s| {
      WrapSign(start + items);
    }
    if -TWO_63 <= product < TWO_63 {
      WrapSign(product);
      ProductSign(page - 1, items);
    }
  }

  lemma ProductSign(a: int, b: int)
    ensures a * b < 0 <==> (a < 0 < b) || (b < 0 < a)
    ensures a > 0 && b > 0 ==> a * b >= b
  {
    if a > 0 && b > 0 {
      NextProduct(a, b);
    }
  }

  /** The first k windows in one list. */
  function Windows(s: seq<Stats>, k: nat, n: nat): seq<Stats> {
    if k == 0 then [] else Windows(s, k - 1, n) + Window(s, k - 1, n)
  }

  lemma {:induction false} WindowsCover(s: seq<Stats>, k: nat, n: nat)
    ensures Windows(s, k, n) == Take(s, k * n)
  {
    hide Take, Cut;
    if k == 0 {
      TakeNone(s);
    } else {
      WindowsCover(s, k - 1, n);
      NextProduct(k - 1, n);
      TakeCut(s, (k - 1) * n, n);
    }
  }

  /** What the requests for pages 1 to k answer, one after the other; None if one of them is out of range. */
  function Answered(s: seq<Stats>, k: nat, n: Int64): Option<seq<Stats>>
    requires k < TWO_63
  {
    if k == 0 then Some([])
    else
      var before := Answered(s, k - 1, n);
      var page := PageOf(s, Some(PageRequest(k, n)));
      if before.None? || page.Panics? then None else Some(before.value + page.rows)
  }

  lemma {:induction false} AnsweredWindows(s: seq<Stats>, k: nat, n: Int64)
    requires n >= 1 && |s| < TWO_63 / 2 && k < TWO_63 && (k - 1) * n < TWO_63
    ensures Answered(s, k, n) == Some(Windows(s, k, n))
  {
    hide PageOf, Window;
    if k == 0 {
    } else {
      assert (k - 2) * n == (k - 1) * n - n;
      AnsweredWindows(s, k - 1, n);
      SmallPage(s, k, n);
    }
  }

  /** The requests for the pages that cover the list, one after the other, answer the whole list: nothing is lost,
      nothing is shown twice, and none is out of range. */
  lemma PagesCover(s: seq<Stats>, k: nat, n: Int64)
    requires n >= 1 && |s| < TWO_63 / 2 && k < TWO_63 && (k - 1) * n < TWO_63 && k * n >= |s|
    ensures Answered(s, k, n) == Some(s)
  {
    hide Answered, Windows;
    AnsweredWindows(s, k, n);
    WindowsCover(s, k, n);
  }

  /** sortAndPageStats. The caller's list is left as it is: only a copy is sorted. */
  method SortAndPage(all: array<Stats>, sortBy: Option<Field>, p: Option<PageRequest>) returns (r: Slice)
    ensures r == PageOf(if sortBy.Some? then SortBy(all[..], sortBy.value) else all[..], p)
    ensures p.None? || p.value.itemsPerPage == -1 ==>
              r == Rows(if sortBy.Some? then SortBy(all[..], sortBy.value) else all[..])
  {
    hide SortBy;
    var sorted := new Stats[all.Length];
    for i := 0 to all.Length
      invariant sorted[..i] == all[..i]
    {
      sorted[i] := all[i];
    }
    assert sorted[..] == sorted[..all.Length] == all[..];
    if sortBy.Some? {
      SortInPlace(sorted, sortBy.value);
    }
    if p.Some? && p.value.itemsPerPage != -1 {
      var start := Wrap64((p.value.page - 1) * p.value.itemsPerPage);
      if start >= sorted.Length {
        return Rows([]);
      }
      var end := Wrap64(start + p.value.itemsPerPage);
      if end > sorted.Length {
        end := sorted.Length;
      }
      if start < 0 || start > end {
        return Panics;
      }
      return Rows(sorted[start..end]);
    }
    return Rows(sorted[..]);
  }

  /** All pages that the code answers for one sort field, put one after the other, are one descending permutation of
      the cached list. */
  lemma AllPagesSorted(all: seq<Stats>, f: Field, k: nat, n: Int64)
    requires AllFit(all, f) && n >= 1 && |all| < TWO_63 / 2
    requires k < TWO_63 && (k - 1) * n < TWO_63 && k * n >= |all|
    ensures var pages := Answered(SortBy(all, f), k, n);
            pages.Some? && Descending(pages.value, f) && multiset(pages.value) == multiset(all)
  {
    hide SortBy, Answered, AllFit, Descending;
    SortDescending(all, f);
    SortPermutes(all, f);
    assert |multiset(SortBy(all, f))| == |multiset(all)|;
    PagesCover(SortBy(all, f), k, n);
  }

  // ----- the sort key is computed

  /** sortByFieldName: the default is the job count. */
  function SortFieldName(f: Field): string {
    match f
    case TotalJobs => "totalJobs"
    case TotalUsers => "totalUsers"
    case TotalWalltime => "totalWalltime"
    case TotalNodes => "totalNodes"
    case TotalNodeHours => "totalNodeHours"
    case TotalCores => "totalCores"
    case TotalCoreHours => "totalCoreHours"
    case TotalAccs => "totalAccs"
    case TotalAccHours => "totalAccHours"
    case _ => "totalJobs"
  }

  /** The nine fields a client can sort by. */
  predicate Sortable(f: Field) {
    !f.RunningJobs? && !f.ShortJobs?
  }

  /** Once the name of the sort field is among the requested ones, the getter reads the true column of each group,
      even if the client did not select it. */
  lemma SortFieldComputed(f: Field, id: string, s: seq<GroupedStats.Job>, now: int, short: int, fields: set<string>)
    requires Sortable(f)
    ensures Get(GroupedStats.StatsOf(id, s, GroupedStats.Query(now, short, Some(fields + {SortFieldName(f)}))), f)
            == GroupedStats.Column(f, s, GroupedStats.Query(now, short, None))
  {
    var q := GroupedStats.Query(now, short, Some(fields + {SortFieldName(f)}));
    GroupedStats.ColumnOf(f, id, s, q);
    hide GroupedStats.StatsOf, GroupedStats.Hours, Get;
    GroupedStats.SameTotal(f, s, q, GroupedStats.Query(now, short, None));
  }

  // ----- grouped statistics always compare correctly

  /** Each named group has fewer than 2^63 jobs and its sum fits into 64 bits; otherwise the query fails. */
  ghost predicate GroupsFit(gs: seq<Option<string>>, s: seq<GroupedStats.Job>, q: GroupedStats.Query, f: Field) {
    forall g :: g in gs && g.Some? ==>
      && |GroupedStats.OfGroup(s, g)| < TWO_63
      && -TWO_63 <= GroupedStats.Total(f, GroupedStats.OfGroup(s, g), q) < TWO_63
  }

  /** No two values in this range are 2^63 apart: counts and units are not negative, hours are cut by 3600. */
  predicate InRange(f: Field, x: int) {
    if GroupedStats.InHours(f) then -TWO_63 / 2 < x < TWO_63 / 2 else 0 <= x < TWO_63
  }

  lemma {:induction false} UsersAtMost(s: seq<GroupedStats.Job>)
    ensures |GroupedStats.Users(s)| <= |s|
  {
    hide GroupedStats.Users;
    if s == [] {
      GroupedStats.NoOne();
    } else {
      assert s == [s[0]] + s[1..];
      GroupedStats.UsersCons(s[0], s[1..]);
      UsersAtMost(s[1..]);
    }
  }

  lemma HoursSmall(x: int)
    requires -TWO_63 <= x < TWO_63
    ensures -TWO_63 / 2 < GroupedStats.Hours(x) < TWO_63 / 2
  {
  }

  lemma ColumnInRange(f: Field, s: seq<GroupedStats.Job>, q: GroupedStats.Query)
    requires Sortable(f) && |s| < TWO_63 && -TWO_63 <= GroupedStats.Total(f, s, q) < TWO_63
    ensures InRange(f, GroupedStats.Column(f, s, q))
  {
    hide GroupedStats.Total, GroupedStats.Users, GroupedStats.Needed, GroupedStats.Hours;
    if f == TotalUsers {
      UsersAtMost(s);
    } else if GroupedStats.InHours(f) {
      HoursSmall(GroupedStats.Total(f, s, q));
    } else if f == TotalJobs {
      GroupedStats.TotalJobsIsLength(s, q);
    } else {
      GroupedStats.ZeroTotal(f, s, q);
    }
  }

  lemma {:induction false} GroupedInRange(gs: seq<Option<string>>, s: seq<GroupedStats.Job>, q: GroupedStats.Query, f: Field)
    requires GroupsFit(gs, s, q, f) && Sortable(f)
    ensures forall a :: a in GroupedStats.Grouped(gs, s, q) ==> InRange(f, Get(a, f))
  {
    hide GroupedStats.StatsOf, GroupedStats.Total, GroupedStats.OfGroup, Get, InRange, Sortable;
    if gs == [] {
    } else {
      var init, g := gs[..|gs| - 1], gs[|gs| - 1];
      assert forall h :: h in init ==> h in gs;
      GroupedInRange(init, s, q, f);
      if g.Some? {
        ColumnInRange(f, GroupedStats.OfGroup(s, g), q);
        GroupedStats.ColumnOf(f, g.value, GroupedStats.OfGroup(s, g), q);
      }
    }
  }

  lemma InRangeFits(a: Stats, b: Stats, f: Field)
    requires InRange(f, Get(a, f)) && InRange(f, Get(b, f))
    ensures Sized(a, f) && Fits(a, b, f)
  {
    hide Get, GroupedStats.InHours;
  }

  /** The records that JobsStatsGrouped delivers compare correctly, whatever column they are sorted by. */
  lemma GroupedAllFit(gs: seq<Option<string>>, s: seq<GroupedStats.Job>, q: GroupedStats.Query, f: Field)
    requires GroupsFit(gs, s, q, f) && Sortable(f)
    ensures AllFit(GroupedStats.Grouped(gs, s, q), f)
  {
    hide GroupedStats.Grouped, GroupsFit, InRange, Sized, Fits, Get;
    GroupedInRange(gs, s, q, f);
    var all := GroupedStats.Grouped(gs, s, q);
    forall a, b | a in all && b in all ensures Sized(a, f) && Fits(a, b, f) {
      InRangeFits(a, b, f);
    }
  }

  /** So all pages of grouped statistics, one after the other, are one descending permutation of the records. */
  lemma GroupedPagesSorted(gs: seq<Option<string>>, s: seq<GroupedStats.Job>, q: GroupedStats.Query, f: Field,
                           k: nat, n: Int64)
    requires GroupsFit(gs, s, q, f) && Sortable(f)
    requires n >= 1 && |GroupedStats.Grouped(gs, s, q)| < TWO_63 / 2
    requires k < TWO_63 && (k - 1) * n < TWO_63 && k * n >= |GroupedStats.Grouped(gs, s, q)|
    ensures var all := GroupedStats.Grouped(gs, s, q);
            var pages := Answered(SortBy(all, f), k, n);
            pages.Some? && Descending(pages.value, f) && multiset(pages.value) == multiset(all)
  {
    hide GroupedStats.Grouped, GroupsFit, AllFit, Answered, SortBy, Descending;
    GroupedAllFit(gs, s, q, f);
    AllPagesSorted(GroupedStats.Grouped(gs, s, q), f, k, n);
  }
}
