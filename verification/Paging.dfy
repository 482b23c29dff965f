// Bounded paging (status_util.go, status_node_page.go,
// status_v1_proxy_handlers.go).  A page of a filtered, sorted pool is produced
// without sorting the pool: a collector keeps the k best rows seen so far, and
// for late pages it runs under the reversed comparator and keeps the k worst.
// The reference is SortBy, the full stable sort of the filtered rows.
module Paging {
  import Lexicographic
  import opened Sorting

  const MAX_INT := 0x7FFF_FFFF_FFFF_FFFF
  const MAX_NODE_PAGE_SIZE := 100

  function Min(a: int, b: int): int { if a < b then a else b }

  // ---------------------------------------------------------------- reference

  function Filter<T>(s: seq<T>, p: T -> bool): (r: seq<T>)
    ensures |r| <= |s|
  {
    if s == [] then []
    else Filter(s[..|s|-1], p) + (if p(s[|s|-1]) then [s[|s|-1]] else [])
  }

  // ---------------------------------------------------------------- collector

  class BoundedCollector<T(0,!new)> {
    const k: nat
    const less: (T, T) -> bool
    const items: array<T>
    var len: nat
    ghost var added: seq<T>

    ghost predicate Valid()
      reads this, items
    {
      && 1 <= k == items.Length
      && len == Min(k, |added|)
      && StrictOrderOn(less, added)
      && items[..len] == SortBy(less, added)[..len]
    }

    constructor (bound: int, less: (T, T) -> bool)
      ensures Valid() && fresh(items) && added == []
      ensures this.k == (if bound < 1 then 1 else bound) && this.less == less
    {
      var cap := if bound < 1 then 1 else bound;
      this.k := cap;
      this.less := less;
      items := new T[cap];
      len := 0;
      added := [];
    }

    // sort.Search over the retained rows.
    method Search(item: T) returns (idx: nat)
      requires Valid() && StrictOrderOn(less, added + [item])
      ensures idx <= len
      ensures forall i | 0 <= i < idx :: !less(item, items[..len][i])
      ensures idx < len ==> less(item, items[idx])
    {
      ghost var s := items[..len];
      Retained(item);
      var lo, hi := 0, len;
      while lo < hi
        invariant 0 <= lo <= hi <= len
        invariant forall i | 0 <= i < lo :: !less(item, s[i])
        invariant hi < len ==> less(item, s[hi])
      {
        var mid := (lo + hi) / 2;
        if less(item, items[mid]) {
          hi := mid;
        } else {
          forall i | 0 <= i < mid + 1 ensures !less(item, s[i]) {
            if i < mid {
              assert less(s[i], s[mid]);
              assert s[i] in s && s[mid] in s;
            }
          }
          lo := mid + 1;
        }
      }
      idx := lo;
    }

    lemma Retained(item: T)
      requires Valid() && StrictOrderOn(less, added + [item])
      ensures Ascending(less, items[..len])
      ensures forall x, y | x in items[..len] && y in items[..len] :: less(item, x) && less(x, y) ==> less(item, y)
    {
      SortAscending(less, added);
      SameElements(SortBy(less, added), added);
      var s := items[..len];
      assert forall x | x in s :: x in SortBy(less, added);
      assert forall x | x in added :: x in added + [item];
    }

    // What one more row does to the retained prefix.
    lemma AddedSorted(item: T, idx: nat)
      requires Valid() && StrictOrderOn(less, added + [item])
      requires idx <= len
      requires forall i | 0 <= i < idx :: !less(item, items[..len][i])
      requires idx < len ==> less(item, items[idx])
      ensures var s := items[..len];
              var n := Min(k, len + 1);
              SortBy(less, added + [item])[..n] == (s[..idx] + [item] + s[idx..])[..n]
    {
      var s, full := items[..len], SortBy(less, added);
      InsertAt(less, s, item, idx);
      assert SortBy(less, added + [item]) == Insert(less, full, item) by {
        assert (added + [item])[..|added|] == added;
      }
      if len < k {
        assert s == full;
      } else {
        InsertTake(less, full, item, k);
      }
    }

    method Add(item: T)
      requires Valid() && StrictOrderOn(less, added + [item])
      modifies this`len, this`added, items
      ensures Valid() && added == old(added) + [item]
    {
      hide SortBy, StrictOrderOn;
      var idx := Search(item);
      ghost var s := items[..len];
      AddedSorted(item, idx);
      if len < k {
        forall j | idx < j <= len { items[j] := items[j - 1]; }
        items[idx] := item;
        len := len + 1;
        assert items[..len] == s[..idx] + [item] + s[idx..];
      } else if idx < k {
        forall j | idx < j < k { items[j] := items[j - 1]; }
        items[idx] := item;
        assert items[..len] == (s[..idx] + [item] + s[idx..])[..len];
      } else {
        assert items[..len] == (s[..idx] + [item] + s[idx..])[..len];
      }
      added := added + [item];
    }

    method SortFinal(lessFinal: (T, T) -> bool) returns (r: seq<T>)
      requires Valid()
      ensures r == SortBy(lessFinal, items[..len])
    {
      r := SortBy(lessFinal, items[..len]);
    }
  }

  // ------------------------------------------------------------------- paging

  function PageWindowLimit(page: int, pageSize: int): int {
    if page < 1 || pageSize < 1 then 0
    else if page > MAX_INT / pageSize then 0
    else if page * pageSize == MAX_INT then 0
    else page * pageSize
  }

  // The guard against overflow keeps the product exactly when it is below the
  // largest Go int; otherwise the window collapses to 0.
  lemma PageWindowExact(page: int, pageSize: int)
    requires 1 <= page && 1 <= pageSize
    ensures PageWindowLimit(page, pageSize) == page * pageSize <==> page * pageSize < MAX_INT
    ensures page * pageSize >= MAX_INT ==> PageWindowLimit(page, pageSize) == 0
  {
    var q := MAX_INT / pageSize;
    var m := MAX_INT % pageSize;
    assert MAX_INT == q * pageSize + m && 0 <= m < pageSize;
    assert page * pageSize >= 1 by { MulMono(1, page, pageSize); }
    if page > q {
      MulMono(q + 1, page, pageSize);
      assert (q + 1) * pageSize == q * pageSize + pageSize;
    } else {
      MulMono(page, q, pageSize);
    }
  }

  lemma MulMono(a: int, b: int, c: int)
    requires a <= b && 0 <= c
    ensures a * c <= b * c
  {
  }

  function PageCountForTotal(total: int, pageSize: int): int {
    if total < 1 || pageSize < 1 then 1
    else total / pageSize + (if total % pageSize != 0 then 1 else 0)
  }

  function PageCollectorWindow(total: int, start: int, end: int): (int, bool) {
    if total - start < end then (total - start, true) else (end, false)
  }

  // The smaller side never needs more than half of the rows plus half a page.
  lemma RetainedBound(total: int, start: int, end: int, pageSize: int)
    requires 0 <= start <= end <= total && end - start <= pageSize
    ensures PageCollectorWindow(total, start, end).0 == Min(end, total - start)
    ensures 2 * PageCollectorWindow(total, start, end).0 <= total + pageSize
  {
  }

  ghost function PageSlice<T>(sorted: seq<T>, page: int, pageSize: int): seq<T>
    requires 1 <= pageSize && 1 <= page <= PageCountForTotal(|sorted|, pageSize)
  {
    PageBounds(|sorted|, page, pageSize);
    sorted[(page - 1) * pageSize..Min(page * pageSize, |sorted|)]
  }

  lemma PageBounds(total: nat, page: int, pageSize: int)
    requires 1 <= pageSize && 1 <= page <= PageCountForTotal(total, pageSize)
    ensures 0 <= (page - 1) * pageSize <= total
    ensures (page - 1) * pageSize <= page * pageSize < total + pageSize + 1
    ensures page == PageCountForTotal(total, pageSize) ==> total <= page * pageSize
    ensures page < PageCountForTotal(total, pageSize) ==> page * pageSize <= total
    ensures total > 0 ==> (page - 1) * pageSize < total
  {
    assert page * pageSize == (page - 1) * pageSize + pageSize;
    MulMono(0, page - 1, pageSize);
    if total >= 1 {
      var q, m := total / pageSize, total % pageSize;
      assert total == q * pageSize + m && 0 <= m < pageSize;
      assert (q + 1) * pageSize == q * pageSize + pageSize;
      if m == 0 {
        MulMono(page, q, pageSize);
        if page < q { MulMono(page, q, pageSize); }
      } else {
        MulMono(page - 1, q, pageSize);
        if page <= q { MulMono(page, q, pageSize); }
      }
    }
  }

  ghost function FirstPages<T>(sorted: seq<T>, pages: nat, pageSize: int): seq<T>
    requires 1 <= pageSize && pages <= PageCountForTotal(|sorted|, pageSize)
  {
    if pages == 0 then [] else FirstPages(sorted, pages - 1, pageSize) + PageSlice(sorted, pages, pageSize)
  }

  lemma {:induction false} FirstPagesArePrefix<T>(sorted: seq<T>, pages: nat, pageSize: int)
    requires 1 <= pageSize && pages <= PageCountForTotal(|sorted|, pageSize)
    ensures 0 <= Min(pages * pageSize, |sorted|)
    ensures FirstPages(sorted, pages, pageSize) == sorted[..Min(pages * pageSize, |sorted|)]
  {
    if pages > 0 {
      FirstPagesArePrefix(sorted, pages - 1, pageSize);
      PageBounds(|sorted|, pages, pageSize);
      var a, b := (pages - 1) * pageSize, Min(pages * pageSize, |sorted|);
      assert sorted[..a] + sorted[a..b] == sorted[..b];
    }
  }

  // Reading every page in turn reads the whole sorted list, once.
  lemma PagesCoverEverything<T>(sorted: seq<T>, pageSize: int)
    requires 1 <= pageSize
    ensures FirstPages(sorted, PageCountForTotal(|sorted|, pageSize), pageSize) == sorted
  {
    var n := PageCountForTotal(|sorted|, pageSize);
    assert n >= 1 by {
      if |sorted| >= 1 {
        assert |sorted| / pageSize >= 0;
        if |sorted| % pageSize == 0 { assert |sorted| / pageSize != 0; }
      }
    }
    FirstPagesArePrefix(sorted, n, pageSize);
    PageBounds(|sorted|, n, pageSize);
  }

  datatype Page<T> = Page(rows: seq<T>, page: int, pageCount: int, filteredTotal: nat, retained: nat)
                   | OutOfRange(pageCount: int)

  // A prefix of the ascending order, sorted again, is itself; a prefix of the
  // descending order, sorted again, is a suffix of the ascending one.
  lemma SortOfPrefix<T(!new)>(less: (T, T) -> bool, rows: seq<T>, k: nat)
    requires StrictOrderOn(less, rows) && k <= |rows|
    ensures SortBy(less, SortBy(less, rows)[..k]) == SortBy(less, rows)[..k]
  {
    SortAscending(less, rows);
    var sorted := SortBy(less, rows);
    var kept := sorted[..k];
    StrictOrderOfPrefix(less, sorted, kept);
    SortOfBlock(less, kept, kept);
  }

  lemma SortOfFlippedPrefix<T(!new)>(less: (T, T) -> bool, rows: seq<T>, k: nat)
    requires StrictOrderOn(less, rows) && k <= |rows|
    ensures SortBy(less, SortBy(Flip(less), rows)[..k]) == SortBy(less, rows)[|rows| - k..]
  {
    hide SortBy, Ascending, StrictOrderOn, Reverse;
    SortFlipped(less, rows);
    SortAscending(less, rows);
    SortAscending(Flip(less), rows);
    var sorted, down := SortBy(less, rows), SortBy(Flip(less), rows);
    FlippedBlock(less, sorted, down, k);
  }

  lemma FlipOrder<T(!new)>(less: (T, T) -> bool, s: seq<T>)
    ensures StrictOrderOn(less, s) <==> StrictOrderOn(Flip(less), s)
  {
  }

  lemma ReversedPrefix<T>(sorted: seq<T>, k: nat)
    requires k <= |sorted|
    ensures Reverse(sorted)[..k] == Reverse(sorted[|sorted| - k..])
  {
    ReverseElements(sorted);
    ReverseElements(sorted[|sorted| - k..]);
  }

  lemma AscendingSuffix<T(!new)>(less: (T, T) -> bool, sorted: seq<T>, i: nat)
    requires i <= |sorted| && Ascending(less, sorted)
    ensures Ascending(less, sorted[i..])
  {
  }

  lemma FlippedBlock<T(!new)>(less: (T, T) -> bool, sorted: seq<T>, down: seq<T>, k: nat)
    requires k <= |sorted| && down == Reverse(sorted) && |down| == |sorted|
    requires Ascending(less, sorted) && StrictOrderOn(Flip(less), down)
    ensures SortBy(less, down[..k]) == sorted[|sorted| - k..]
  {
    hide SortBy, StrictOrderOn, Reverse, Ascending, Flip;
    var up, kept := sorted[|sorted| - k..], down[..k];
    ReversedPrefix(sorted, k);
    ReverseElements(up);
    StrictOrderOfPrefix(Flip(less), down, kept);
    FlipOrder(less, kept);
    AscendingSuffix(less, sorted, |sorted| - k);
    SortOfBlock(less, kept, up);
  }

  // The collector's content for either direction, turned into a page.
  lemma WindowOfCollector<T(!new)>(less: (T, T) -> bool, rows: seq<T>, start: nat, end: nat, kept: seq<T>)
    requires StrictOrderOn(less, rows) && start <= end <= |rows|
    requires var (limit, reverse) := PageCollectorWindow(|rows|, start, end);
             var k := Min(if limit < 1 then 1 else limit, |rows|);
             kept == SortBy(if reverse then Flip(less) else less, rows)[..k]
    ensures var reverse := PageCollectorWindow(|rows|, start, end).1;
            var from := if reverse then 0 else start;
            from + end - start <= |kept| &&
            SortBy(less, kept)[from..from + end - start] == SortBy(less, rows)[start..end]
  {
    hide SortBy, StrictOrderOn, Flip;
    var reverse := PageCollectorWindow(|rows|, start, end).1;
    if reverse {
      SortOfFlippedPrefix(less, rows, |kept|);
    } else {
      SortOfPrefix(less, rows, |kept|);
    }
  }

  lemma FilterElements<T(!new)>(s: seq<T>, p: T -> bool, n: nat)
    requires n < |s|
    ensures Filter(s[..n + 1], p) == Filter(s[..n], p) + (if p(s[n]) then [s[n]] else [])
  {
    assert s[..n + 1][..n] == s[..n];
  }

  lemma {:induction false} FilterPrefix<T(!new)>(s: seq<T>, p: T -> bool, n: nat)
    requires n <= |s|
    ensures Filter(s[..n], p) <= Filter(s, p)
    decreases |s| - n
  {
    if n < |s| {
      FilterElements(s, p, n);
      FilterPrefix(s, p, n + 1);
    } else {
      assert s[..n] == s;
    }
  }

  lemma StrictOrderOfPrefix<T(!new)>(less: (T, T) -> bool, s: seq<T>, t: seq<T>)
    requires StrictOrderOn(less, s) && t <= s
    ensures StrictOrderOn(less, t)
  {
    assert forall x | x in t :: x in s;
    forall i, j | 0 <= i < j < |t| ensures less(t[i], t[j]) || less(t[j], t[i]) {
      assert t[i] == s[i] && t[j] == s[j];
    }
  }

  method CountMatches<T(!new)>(pool: seq<T>, matches: T -> bool) returns (n: nat)
    ensures n == |Filter(pool, matches)|
  {
    n := 0;
    for i := 0 to |pool|
      invariant n == |Filter(pool[..i], matches)|
    {
      FilterElements(pool, matches, i);
      if matches(pool[i]) { n := n + 1; }
    }
    assert pool[..|pool|] == pool;
  }

  method Collect<T(0,!new)>(pool: seq<T>, matches: T -> bool, less: (T, T) -> bool, limit: int)
    returns (collector: BoundedCollector<T>)
    requires StrictOrderOn(less, Filter(pool, matches))
    ensures fresh(collector) && collector.Valid()
    ensures collector.added == Filter(pool, matches) && collector.less == less
    ensures collector.k == (if limit < 1 then 1 else limit)
  {
    collector := new BoundedCollector<T>(limit, less);
    for i := 0 to |pool|
      invariant collector.Valid() && fresh(collector) && fresh(collector.items)
      invariant collector.added == Filter(pool[..i], matches)
    {
      FilterElements(pool, matches, i);
      FilterPrefix(pool, matches, i + 1);
      StrictOrderOfPrefix(less, Filter(pool, matches), Filter(pool[..i + 1], matches));
      if matches(pool[i]) { collector.Add(pool[i]); }
    }
    assert pool[..|pool|] == pool;
  }

  // One window of the sorted rows, from the smaller side.
  method CollectWindow<T(0,!new)>(pool: seq<T>, matches: T -> bool, less: (T, T) -> bool, total: nat, start: nat, end: nat)
    returns (window: seq<T>, retained: nat)
    requires StrictOrderOn(less, Filter(pool, matches))
    requires total == |Filter(pool, matches)| && start <= end <= total
    ensures window == SortBy(less, Filter(pool, matches))[start..end]
    ensures 0 < end && start < total ==> retained <= Min(end, total - start)
  {
    ghost var rows := Filter(pool, matches);
    var (limit, reverse) := PageCollectorWindow(total, start, end);
    var collectorLess := if reverse then Flip(less) else less;
    assert StrictOrderOn(collectorLess, rows) by { FlipOrder(less, rows); }
    var collector := Collect(pool, matches, collectorLess, limit);
    WindowOfCollector(less, rows, start, end, collector.items[..collector.len]);
    var ordered := collector.SortFinal(less);
    var from := if reverse then 0 else start;
    window, retained := ordered[from..from + end - start], collector.len;
  }

  // The Go ints of one page: start, end and the retained side.
  lemma PageWindow(total: nat, current: int, pageSize: int)
    requires 1 <= pageSize <= MAX_NODE_PAGE_SIZE && total < MAX_INT - MAX_NODE_PAGE_SIZE
    requires 1 <= current <= PageCountForTotal(total, pageSize)
    ensures PageWindowLimit(current - 1, pageSize) == (current - 1) * pageSize
    ensures PageWindowLimit(current, pageSize) == current * pageSize
    ensures 0 <= (current - 1) * pageSize <= Min(current * pageSize, total) <= (current - 1) * pageSize + pageSize
    ensures total > 0 ==> (current - 1) * pageSize < total && 0 < current * pageSize
  {
    PageBounds(total, current, pageSize);
    PageWindowExact(current, pageSize);
    if current > 1 { PageWindowExact(current - 1, pageSize); }
    assert current * pageSize == (current - 1) * pageSize + pageSize;
  }

  // Count, then collect.  clamp distinguishes the node page, which falls back
  // to the last page, from /api/v1/proxies, which rejects a page past the end.
  method PageOf<T(0,!new)>(pool: seq<T>, matches: T -> bool, less: (T, T) -> bool, page: int, pageSize: int, clamp: bool)
    returns (r: Page<T>)
    requires 1 <= page && 1 <= pageSize <= MAX_NODE_PAGE_SIZE && |pool| < MAX_INT - MAX_NODE_PAGE_SIZE
    requires StrictOrderOn(less, Filter(pool, matches))
    ensures r.pageCount == PageCountForTotal(|Filter(pool, matches)|, pageSize)
    ensures r.OutOfRange? <==> !clamp && page > r.pageCount
    ensures r.Page? ==>
              && r.filteredTotal == |Filter(pool, matches)|
              && r.page == Min(page, r.pageCount) >= 1
              && r.rows == PageSlice(SortBy(less, Filter(pool, matches)), r.page, pageSize)
    ensures r.Page? && r.filteredTotal > 0 ==>
              && r.retained <= r.page * pageSize
              && r.retained <= r.filteredTotal - (r.page - 1) * pageSize
              && 2 * r.retained <= r.filteredTotal + pageSize
  {
    var filteredTotal := CountMatches(pool, matches);
    var pageCount := PageCountForTotal(filteredTotal, pageSize);
    var current := page;
    if page > pageCount {
      if !clamp { return OutOfRange(pageCount); }
      current := pageCount;
    }
    PositivePageCount(filteredTotal, pageSize);
    PageWindow(filteredTotal, current, pageSize);
    var start := PageWindowLimit(current - 1, pageSize);
    var end := Min(PageWindowLimit(current, pageSize), filteredTotal);
    RetainedBound(filteredTotal, start, end, pageSize);
    var rows, retained := CollectWindow(pool, matches, less, filteredTotal, start, end);
    r := Page(rows, current, pageCount, filteredTotal, retained);
  }

  lemma PositivePageCount(total: nat, pageSize: int)
    requires 1 <= pageSize
    ensures PageCountForTotal(total, pageSize) >= 1
  {
    if total >= 1 && total % pageSize == 0 {
      assert total == (total / pageSize) * pageSize;
      assert total / pageSize != 0;
    }
  }

  // -------------------------------------------------------- the two handlers

  datatype SortKey = ByLatency | BySpeed | ByCountry | ByScore

  datatype NodeLight = NodeLight(index: nat, key: string, country: string, score: real, latencyMs: int, speedKbps: real)

  const UNMEASURED_LATENCY := 0x4000_0000_0000_0000 - 1

  function PresentedLatency(e: NodeLight): int {
    if e.latencyMs > 0 then e.latencyMs else UNMEASURED_LATENCY
  }

  predicate NodePageLightLess(a: NodeLight, b: NodeLight, sortBy: SortKey) {
    match sortBy
    case ByLatency =>
      if PresentedLatency(a) != PresentedLatency(b) then PresentedLatency(a) < PresentedLatency(b)
      else Lexicographic.Less(a.key, b.key)
    case BySpeed =>
      if a.speedKbps != b.speedKbps then a.speedKbps > b.speedKbps else Lexicographic.Less(a.key, b.key)
    case ByCountry =>
      if a.country != b.country then Lexicographic.Less(a.country, b.country) else Lexicographic.Less(a.key, b.key)
    case ByScore =>
      if a.score != b.score then a.score > b.score else Lexicographic.Less(a.key, b.key)
  }

  // As a value: the comparison of the sort.
  function NodeLess(sortBy: SortKey): (NodeLight, NodeLight) -> bool {
    (a: NodeLight, b: NodeLight) => NodePageLightLess(a, b, sortBy)
  }

  // What a reader of the page sees in the row above: nothing slower, measured
  // rows first; nothing with less speed or score; the country that comes first;
  // and of equal rows the one whose key comes first.
  ghost predicate ReadsBefore(a: NodeLight, b: NodeLight, sortBy: SortKey) {
    match sortBy
    case ByLatency =>
      && (0 < b.latencyMs < 0x3FFF_FFFF_FFFF_FFFF ==> 0 < a.latencyMs <= b.latencyMs)
      && (a.latencyMs == b.latencyMs || (a.latencyMs <= 0 && b.latencyMs <= 0) ==> Lexicographic.Less(a.key, b.key))
    case BySpeed => a.speedKbps > b.speedKbps || (a.speedKbps == b.speedKbps && Lexicographic.Less(a.key, b.key))
    case ByCountry =>
      Lexicographic.Less(a.country, b.country) || (a.country == b.country && Lexicographic.Less(a.key, b.key))
    case ByScore => a.score > b.score || (a.score == b.score && Lexicographic.Less(a.key, b.key))
  }

  // The rows of a page, and those of the pages before it.
  lemma SortedReads(rows: seq<NodeLight>, sortBy: SortKey)
    requires forall i, j | 0 <= i < j < |rows| :: rows[i].key != rows[j].key
    ensures var s := SortBy(NodeLess(sortBy), rows);
            forall i, j | 0 <= i < j < |s| :: ReadsBefore(s[i], s[j], sortBy)
  {
    var less := NodeLess(sortBy);
    NodeOrder(rows, sortBy);
    SortAscending(less, rows);
    var s := SortBy(less, rows);
    forall i, j | 0 <= i < j < |s| ensures ReadsBefore(s[i], s[j], sortBy) { assert less(s[i], s[j]); }
  }

  datatype V1Light = V1Light(index: nat, key: string, score: real)

  predicate V1ProxyLightLess(a: V1Light, b: V1Light) {
    if a.key != b.key then Lexicographic.Less(a.key, b.key) else a.index < b.index
  }

  lemma NodeLessTransitive(a: NodeLight, b: NodeLight, c: NodeLight, sortBy: SortKey)
    requires NodePageLightLess(a, b, sortBy) && NodePageLightLess(b, c, sortBy)
    ensures NodePageLightLess(a, c, sortBy)
  {
    if Lexicographic.Less(a.key, b.key) && Lexicographic.Less(b.key, c.key) {
      Lexicographic.Transitive(a.key, b.key, c.key);
    }
    if sortBy == ByCountry && a.country != b.country && b.country != c.country {
      Lexicographic.Transitive(a.country, b.country, c.country);
      Lexicographic.Asymmetric(a.country, c.country);
    }
  }

  // Every sort key of the node page is a strict total order on rows whose keys
  // differ.
  lemma NodeOrder(rows: seq<NodeLight>, sortBy: SortKey)
    requires forall i, j | 0 <= i < j < |rows| :: rows[i].key != rows[j].key
    ensures StrictOrderOn(NodeLess(sortBy), rows)
  {
    var less := NodeLess(sortBy);
    forall x | x in rows ensures !less(x, x) { Lexicographic.Irreflexive(x.key); }
    forall x, y, z | x in rows && y in rows && z in rows && less(x, y) && less(y, z) ensures less(x, z) {
      NodeLessTransitive(x, y, z, sortBy);
    }
    forall i, j | 0 <= i < j < |rows| ensures less(rows[i], rows[j]) || less(rows[j], rows[i]) {
      Lexicographic.Trichotomy(rows[i].key, rows[j].key);
      Lexicographic.Trichotomy(rows[i].country, rows[j].country);
    }
  }

  lemma V1Order(rows: seq<V1Light>)
    requires forall i, j | 0 <= i < j < |rows| :: rows[i].index < rows[j].index
    ensures StrictOrderOn(V1ProxyLightLess, rows)
  {
    forall x | x in rows ensures !V1ProxyLightLess(x, x) { Lexicographic.Irreflexive(x.key); }
    forall x, y, z | x in rows && y in rows && z in rows && V1ProxyLightLess(x, y) && V1ProxyLightLess(y, z)
      ensures V1ProxyLightLess(x, z)
    {
      if x.key != y.key && y.key != z.key {
        Lexicographic.Transitive(x.key, y.key, z.key);
        Lexicographic.Asymmetric(x.key, z.key);
      }
    }
    forall i, j | 0 <= i < j < |rows| ensures V1ProxyLightLess(rows[i], rows[j]) || V1ProxyLightLess(rows[j], rows[i]) {
      Lexicographic.Trichotomy(rows[i].key, rows[j].key);
    }
  }

  lemma {:induction false} FilterKeepsOrder<T(!new)>(s: seq<T>, p: T -> bool, rel: (T, T) -> bool)
    requires forall i, j | 0 <= i < j < |s| :: rel(s[i], s[j])
    ensures forall i, j | 0 <= i < j < |Filter(s, p)| :: rel(Filter(s, p)[i], Filter(s, p)[j])
    ensures forall x | x in Filter(s, p) :: x in s
  {
    if s != [] {
      var init := s[..|s| - 1];
      FilterKeepsOrder(init, p, rel);
      var f := Filter(init, p);
      forall i | 0 <= i < |f| ensures rel(f[i], s[|s| - 1]) {
        assert f[i] in init;
        var j :| 0 <= j < |init| && init[j] == f[i];
        assert s[j] == f[i];
      }
    }
  }

  lemma {:induction false} FilterAre<T(!new)>(s: seq<T>, p: T -> bool)
    ensures forall x :: x in Filter(s, p) <==> x in s && p(x)
  {
    if s != [] {
      FilterAre(s[..|s| - 1], p);
      assert s == s[..|s| - 1] + [s[|s| - 1]];
    }
  }

  lemma SliceKeeps<T(!new)>(s: seq<T>, page: int, pageSize: int, rel: (T, T) -> bool)
    requires 1 <= pageSize && 1 <= page <= PageCountForTotal(|s|, pageSize)
    requires forall i, j | 0 <= i < j < |s| :: rel(s[i], s[j])
    ensures var rows := PageSlice(s, page, pageSize);
            (forall i, j | 0 <= i < j < |rows| :: rel(rows[i], rows[j])) && forall e | e in rows :: e in s
  {
    PageBounds(|s|, page, pageSize);
  }

  lemma SliceReads(f: seq<NodeLight>, sortBy: SortKey, page: int, pageSize: int)
    requires forall i, j | 0 <= i < j < |f| :: f[i].key != f[j].key
    requires 1 <= pageSize && 1 <= page <= PageCountForTotal(|SortBy(NodeLess(sortBy), f)|, pageSize)
    ensures var rows := PageSlice(SortBy(NodeLess(sortBy), f), page, pageSize);
            (forall i, j | 0 <= i < j < |rows| :: ReadsBefore(rows[i], rows[j], sortBy)) && forall e | e in rows :: e in f
  {
    hide PageSlice, PageCountForTotal, ReadsBefore, NodeLess;
    SortedReads(f, sortBy);
    var s, rel := SortBy(NodeLess(sortBy), f), (a, b) => ReadsBefore(a, b, sortBy);
    assert forall i, j | 0 <= i < j < |s| :: rel(s[i], s[j]);
    SliceKeeps(s, page, pageSize, rel);
    var rows := PageSlice(s, page, pageSize);
    forall i, j | 0 <= i < j < |rows| ensures ReadsBefore(rows[i], rows[j], sortBy) { assert rel(rows[i], rows[j]); }
    SortElements(NodeLess(sortBy), f);
    SameElements(s, f);
  }

  // The rows of one node page.
  lemma NodePageReads(pool: seq<NodeLight>, matches: NodeLight -> bool, sortBy: SortKey, page: int, pageSize: int)
    requires forall i, j | 0 <= i < j < |pool| :: pool[i].key != pool[j].key
    requires 1 <= pageSize && 1 <= page <= PageCountForTotal(|SortBy(NodeLess(sortBy), Filter(pool, matches))|, pageSize)
    ensures var rows := PageSlice(SortBy(NodeLess(sortBy), Filter(pool, matches)), page, pageSize);
            && (forall i, j | 0 <= i < j < |rows| :: ReadsBefore(rows[i], rows[j], sortBy))
            && forall e | e in rows :: e in pool && matches(e)
  {
    hide PageSlice, PageCountForTotal, ReadsBefore, NodeLess;
    FilterKeepsOrder(pool, matches, (a: NodeLight, b: NodeLight) => a.key != b.key);
    SliceReads(Filter(pool, matches), sortBy, page, pageSize);
    FilterAre(pool, matches);
  }

  // One dashboard page: keys are unique in the pool, the page is clamped.
  method BuildNodePage(pool: seq<NodeLight>, matches: NodeLight -> bool, sortBy: SortKey, page: int, pageSize: int)
    returns (r: Page<NodeLight>)
    requires 1 <= page && 1 <= pageSize <= MAX_NODE_PAGE_SIZE && |pool| < MAX_INT - MAX_NODE_PAGE_SIZE
    requires forall i, j | 0 <= i < j < |pool| :: pool[i].key != pool[j].key
    ensures r.Page?
    ensures var sorted := SortBy(NodeLess(sortBy), Filter(pool, matches));
            && r.pageCount == PageCountForTotal(|sorted|, pageSize)
            && r.page == Min(page, r.pageCount) >= 1
            && r.rows == PageSlice(sorted, r.page, pageSize)
            && r.filteredTotal == |sorted|
            && (|sorted| > 0 ==> 2 * r.retained <= |sorted| + pageSize)
    ensures forall i, j | 0 <= i < j < |r.rows| :: ReadsBefore(r.rows[i], r.rows[j], sortBy)
    ensures forall e | e in r.rows :: e in pool && matches(e)
  {
    hide NodePageLightLess, ReadsBefore;
    FilterKeepsOrder(pool, matches, (a: NodeLight, b: NodeLight) => a.key != b.key);
    NodeOrder(Filter(pool, matches), sortBy);
    r := PageOf(pool, matches, NodeLess(sortBy), page, pageSize, true);
    NodePageReads(pool, matches, sortBy, r.page, pageSize);
  }

  lemma V1Reads(pool: seq<V1Light>, matches: V1Light -> bool, page: int, pageSize: int)
    requires forall i | 0 <= i < |pool| :: pool[i].index == i
    requires 1 <= pageSize && 1 <= page <= PageCountForTotal(|SortBy(V1ProxyLightLess, Filter(pool, matches))|, pageSize)
    ensures var rows := PageSlice(SortBy(V1ProxyLightLess, Filter(pool, matches)), page, pageSize);
            && (forall i, j | 0 <= i < j < |rows| :: !Lexicographic.Less(rows[j].key, rows[i].key))
            && forall e | e in rows :: e in pool && matches(e)
  {
    hide PageSlice, PageCountForTotal;
    FilterKeepsOrder(pool, matches, (a: V1Light, b: V1Light) => a.index < b.index);
    var f := Filter(pool, matches);
    V1Order(f);
    SortAscending(V1ProxyLightLess, f);
    var s, rel := SortBy(V1ProxyLightLess, f), (a: V1Light, b: V1Light) => !Lexicographic.Less(b.key, a.key);
    forall i, j | 0 <= i < j < |s| ensures rel(s[i], s[j]) {
      assert V1ProxyLightLess(s[i], s[j]);
      Lexicographic.Irreflexive(s[i].key);
      if Lexicographic.Less(s[i].key, s[j].key) { Lexicographic.Asymmetric(s[i].key, s[j].key); }
    }
    SliceKeeps(s, page, pageSize, rel);
    var rows := PageSlice(s, page, pageSize);
    forall i, j | 0 <= i < j < |rows| ensures !Lexicographic.Less(rows[j].key, rows[i].key) { assert rel(rows[i], rows[j]); }
    FilterAre(pool, matches);
    SameElements(s, f);
  }

  // One /api/v1/proxies page: a page past the end is an error.
  method HandleV1Proxies(pool: seq<V1Light>, matches: V1Light -> bool, page: int, pageSize: int) returns (r: Page<V1Light>)
    requires 1 <= page && 1 <= pageSize <= MAX_NODE_PAGE_SIZE && |pool| < MAX_INT - MAX_NODE_PAGE_SIZE
    requires forall i | 0 <= i < |pool| :: pool[i].index == i
    ensures var sorted := SortBy(V1ProxyLightLess, Filter(pool, matches));
            && r.pageCount == PageCountForTotal(|sorted|, pageSize)
            && (r.OutOfRange? <==> page > r.pageCount)
            && (r.Page? ==>
                  && r.rows == PageSlice(sorted, page, pageSize)
                  && r.filteredTotal == |sorted|
                  && (|sorted| > 0 ==> 2 * r.retained <= |sorted| + pageSize))
    ensures r.Page? ==> (forall i, j | 0 <= i < j < |r.rows| :: !Lexicographic.Less(r.rows[j].key, r.rows[i].key))
                        && forall e | e in r.rows :: e in pool && matches(e)
  {
    hide PageSlice;
    FilterKeepsOrder(pool, matches, (a: V1Light, b: V1Light) => a.index < b.index);
    V1Order(Filter(pool, matches));
    r := PageOf(pool, matches, V1ProxyLightLess, page, pageSize, false);
    if r.Page? { V1Reads(pool, matches, page, pageSize); }
  }
}
