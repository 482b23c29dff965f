// The steps a scrape takes over whole snapshots (candidate_catalog.go), each
// proved to compute, in the compact representation, what CatalogMerge and
// CatalogReconcile say on entries.
module CatalogRefresh {
  import opened Proxies
  import opened CatalogModel
  import opened CatalogTables
  import opened CatalogMerge
  import opened Credentials
  import opened CatalogReconcile
  import opened CatalogParts
  import opened CatalogBuilder
  import Lexicographic

  // What the merge loops rely on: a record's sources are present and in order.
  ghost predicate Attributed(e: Entry) {
    e.sources != [] && StrictlySorted(e.sources) && |e.alternates| <= MAX_ALTERNATES
  }

  ghost predicate AllAttributed(es: seq<Entry>) { forall e | e in es :: Attributed(e) }

  ghost predicate Usable(s: Snapshot) {
    Grounded(s) && Sane(s.tables) && AllAttributed(Pending(s))
  }

  // compareCandidateRecords
  function Compare(ta: Tables, a: Record, tb: Tables, b: Record): (c: int)
    requires Fits(ta, a) && Fits(tb, b)
    ensures c < 0 <==> KeyLess(RecordKey(ta, a), RecordKey(tb, b))
    ensures c == 0 ==> RecordKey(ta, a) == RecordKey(tb, b)
    ensures c > 0 <==> KeyLess(RecordKey(tb, b), RecordKey(ta, a))
  {
    var p, q := ta.protocols[a.protocolID], tb.protocols[b.protocolID];
    KeyOrder(RecordKey(ta, a), RecordKey(tb, b), RecordKey(ta, a));
    KeyOrder(RecordKey(tb, b), RecordKey(ta, a), RecordKey(ta, a));
    if Lexicographic.Less(p, q) then -1
    else if Lexicographic.Less(q, p) then Lexicographic.Asymmetric(q, p); 1
    else
      Lexicographic.Trichotomy(p, q);
      if Lexicographic.Less(a.addr, b.addr) then -1
      else if Lexicographic.Less(b.addr, a.addr) then 1
      else Lexicographic.Trichotomy(a.addr, b.addr); 0
  }

  // ------------------------------------------------------- a partial refresh

  // The entries written so far and what is still to merge.
  ghost predicate MergedTo(ps: seq<Entry>, cs: seq<Entry>, failed: set<string>, i: nat, j: nat, done: seq<Entry>) {
    i <= |ps| && j <= |cs| && done + MergeEntries(ps[i..], cs[j..], failed) == MergeEntries(ps, cs, failed)
  }

  lemma MergedOld(ps: seq<Entry>, cs: seq<Entry>, failed: set<string>, i: nat, j: nat, done: seq<Entry>)
    requires MergedTo(ps, cs, failed, i, j, done) && i < |ps| && (j == |cs| || KeyLess(ps[i].key, cs[j].key))
    ensures MergedTo(ps, cs, failed, i + 1, j, done + if HasSourceIn(ps[i], failed) then [Filtered(ps[i], failed)] else [])
  {
    assert ps[i..][1..] == ps[i + 1..];
    var f := if HasSourceIn(ps[i], failed) then [Filtered(ps[i], failed)] else [];
    assert MergeEntries(ps[i..], cs[j..], failed) == f + MergeEntries(ps[i + 1..], cs[j..], failed);
    assert done + (f + MergeEntries(ps[i + 1..], cs[j..], failed)) == (done + f) + MergeEntries(ps[i + 1..], cs[j..], failed);
  }

  lemma MergedNew(ps: seq<Entry>, cs: seq<Entry>, failed: set<string>, i: nat, j: nat, done: seq<Entry>)
    requires MergedTo(ps, cs, failed, i, j, done) && j < |cs|
    requires i == |ps| || (!KeyLess(ps[i].key, cs[j].key) && KeyLess(cs[j].key, ps[i].key))
    ensures MergedTo(ps, cs, failed, i, j + 1, done + [cs[j]])
  {
    assert cs[j..][1..] == cs[j + 1..];
    if i == |ps| {
      assert ps[i..] == [];
      assert cs[j..] == [cs[j]] + cs[j + 1..];
    }
    assert MergeEntries(ps[i..], cs[j..], failed) == [cs[j]] + MergeEntries(ps[i..], cs[j + 1..], failed);
    assert done + ([cs[j]] + MergeEntries(ps[i..], cs[j + 1..], failed)) == (done + [cs[j]]) + MergeEntries(ps[i..], cs[j + 1..], failed);
  }

  lemma MergedBoth(ps: seq<Entry>, cs: seq<Entry>, failed: set<string>, i: nat, j: nat, done: seq<Entry>)
    requires MergedTo(ps, cs, failed, i, j, done) && i < |ps| && j < |cs|
    requires !KeyLess(ps[i].key, cs[j].key) && !KeyLess(cs[j].key, ps[i].key)
    ensures MergedTo(ps, cs, failed, i + 1, j + 1, done + [MergedEntry(ps[i], cs[j], failed)])
  {
    assert ps[i..][1..] == ps[i + 1..] && cs[j..][1..] == cs[j + 1..];
    var m := [MergedEntry(ps[i], cs[j], failed)];
    assert MergeEntries(ps[i..], cs[j..], failed) == m + MergeEntries(ps[i + 1..], cs[j + 1..], failed);
    assert done + (m + MergeEntries(ps[i + 1..], cs[j + 1..], failed)) == (done + m) + MergeEntries(ps[i + 1..], cs[j + 1..], failed);
  }

  // The body of the merge loop.
  method MergeRound(b: Builder, previous: Snapshot, i: nat, current: Snapshot, j: nat, failedSources: set<string>)
    returns (i': nat, j': nat)
    requires b.Valid() && Usable(previous) && Usable(current) && (i < |previous.records| || j < |current.records|)
    requires MergedTo(Pending(previous), Pending(current), failedSources, i, j, b.Entries())
    modifies b
    ensures b.Valid() && b.FailedEntries() == old(b.FailedEntries())
    ensures i <= i' && j <= j' && i + j < i' + j'
    ensures MergedTo(Pending(previous), Pending(current), failedSources, i', j', b.Entries())
    ensures KnownProtocols(previous.tables) && KnownProtocols(current.tables) && KnownProtocols(old(b.tables)) ==> KnownProtocols(b.tables)
  {
    ghost var ps, cs, done := Pending(previous), Pending(current), b.Entries();
    if i >= |previous.records| {
      MergedNew(ps, cs, failedSources, i, j, done);
      assert Attributed(cs[j]);
      b.AppendRecord(current, current.records[j]);
      return i, j + 1;
    }
    if j >= |current.records| {
      MergedOld(ps, cs, failedSources, i, j, done);
      var _ := b.AppendFilteredRecord(previous, previous.records[i], failedSources);
      return i + 1, j;
    }
    var c := Compare(previous.tables, previous.records[i], current.tables, current.records[j]);
    if c < 0 {
      MergedOld(ps, cs, failedSources, i, j, done);
      var _ := b.AppendFilteredRecord(previous, previous.records[i], failedSources);
      return i + 1, j;
    } else if c > 0 {
      MergedNew(ps, cs, failedSources, i, j, done);
      assert Attributed(cs[j]);
      b.AppendRecord(current, current.records[j]);
      return i, j + 1;
    }
    MergedBoth(ps, cs, failedSources, i, j, done);
    assert Attributed(ps[i]) && Attributed(cs[j]);
    b.AppendSeenAgain(previous, previous.records[i], current, current.records[j], failedSources);
    i', j' := i + 1, j + 1;
  }

  lemma {:induction false} MergeFits(ps: seq<Entry>, cs: seq<Entry>, failed: set<string>)
    requires AllAttributed(ps) && AllAttributed(cs)
    ensures forall e | e in MergeEntries(ps, cs, failed) :: |e.alternates| <= MAX_ALTERNATES
    decreases |ps| + |cs|
  {
    if ps != [] {
      assert ps[0] in ps && forall e | e in ps[1..] :: e in ps;
      if cs == [] || KeyLess(ps[0].key, cs[0].key) {
        MergeFits(ps[1..], cs, failed);
      } else {
        assert cs[0] in cs && forall e | e in cs[1..] :: e in cs;
        if KeyLess(cs[0].key, ps[0].key) {
          MergeFits(ps, cs[1..], failed);
        } else {
          MergeFits(ps[1..], cs[1..], failed);
          var m := MergedEntry(ps[0], cs[0], failed);
          AppendNewIs(MAX_ALTERNATES, [], m.credential, cs[0].alternates + [ps[0].credential] + ps[0].alternates);
        }
      }
    }
  }

  // The merged snapshot means exactly the merged entries.
  method MergeCandidateSnapshots(previous: Snapshot, current: Snapshot, failedSources: set<string>) returns (merged: Snapshot)
    requires Usable(previous) && Usable(current)
    ensures Grounded(merged) && Sane(merged.tables)
    ensures Pending(merged) == MergeEntries(Pending(previous), Pending(current), failedSources) && merged.failed == []
    ensures KnownProtocols(previous.tables) && KnownProtocols(current.tables) ==> KnownProtocols(merged.tables)
    ensures merged.meta == current.meta.(completedAt := previous.meta.completedAt)
  {
    ghost var ps, cs := Pending(previous), Pending(current);
    var b := new Builder();
    var i, j := 0, 0;
    assert ps[0..] == ps && cs[0..] == cs;
    while i < |previous.records| || j < |current.records|
      invariant b.Valid() && b.FailedEntries() == []
      invariant MergedTo(ps, cs, failedSources, i, j, b.Entries())
      invariant KnownProtocols(previous.tables) && KnownProtocols(current.tables) ==> KnownProtocols(b.tables)
      decreases |previous.records| + |current.records| - i - j
    {
      i, j := MergeRound(b, previous, i, current, j, failedSources);
    }
    MergeFits(ps, cs, failedSources);
    merged := b.Finish(current.meta.(completedAt := previous.meta.completedAt));
    assert |FailedOf(merged)| == 0;
  }

  // One previous record without a partner: counted iff a failed source owns it.
  method CountOld(a: Snapshot, i: nat, failedSources: set<string>, ghost cs: seq<Entry>, ghost j: nat, ghost done: seq<Entry>)
    returns (n: nat, ghost done': seq<Entry>)
    requires Grounded(a) && i < |a.records|
    requires MergedTo(Pending(a), cs, failedSources, i, j, done)
    requires j == |cs| || KeyLess(Pending(a)[i].key, cs[j].key)
    ensures MergedTo(Pending(a), cs, failedSources, i + 1, j, done') && |done'| == |done| + n
  {
    MergedOld(Pending(a), cs, failedSources, i, j, done);
    var kept := RecordHasSourceIn(a.tables, a.records[i], failedSources);
    n := if kept then 1 else 0;
    done' := done + if kept then [Filtered(Pending(a)[i], failedSources)] else [];
  }

  method CountRest(a: Snapshot, from: nat, failedSources: set<string>, ghost cs: seq<Entry>, ghost j: nat, ghost done: seq<Entry>)
    returns (n: nat, ghost done': seq<Entry>)
    requires Grounded(a) && (from < |a.records| ==> j == |cs|)
    requires MergedTo(Pending(a), cs, failedSources, from, j, done)
    ensures MergedTo(Pending(a), cs, failedSources, |a.records|, j, done') && |done'| == |done| + n
  {
    var i := from;
    n, done' := 0, done;
    while i < |a.records|
      invariant from <= i && MergedTo(Pending(a), cs, failedSources, i, j, done') && |done'| == |done| + n
    {
      var one;
      one, done' := CountOld(a, i, failedSources, cs, j, done');
      i, n := i + 1, n + one;
    }
  }

  method CountRound(a: Snapshot, i: nat, b: Snapshot, j: nat, failedSources: set<string>, ghost done: seq<Entry>)
    returns (i': nat, j': nat, n: nat, ghost done': seq<Entry>)
    requires Grounded(a) && Grounded(b) && i < |a.records| && j < |b.records|
    requires MergedTo(Pending(a), Pending(b), failedSources, i, j, done)
    ensures i <= i' && j <= j' && i + j < i' + j'
    ensures MergedTo(Pending(a), Pending(b), failedSources, i', j', done') && |done'| == |done| + n
  {
    ghost var ps, cs := Pending(a), Pending(b);
    var c := Compare(a.tables, a.records[i], b.tables, b.records[j]);
    if c < 0 {
      n, done' := CountOld(a, i, failedSources, cs, j, done);
      return i + 1, j, n, done';
    } else if c > 0 {
      MergedNew(ps, cs, failedSources, i, j, done);
      return i, j + 1, 1, done + [cs[j]];
    }
    MergedBoth(ps, cs, failedSources, i, j, done);
    i', j', n, done' := i + 1, j + 1, 1, done + [MergedEntry(ps[i], cs[j], failedSources)];
  }

  // candidateMergedSize counts what the merge keeps, without building it.
  method CandidateMergedSize(a: Snapshot, b: Snapshot, failedSources: set<string>) returns (total: nat)
    requires Grounded(a) && Grounded(b)
    ensures total == |MergeEntries(Pending(a), Pending(b), failedSources)|
  {
    ghost var ps, cs := Pending(a), Pending(b);
    ghost var done: seq<Entry> := [];
    var i, j, n := 0, 0, 0;
    total := 0;
    assert ps[0..] == ps && cs[0..] == cs;
    while i < |a.records| && j < |b.records|
      invariant MergedTo(ps, cs, failedSources, i, j, done) && total == |done|
      decreases |a.records| + |b.records| - i - j
    {
      i, j, n, done := CountRound(a, i, b, j, failedSources, done);
      total := total + n;
    }
    n, done := CountRest(a, i, failedSources, cs, j, done);
    assert ps[|ps|..] == [];
    total := total + n + (|b.records| - j);
  }

  // --------------------------------------------------------- a full refresh

  // The record with the outcome it takes over.
  ghost predicate CarriedAt(ps: seq<Entry>, c: Record, protocol: string, key: Key, out: Record) {
    var p := Find(ps, key);
    out == if p.Some? && protocol != "proxyip" then c.(status := p.value.status, checkedUnix := p.value.checkedUnix) else c
  }

  // Everything before i sorts below everything from j on.
  ghost predicate Apart(ps: seq<Entry>, cs: seq<Entry>, i: nat, j: nat) {
    i <= |ps| && j <= |cs| && forall m, n | 0 <= m < i && j <= n < |cs| :: KeyLess(ps[m].key, cs[n].key)
  }

  lemma ApartOld(ps: seq<Entry>, cs: seq<Entry>, i: nat, j: nat)
    requires Apart(ps, cs, i, j) && i < |ps| && j < |cs| && EntriesSorted(cs) && KeyLess(ps[i].key, cs[j].key)
    ensures Apart(ps, cs, i + 1, j)
  {
    forall n | j <= n < |cs| ensures KeyLess(ps[i].key, cs[n].key) {
      if n > j { KeyOrder(ps[i].key, cs[j].key, cs[n].key); }
    }
  }

  lemma ApartBoth(ps: seq<Entry>, cs: seq<Entry>, i: nat, j: nat)
    requires Apart(ps, cs, i, j) && i < |ps| && j < |cs| && EntriesSorted(cs) && ps[i].key == cs[j].key
    ensures Apart(ps, cs, i + 1, j + 1)
  {
  }

  // No previous entry has the key of cs[j] when the walk passes it by.
  lemma NotCarried(ps: seq<Entry>, cs: seq<Entry>, i: nat, j: nat)
    requires Apart(ps, cs, i, j) && j < |cs| && EntriesSorted(ps) && (i == |ps| || KeyLess(cs[j].key, ps[i].key))
    ensures Find(ps, cs[j].key) == None
  {
    FindIs(ps, cs[j].key);
    forall m | 0 <= m < |ps| ensures ps[m].key != cs[j].key {
      if m < i { KeyOrder(ps[m].key, cs[j].key, cs[j].key); }
      else {
        if m > i { KeyOrder(cs[j].key, ps[i].key, ps[m].key); }
        KeyOrder(cs[j].key, ps[m].key, cs[j].key);
      }
    }
  }

  // One round of the carrying walk.
  method CarryRound(previous: Snapshot, i: nat, current: Snapshot, records: array<Record>, j: nat) returns (i': nat, j': nat)
    requires Grounded(previous) && Grounded(current) && i < |previous.records| && j < records.Length
    requires EntriesSorted(Pending(previous)) && EntriesSorted(Pending(current))
    requires Apart(Pending(previous), Pending(current), i, j) && CarriedTo(Pending(previous), current, records[..], j)
    modifies records
    ensures Apart(Pending(previous), Pending(current), i', j') && CarriedTo(Pending(previous), current, records[..], j')
    ensures i <= i' && j <= j' && i + j < i' + j'
  {
    ghost var ps, cs, now := Pending(previous), Pending(current), records[..];
    CarriedRest(ps, current, now, j);
    assert records[j] == now[j];
    var c := Compare(previous.tables, previous.records[i], current.tables, records[j]);
    if c < 0 {
      ApartOld(ps, cs, i, j);
      return i + 1, j;
    } else if c > 0 {
      NotCarried(ps, cs, i, j);
      CarriedNext(ps, current, now, j, now[j]);
      assert now[j := now[j]] == now;
      return i, j + 1;
    }
    FindUnique(ps, ps[i]);
    if current.tables.protocols[records[j].protocolID] != "proxyip" {
      records[j] := records[j].(status := previous.records[i].status, checkedUnix := previous.records[i].checkedUnix);
    }
    assert records[..] == now[j := records[j]];
    CarriedNext(ps, current, now, j, records[j]);
    ApartBoth(ps, cs, i, j);
    i', j' := i + 1, j + 1;
  }

  lemma CarriedNext(ps: seq<Entry>, current: Snapshot, now: seq<Record>, j: nat, r: Record)
    requires Grounded(current) && CarriedTo(ps, current, now, j) && j < |now|
    requires CarriedAt(ps, current.records[j], Pending(current)[j].key.protocol, Pending(current)[j].key, r)
    ensures CarriedTo(ps, current, now[j := r], j + 1)
  {
    var after := now[j := r];
    forall n | 0 <= n < j ensures CarryDone(ps, current, after, n) { assert CarryDone(ps, current, now, n); }
  }

  // carryCandidateHistory: outcomes copied onto the new records in place.
  method CarryCandidateHistory(previous: Snapshot, current: Snapshot, records: array<Record>)
    requires Grounded(previous) && Grounded(current) && records[..] == current.records
    requires EntriesSorted(Pending(previous)) && EntriesSorted(Pending(current))
    modifies records
    ensures var s := current.(records := records[..]);
            Grounded(s) && Pending(s) == Carry(Pending(previous), Pending(current))
  {
    ghost var ps := Pending(previous);
    var i, j := 0, 0;
    while i < |previous.records| && j < records.Length
      invariant Apart(ps, Pending(current), i, j) && CarriedTo(ps, current, records[..], j)
      decreases |previous.records| + records.Length - i - j
    {
      i, j := CarryRound(previous, i, current, records, j);
    }
    CarriedAll(ps, current, records[..], i, j);
    CarriedMeans(ps, current, records[..]);
  }

  // The first j records carry their outcomes, the others are as they were.
  ghost predicate CarriedTo(ps: seq<Entry>, current: Snapshot, now: seq<Record>, j: nat)
    requires Grounded(current)
  {
    && j <= |now| == |current.records|
    && (forall n | 0 <= n < j :: CarryDone(ps, current, now, n))
    && (forall n | j <= n < |now| :: now[n] == current.records[n])
  }

  ghost predicate CarryDone(ps: seq<Entry>, current: Snapshot, now: seq<Record>, n: nat)
    requires Grounded(current) && n < |now| == |current.records|
  {
    CarriedAt(ps, current.records[n], Pending(current)[n].key.protocol, Pending(current)[n].key, now[n])
  }

  lemma CarriedRest(ps: seq<Entry>, current: Snapshot, now: seq<Record>, j: nat)
    requires Grounded(current) && CarriedTo(ps, current, now, j) && j < |now|
    ensures now[j] == current.records[j] && Fits(current.tables, now[j])
  {
  }

  // When the walk ends early the remaining records have nothing to take over.
  lemma CarriedAll(ps: seq<Entry>, current: Snapshot, now: seq<Record>, i: nat, j: nat)
    requires Grounded(current) && CarriedTo(ps, current, now, j) && EntriesSorted(ps) && Apart(ps, Pending(current), i, j)
    requires i == |ps| || j == |now|
    ensures CarriedTo(ps, current, now, |now|)
  {
    forall n | j <= n < |now| ensures CarryDone(ps, current, now, n) {
      assert Apart(ps, Pending(current), i, n);
      NotCarried(ps, Pending(current), i, n);
    }
  }

  lemma CarriedMeans(ps: seq<Entry>, current: Snapshot, now: seq<Record>)
    requires Grounded(current) && CarriedTo(ps, current, now, |now|)
    ensures var s := current.(records := now);
            Grounded(s) && Pending(s) == Carry(ps, Pending(current))
  {
    var s, cs := current.(records := now), Pending(current);
    forall n | 0 <= n < |now|
      ensures Fits(s.tables, now[n]) && AltsFit(s.alternates, now[n])
           && Meaning(s, now[n]) == CarryOne(Find(ps, cs[n].key), cs[n])
    {
      assert CarryDone(ps, current, now, n);
      assert current.records[n] in current.records;
    }
  }

  // ---------------------------------------------------------------- failures

  ghost predicate UsableFailures(s: Snapshot) {
    && Grounded(s) && Sane(s.tables)
    && FailedSorted(FailedOf(s))
    && forall f | f in FailedOf(s) :: Attributed(f.entry)
  }

  // The map of failures not yet written: those whose index is not in order.
  ghost predicate LeftOver(s: Snapshot, left: map<Key, Failure>, order: seq<nat>)
    requires Grounded(s)
  {
    && (forall i | 0 <= i < |s.failed| :: KeyAt(s, i) in left <==> i !in order)
    && (forall i | 0 <= i < |s.failed| && i !in order :: left[KeyAt(s, i)] == s.failed[i])
    && (forall k | k in left :: k in FailedKeys(FailedOf(s)))
  }

  ghost function KeyAt(s: Snapshot, i: nat): Key
    requires Grounded(s) && i < |s.failed|
  {
    FailedOf(s)[i].entry.key
  }

  // The written failures, by the index of the previous failure each stems from.
  ghost predicate Written(fs: seq<FailedEntry>, cs: seq<Entry>, order: seq<nat>, out: seq<FailedEntry>) {
    && |out| == |order|
    && (forall m | 0 <= m < |order| :: order[m] < |fs| && out[m] == ReconcileOne(fs[order[m]], cs))
    && (forall m, n | 0 <= m < n < |order| :: order[m] != order[n])
  }

  lemma WrittenNext(fs: seq<FailedEntry>, cs: seq<Entry>, order: seq<nat>, out: seq<FailedEntry>, i: nat)
    requires Written(fs, cs, order, out) && i < |fs| && i !in order
    ensures Written(fs, cs, order + [i], out + [ReconcileOne(fs[i], cs)])
  {
  }

  // Sorted, the complete list of written failures is the reconciled one.
  lemma WrittenAll(fs: seq<FailedEntry>, cs: seq<Entry>, order: seq<nat>, out: seq<FailedEntry>, sorted: seq<FailedEntry>)
    requires FailedSorted(fs) && EntriesSorted(cs)
    requires Written(fs, cs, order, out) && forall i | 0 <= i < |fs| :: i in order
    requires FailedSorted(sorted) && forall x :: x in sorted <==> x in out
    ensures sorted == ReconciledFailed(fs, cs)
  {
    var r := ReconciledFailed(fs, cs);
    ReconcileKeys(fs, cs);
    forall x ensures x in sorted <==> x in r {
      if x in out {
        var m :| 0 <= m < |out| && out[m] == x;
        assert r[order[m]] == x;
      }
      if x in r {
        var i :| 0 <= i < |r| && r[i] == x;
        assert i in order;
        var m :| 0 <= m < |order| && order[m] == i;
        assert out[m] == x;
      }
    }
    FailedListUnique(sorted, r);
  }

  lemma WrittenDistinct(fs: seq<FailedEntry>, cs: seq<Entry>, order: seq<nat>, out: seq<FailedEntry>)
    requires FailedSorted(fs) && Written(fs, cs, order, out)
    ensures DistinctFailedKeys(out)
  {
    forall m, n | 0 <= m < n < |out| ensures out[m].entry.key != out[n].entry.key {
      var i, j := order[m], order[n];
      ReconcileOneKey(fs[i], cs);
      ReconcileOneKey(fs[j], cs);
      if i < j {
        KeyOrder(fs[i].entry.key, fs[j].entry.key, fs[i].entry.key);
      } else {
        KeyOrder(fs[j].entry.key, fs[i].entry.key, fs[i].entry.key);
      }
    }
  }

  lemma KeysDiffer(s: Snapshot, i: nat, j: nat)
    requires Grounded(s) && FailedSorted(FailedOf(s)) && i < |s.failed| && j < |s.failed| && i != j
    ensures KeyAt(s, i) != KeyAt(s, j)
  {
    if i < j { KeyOrder(KeyAt(s, i), KeyAt(s, j), KeyAt(s, i)); } else { KeyOrder(KeyAt(s, j), KeyAt(s, i), KeyAt(s, i)); }
  }

  method FailureMap(s: Snapshot) returns (left: map<Key, Failure>)
    requires Grounded(s) && FailedSorted(FailedOf(s))
    ensures LeftOver(s, left, [])
  {
    left := map[];
    for i := 0 to |s.failed|
      invariant forall k | k in left :: k in FailedKeys(FailedOf(s))
      invariant forall n | 0 <= n < i :: KeyAt(s, n) in left && left[KeyAt(s, n)] == s.failed[n]
    {
      forall n | 0 <= n < i ensures KeyAt(s, n) != KeyAt(s, i) { KeysDiffer(s, n, i); }
      assert FailedOf(s)[i] in FailedOf(s);
      left := left[RecordKey(s.tables, s.failed[i].record) := s.failed[i]];
    }
  }

  // What is pending so far, and what the walk over the new records still adds.
  ghost predicate PendingTo(fs: seq<FailedEntry>, cs: seq<Entry>, j: nat, done: seq<Entry>) {
    j <= |cs| && done + ReconciledPending(fs, cs[j..]) == ReconciledPending(fs, cs)
  }

  lemma PendingNext(fs: seq<FailedEntry>, cs: seq<Entry>, j: nat, done: seq<Entry>)
    requires PendingTo(fs, cs, j, done) && j < |cs|
    ensures PendingTo(fs, cs, j + 1, done + if FindFailed(fs, cs[j].key) == None then [cs[j]] else [])
  {
    assert cs[j..][1..] == cs[j + 1..];
    var f := if FindFailed(fs, cs[j].key) == None then [cs[j]] else [];
    assert done + (f + ReconciledPending(fs, cs[j + 1..])) == (done + f) + ReconciledPending(fs, cs[j + 1..]);
  }

  // Exactly the failures found among the first j records are written.
  ghost predicate SeenTo(fs: seq<FailedEntry>, cs: seq<Entry>, j: nat, order: seq<nat>) {
    && j <= |cs|
    && forall i | 0 <= i < |fs| :: i in order <==> exists n | 0 <= n < j :: cs[n].key == fs[i].entry.key
  }

  // A record that is no failure is not left over, and adds nothing to see.
  lemma NoFailure(s: Snapshot, cs: seq<Entry>, j: nat, order: seq<nat>)
    requires Grounded(s) && j < |cs| && SeenTo(FailedOf(s), cs, j, order) && cs[j].key !in FailedKeys(FailedOf(s))
    ensures SeenTo(FailedOf(s), cs, j + 1, order)
  {
    var fs := FailedOf(s);
    forall m | 0 <= m < |fs| ensures fs[m].entry.key != cs[j].key { assert fs[m] in fs; }
  }

  // A record that is a failure is seen for the first time: still left over.
  lemma StillLeft(s: Snapshot, cs: seq<Entry>, j: nat, order: seq<nat>) returns (i: nat)
    requires Grounded(s) && EntriesSorted(cs) && j < |cs|
    requires SeenTo(FailedOf(s), cs, j, order) && cs[j].key in FailedKeys(FailedOf(s))
    ensures i < |s.failed| && i !in order && KeyAt(s, i) == cs[j].key
  {
    var fs := FailedOf(s);
    var f :| f in fs && f.entry.key == cs[j].key;
    i :| 0 <= i < |fs| && fs[i] == f;
    forall n | 0 <= n < j ensures cs[n].key != fs[i].entry.key { KeyOrder(cs[n].key, cs[j].key, cs[n].key); }
  }

  lemma SeenNext(s: Snapshot, cs: seq<Entry>, j: nat, order: seq<nat>, i: nat)
    requires Grounded(s) && FailedSorted(FailedOf(s)) && j < |cs| && i < |s.failed|
    requires SeenTo(FailedOf(s), cs, j, order) && KeyAt(s, i) == cs[j].key
    ensures SeenTo(FailedOf(s), cs, j + 1, order + [i])
  {
    var fs := FailedOf(s);
    forall m | 0 <= m < |fs| && m != i ensures fs[m].entry.key != cs[j].key {
      KeysDiffer(s, m, i);
      assert KeyAt(s, m) == fs[m].entry.key;
    }
    assert cs[j].key == fs[i].entry.key;
  }

  lemma LeftNext(s: Snapshot, left: map<Key, Failure>, order: seq<nat>, i: nat)
    requires Grounded(s) && FailedSorted(FailedOf(s)) && LeftOver(s, left, order) && i < |s.failed|
    ensures LeftOver(s, left - {KeyAt(s, i)}, order + [i])
  {
    hide KeyAt, FailedKeys, FailedSorted;
    forall m | 0 <= m < |s.failed| && m != i ensures KeyAt(s, m) != KeyAt(s, i) { KeysDiffer(s, m, i); }
  }

  // Both collections of a reconciliation under way.
  ghost predicate Underway(previous: Snapshot, current: Snapshot, j: nat, left: map<Key, Failure>, order: seq<nat>,
                           pending: seq<Entry>, out: seq<FailedEntry>)
    requires Grounded(previous) && Grounded(current)
  {
    var fs, cs := FailedOf(previous), Pending(current);
    LeftOver(previous, left, order) && SeenTo(fs, cs, j, order) && PendingTo(fs, cs, j, pending) && Written(fs, cs, order, out)
  }

  lemma UnderwayKept(previous: Snapshot, current: Snapshot, j: nat, left: map<Key, Failure>, order: seq<nat>,
                     pending: seq<Entry>, out: seq<FailedEntry>)
    requires UsableFailures(previous) && Grounded(current) && EntriesSorted(Pending(current)) && j < |current.records|
    requires Underway(previous, current, j, left, order, pending, out) && Pending(current)[j].key !in left
    ensures Underway(previous, current, j + 1, left, order, pending + [Pending(current)[j]], out)
  {
    var fs, cs := FailedOf(previous), Pending(current);
    PendingNext(fs, cs, j, pending);
    FindFailedIs(fs, cs[j].key);
    if cs[j].key in FailedKeys(fs) { var i := StillLeft(previous, cs, j, order); }
    NoFailure(previous, cs, j, order);
  }

  lemma UnderwayFailed(previous: Snapshot, current: Snapshot, j: nat, left: map<Key, Failure>, order: seq<nat>,
                       pending: seq<Entry>, out: seq<FailedEntry>) returns (i: nat)
    requires UsableFailures(previous) && Grounded(current) && EntriesSorted(Pending(current)) && j < |current.records|
    requires Underway(previous, current, j, left, order, pending, out) && Pending(current)[j].key in left
    ensures i < |previous.failed| && left[Pending(current)[j].key] == previous.failed[i]
    ensures Underway(previous, current, j + 1, left - {Pending(current)[j].key}, order + [i], pending,
                     out + [Rediscovered(Pending(current)[j], FailedOf(previous)[i])])
  {
    var fs, cs := FailedOf(previous), Pending(current);
    PendingNext(fs, cs, j, pending);
    assert pending + [] == pending;
    FindFailedIs(fs, cs[j].key);
    i := StillLeft(previous, cs, j, order);
    FindUnique(cs, cs[j]);
    WrittenNext(fs, cs, order, out, i);
    SeenNext(previous, cs, j, order, i);
    LeftNext(previous, left, order, i);
  }

  // One record of the new inventory: kept pending, or merged into its failure.
  method ReconcileRound(b: Builder, previous: Snapshot, current: Snapshot, j: nat, left: map<Key, Failure>, ghost order: seq<nat>)
    returns (left': map<Key, Failure>, ghost order': seq<nat>)
    requires b.Valid() && UsableFailures(previous) && Usable(current) && EntriesSorted(Pending(current)) && j < |current.records|
    requires Underway(previous, current, j, left, order, b.Entries(), b.FailedEntries())
    modifies b
    ensures b.Valid() && Underway(previous, current, j + 1, left', order', b.Entries(), b.FailedEntries())
    ensures KnownProtocols(current.tables) && KnownProtocols(old(b.tables)) ==> KnownProtocols(b.tables)
  {
    left', order' := left, order;
    var key := RecordKey(current.tables, current.records[j]);
    assert Attributed(Pending(current)[j]);
    if key !in left {
      UnderwayKept(previous, current, j, left, order, b.Entries(), b.FailedEntries());
      b.AppendRecord(current, current.records[j]);
    } else {
      ghost var i := UnderwayFailed(previous, current, j, left, order, b.Entries(), b.FailedEntries());
      assert Attributed(FailedOf(previous)[i].entry);
      b.AppendRediscovered(current, current.records[j], previous, left[key]);
      left', order' := left - {key}, order + [i];
    }
  }

  method ReconcileInventory(b: Builder, previous: Snapshot, current: Snapshot) returns (left: map<Key, Failure>, ghost order: seq<nat>)
    requires b.Valid() && b.Entries() == [] && b.FailedEntries() == [] && KnownProtocols(b.tables)
    requires UsableFailures(previous) && Usable(current) && EntriesSorted(Pending(current))
    modifies b
    ensures b.Valid() && Underway(previous, current, |current.records|, left, order, b.Entries(), b.FailedEntries())
    ensures KnownProtocols(current.tables) ==> KnownProtocols(b.tables)
  {
    left := FailureMap(previous);
    order := [];
    assert Pending(current)[0..] == Pending(current);
    for j := 0 to |current.records|
      invariant b.Valid() && Underway(previous, current, j, left, order, b.Entries(), b.FailedEntries())
      invariant KnownProtocols(current.tables) ==> KnownProtocols(b.tables)
    {
      left, order := ReconcileRound(b, previous, current, j, left, order);
    }
  }

  // Failures among the first n that were not seen again have been retained.
  ghost predicate RetainedTo(s: Snapshot, cs: seq<Entry>, left: map<Key, Failure>, order: seq<nat>, n: nat,
                             order': seq<nat>, out: seq<FailedEntry>)
    requires Grounded(s)
  {
    && n <= |s.failed| && Written(FailedOf(s), cs, order', out)
    && forall i | 0 <= i < |s.failed| :: i in order' <==> i in order || (i < n && KeyAt(s, i) in left)
  }

  lemma RetainedNext(s: Snapshot, cs: seq<Entry>, left: map<Key, Failure>, order: seq<nat>, n: nat,
                     order': seq<nat>, out: seq<FailedEntry>)
    requires Grounded(s) && LeftOver(s, left, order) && n < |s.failed| && Find(cs, KeyAt(s, n)) == None && KeyAt(s, n) in left
    requires RetainedTo(s, cs, left, order, n, order', out)
    ensures RetainedTo(s, cs, left, order, n + 1, order' + [n], out + [FailedOf(s)[n]])
  {
    WrittenNext(FailedOf(s), cs, order', out, n);
  }

  method RetainRound(b: Builder, previous: Snapshot, ghost cs: seq<Entry>, left: map<Key, Failure>, ghost order: seq<nat>,
                     n: nat, ghost soFar: seq<nat>) returns (ghost order': seq<nat>)
    requires b.Valid() && UsableFailures(previous) && LeftOver(previous, left, order) && n < |previous.failed|
    requires n !in order ==> Find(cs, KeyAt(previous, n)) == None
    requires RetainedTo(previous, cs, left, order, n, soFar, b.FailedEntries())
    modifies b
    ensures b.Valid() && b.Entries() == old(b.Entries())
    ensures RetainedTo(previous, cs, left, order, n + 1, order', b.FailedEntries())
    ensures KnownProtocols(previous.tables) && KnownProtocols(old(b.tables)) ==> KnownProtocols(b.tables)
  {
    var key := RecordKey(previous.tables, previous.failed[n].record);
    order' := soFar;
    if key in left {
      assert Attributed(FailedOf(previous)[n].entry);
      RetainedNext(previous, cs, left, order, n, order', b.FailedEntries());
      b.AppendFailure(previous, previous.failed[n]);
      order' := order' + [n];
    }
  }

  // The failures of the previous snapshot that were not seen again, in order.
  method RetainFailures(b: Builder, previous: Snapshot, ghost cs: seq<Entry>, left: map<Key, Failure>, ghost order: seq<nat>)
    returns (ghost order': seq<nat>)
    requires b.Valid() && UsableFailures(previous) && LeftOver(previous, left, order)
    requires Written(FailedOf(previous), cs, order, b.FailedEntries())
    requires forall i | 0 <= i < |previous.failed| && i !in order :: Find(cs, KeyAt(previous, i)) == None
    modifies b
    ensures b.Valid() && b.Entries() == old(b.Entries())
    ensures RetainedTo(previous, cs, left, order, |previous.failed|, order', b.FailedEntries())
    ensures KnownProtocols(previous.tables) && KnownProtocols(old(b.tables)) ==> KnownProtocols(b.tables)
  {
    order' := order;
    for n := 0 to |previous.failed|
      invariant b.Valid() && b.Entries() == old(b.Entries())
      invariant RetainedTo(previous, cs, left, order, n, order', b.FailedEntries())
      invariant KnownProtocols(previous.tables) && KnownProtocols(old(b.tables)) ==> KnownProtocols(b.tables)
    {
      order' := RetainRound(b, previous, cs, left, order, n, order');
    }
  }

  lemma RetainedAll(s: Snapshot, cs: seq<Entry>, left: map<Key, Failure>, order: seq<nat>, order': seq<nat>, out: seq<FailedEntry>)
    requires Grounded(s) && LeftOver(s, left, order) && RetainedTo(s, cs, left, order, |s.failed|, order', out)
    requires FailedSorted(FailedOf(s))
    ensures Written(FailedOf(s), cs, order', out) && forall i | 0 <= i < |FailedOf(s)| :: i in order'
    ensures DistinctFailedKeys(out)
  {
    WrittenDistinct(FailedOf(s), cs, order', out);
  }

  // Both walks and the sort: the builder holds the reconciled collections.
  method ReconcileInto(b: Builder, previous: Snapshot, current: Snapshot)
    requires b.Valid() && b.Entries() == [] && b.FailedEntries() == [] && KnownProtocols(b.tables)
    requires UsableFailures(previous) && Usable(current) && EntriesSorted(Pending(current))
    modifies b
    ensures b.Valid()
    ensures b.Entries() == ReconciledPending(FailedOf(previous), Pending(current))
    ensures b.FailedEntries() == ReconciledFailed(FailedOf(previous), Pending(current))
    ensures KnownProtocols(previous.tables) && KnownProtocols(current.tables) ==> KnownProtocols(b.tables)
  {
    ghost var cs := Pending(current);
    var left; ghost var order;
    left, order := ReconcileInventory(b, previous, current);
    assert cs[|cs|..] == [];
    UnseenFailures(previous, cs, order);
    ghost var all := RetainFailures(b, previous, cs, left, order);
    RetainedAll(previous, cs, left, order, all, b.FailedEntries());
    ghost var out := b.FailedEntries();
    b.SortFailures();
    WrittenAll(FailedOf(previous), cs, all, out, b.FailedEntries());
  }

  // The reconciled snapshot means exactly the reconciled entries.
  method ReconcileCandidateFailures(previous: Snapshot, current: Snapshot) returns (r: Snapshot)
    requires UsableFailures(previous) && Usable(current) && EntriesSorted(Pending(current)) && current.failed == []
    ensures Grounded(r) && Sane(r.tables)
    ensures Pending(r) == ReconciledPending(FailedOf(previous), Pending(current))
    ensures FailedOf(r) == ReconciledFailed(FailedOf(previous), Pending(current))
    ensures KnownProtocols(previous.tables) && KnownProtocols(current.tables) ==> KnownProtocols(r.tables)
    ensures r.meta == if previous.failed == [] then current.meta else current.meta.(completedAt := previous.meta.completedAt)
  {
    if previous.failed == [] {
      NothingFailed(Pending(current));
      assert FailedOf(current) == ReconciledFailed(FailedOf(previous), Pending(current));
      return current;
    }
    var b := new Builder();
    ReconcileInto(b, previous, current);
    ReconciledFits(FailedOf(previous), Pending(current));
    r := b.Finish(current.meta.(completedAt := previous.meta.completedAt));
  }

  lemma {:induction false} NothingFailed(cs: seq<Entry>)
    ensures ReconciledPending([], cs) == cs
  {
    if cs != [] {
      NothingFailed(cs[1..]);
      assert cs == [cs[0]] + cs[1..];
    }
  }

  lemma UnseenFailures(s: Snapshot, cs: seq<Entry>, order: seq<nat>)
    requires Grounded(s) && SeenTo(FailedOf(s), cs, |cs|, order)
    ensures forall i | 0 <= i < |s.failed| && i !in order :: Find(cs, KeyAt(s, i)) == None
  {
    forall i | 0 <= i < |s.failed| && i !in order ensures Find(cs, KeyAt(s, i)) == None { FindIs(cs, KeyAt(s, i)); }
  }

  lemma ReconciledFits(fs: seq<FailedEntry>, cs: seq<Entry>)
    requires AllAttributed(cs) && forall f | f in fs :: Attributed(f.entry)
    ensures forall e | e in ReconciledPending(fs, cs) :: |e.alternates| <= MAX_ALTERNATES
    ensures forall f | f in ReconciledFailed(fs, cs) :: |f.entry.alternates| <= MAX_ALTERNATES
  {
    ReconciledPendingAre(fs, cs);
    var r := ReconciledFailed(fs, cs);
    forall f | f in r ensures |f.entry.alternates| <= MAX_ALTERNATES {
      var i :| 0 <= i < |r| && r[i] == f;
      assert fs[i] in fs;
      var e := Find(cs, fs[i].entry.key);
      if e.Some? { AppendNewIs(MAX_ALTERNATES, [], e.value.credential, e.value.alternates + [fs[i].entry.credential] + fs[i].entry.alternates); }
    }
  }
}
