// The catalog's steps on whole snapshots (candidate_catalog.go): the lookups,
// complete, one committed outcome, a removal.  Records move between the two
// sorted collections; the tables stay, so every meaning stays.
module CatalogSteps {
  import opened Proxies
  import opened CatalogModel
  import opened CatalogTables
  import opened CatalogMerge
  import opened CatalogReconcile
  import opened CatalogParts
  import opened CatalogBuilder
  import opened CatalogRefresh
  import opened CatalogBegin
  import opened CatalogViews
  import opened Leases
  import opened Sorting

  // A snapshot whose view is in order.
  ghost predicate Sound(s: Snapshot) {
    Grounded(s) && Sane(s.tables) && KnownProtocols(s.tables) && ViewOk(ViewOf(s))
  }

  ghost function ViewOf(s: Snapshot): View
    requires Grounded(s)
  {
    View(Pending(s), FailedOf(s))
  }

  // It meets every structural clause of the validator, and begin may build on it.
  lemma SoundIs(s: Snapshot)
    requires Sound(s)
    ensures Invariant(s) && Refreshable(Some(s))
  {
    InvariantFrom(s);
    InvariantRefreshable(s);
  }

  // -------------------------------------------------------------- denotation

  ghost predicate DenotesOne(s: Snapshot, r: Record, e: Entry)
    requires RefsIn(s.tables)
  {
    Fits(s.tables, r) && AltsFit(s.alternates, r) && Meaning(s, r) == e
  }

  ghost predicate Denotes(s: Snapshot, rs: seq<Record>, es: seq<Entry>)
    requires RefsIn(s.tables)
  {
    |rs| == |es| && forall i | 0 <= i < |rs| :: DenotesOne(s, rs[i], es[i])
  }

  ghost predicate DenotesFailure(s: Snapshot, f: Failure, x: FailedEntry)
    requires RefsIn(s.tables)
  {
    DenotesOne(s, f.record, x.entry) && f.kind == x.kind && f.lastError == x.lastError
  }

  ghost predicate DenotesFailures(s: Snapshot, fs: seq<Failure>, xs: seq<FailedEntry>)
    requires RefsIn(s.tables)
  {
    |fs| == |xs| && forall i | 0 <= i < |fs| :: DenotesFailure(s, fs[i], xs[i])
  }

  lemma SelfDenotes(s: Snapshot)
    requires Grounded(s)
    ensures Denotes(s, s.records, Pending(s)) && DenotesFailures(s, s.failed, FailedOf(s))
  {
  }

  // Exchanging the collections exchanges the view.
  lemma ReplacedView(s: Snapshot, rs: seq<Record>, fs: seq<Failure>, v: View, meta: Meta)
    requires Grounded(s) && Denotes(s, rs, v.pending) && DenotesFailures(s, fs, v.failed)
    ensures var t := s.(records := rs, failed := fs, meta := meta); Grounded(t) && ViewOf(t) == v
  {
    var t := s.(records := rs, failed := fs, meta := meta);
    forall i | 0 <= i < |rs| ensures Meaning(t, rs[i]) == v.pending[i] { assert DenotesOne(s, rs[i], v.pending[i]); }
    forall i | 0 <= i < |fs| ensures Meaning(t, fs[i].record) == v.failed[i].entry { assert DenotesFailure(s, fs[i], v.failed[i]); }
    forall r | r in rs ensures Fits(t.tables, r) && AltsFit(t.alternates, r) {
      var i :| 0 <= i < |rs| && rs[i] == r;
      assert DenotesOne(s, rs[i], v.pending[i]);
    }
    forall f | f in fs ensures Fits(t.tables, f.record) && AltsFit(t.alternates, f.record) {
      var i :| 0 <= i < |fs| && fs[i] == f;
      assert DenotesFailure(s, fs[i], v.failed[i]);
    }
    assert Pending(t) == v.pending;
    assert FailedOf(t) == v.failed;
  }

  // ------------------------------------------------------------------ lookups

  // The place of a key in a strictly ascending list of keys, if it is there.
  ghost predicate PlaceOf(keys: seq<Key>, key: Key, index: int) {
    if index < 0 then key !in keys else index < |keys| && keys[index] == key
  }

  ghost predicate KeysAscend(keys: seq<Key>) { forall i, j | 0 <= i < j < |keys| :: KeyLess(keys[i], keys[j]) }

  ghost function KeysOfPending(s: Snapshot): (ks: seq<Key>)
    requires Grounded(s)
    ensures |ks| == |s.records|
  {
    seq(|s.records|, i requires 0 <= i < |s.records| => Pending(s)[i].key)
  }

  ghost function KeysOfFailed(s: Snapshot): (ks: seq<Key>)
    requires Grounded(s)
    ensures |ks| == |s.failed|
  {
    seq(|s.failed|, i requires 0 <= i < |s.failed| => FailedOf(s)[i].entry.key)
  }

  // All keys before lo are below the key, none from hi on is.
  ghost predicate Bracketed(keys: seq<Key>, key: Key, lo: nat, hi: nat) {
    && lo <= hi <= |keys|
    && (forall i | 0 <= i < lo :: KeyLess(keys[i], key))
    && (forall i | hi <= i < |keys| :: !KeyLess(keys[i], key))
  }

  lemma BracketNarrows(keys: seq<Key>, key: Key, lo: nat, hi: nat, mid: nat)
    requires KeysAscend(keys) && Bracketed(keys, key, lo, hi) && lo <= mid < hi
    ensures KeyLess(keys[mid], key) ==> Bracketed(keys, key, mid + 1, hi)
    ensures !KeyLess(keys[mid], key) ==> Bracketed(keys, key, lo, mid)
  {
    if KeyLess(keys[mid], key) {
      forall i | 0 <= i < mid + 1 ensures KeyLess(keys[i], key) { if i < mid { KeyOrder(keys[i], keys[mid], key); } }
    } else {
      forall i | mid <= i < |keys| ensures !KeyLess(keys[i], key) { if mid < i { KeyOrder(keys[mid], keys[i], key); } }
    }
  }

  lemma BracketClosed(keys: seq<Key>, key: Key, at: nat)
    requires KeysAscend(keys) && Bracketed(keys, key, at, at)
    ensures PlaceOf(keys, key, if at < |keys| && keys[at] == key then at else -1)
  {
    if !(at < |keys| && keys[at] == key) {
      forall i | 0 <= i < |keys| ensures keys[i] != key {
        KeyOrder(key, key, key);
        if at < i { KeyOrder(keys[at], keys[i], key); KeyOrder(keys[at], key, key); }
      }
    }
  }

  // find: binary search for the first record not below the key.
  method FindRecord(s: Snapshot, key: Key) returns (index: int)
    requires Grounded(s) && KeysAscend(KeysOfPending(s))
    ensures PlaceOf(KeysOfPending(s), key, index)
  {
    var lo: nat, hi: nat := 0, |s.records|;
    while lo < hi
      invariant Bracketed(KeysOfPending(s), key, lo, hi)
    {
      var mid := (lo + hi) / 2;
      BracketNarrows(KeysOfPending(s), key, lo, hi, mid);
      if KeyLess(RecordKey(s.tables, s.records[mid]), key) { lo := mid + 1; } else { hi := mid; }
    }
    BracketClosed(KeysOfPending(s), key, lo);
    index := if lo < |s.records| && RecordKey(s.tables, s.records[lo]) == key then lo else -1;
  }

  // findFailed
  method FindFailure(s: Snapshot, key: Key) returns (index: int)
    requires Grounded(s) && KeysAscend(KeysOfFailed(s))
    ensures PlaceOf(KeysOfFailed(s), key, index)
  {
    var lo: nat, hi: nat := 0, |s.failed|;
    while lo < hi
      invariant Bracketed(KeysOfFailed(s), key, lo, hi)
    {
      var mid := (lo + hi) / 2;
      BracketNarrows(KeysOfFailed(s), key, lo, hi, mid);
      if KeyLess(RecordKey(s.tables, s.failed[mid].record), key) { lo := mid + 1; } else { hi := mid; }
    }
    BracketClosed(KeysOfFailed(s), key, lo);
    index := if lo < |s.failed| && RecordKey(s.tables, s.failed[lo].record) == key then lo else -1;
  }

  // What a found place says about the view.
  lemma FoundPending(es: seq<Entry>, keys: seq<Key>, key: Key, index: int)
    requires EntriesSorted(es) && |keys| == |es| && (forall i | 0 <= i < |es| :: keys[i] == es[i].key) && PlaceOf(keys, key, index)
    ensures index < 0 <==> Find(es, key) == None
    ensures index >= 0 ==> Find(es, key) == Some(es[index])
  {
    FindIs(es, key);
    if index >= 0 {
      FindUnique(es, es[index]);
    } else {
      forall e | e in es ensures e.key != key {
        var i :| 0 <= i < |es| && es[i] == e;
        assert keys[i] in keys;
      }
    }
  }

  lemma FoundFailed(fs: seq<FailedEntry>, keys: seq<Key>, key: Key, index: int)
    requires FailedSorted(fs) && |keys| == |fs| && (forall i | 0 <= i < |fs| :: keys[i] == fs[i].entry.key) && PlaceOf(keys, key, index)
    ensures index < 0 <==> FindFailed(fs, key) == None
    ensures index >= 0 ==> FindFailed(fs, key) == Some(fs[index])
  {
    FindFailedIs(fs, key);
    if index >= 0 {
      assert fs[index] in fs && fs[index].entry.key in FailedKeys(fs);
      var f := FindFailed(fs, key).value;
      var i :| 0 <= i < |fs| && fs[i] == f;
      if i < index { KeyOrder(fs[i].entry.key, fs[index].entry.key, key); }
      if index < i { KeyOrder(fs[index].entry.key, fs[i].entry.key, key); }
    } else {
      forall f | f in fs ensures f.entry.key != key {
        var i :| 0 <= i < |fs| && fs[i] == f;
        assert keys[i] in keys;
      }
    }
  }

  lemma KeysOrdered(s: Snapshot)
    requires Grounded(s) && EntriesSorted(Pending(s)) && FailedSorted(FailedOf(s))
    ensures KeysAscend(KeysOfPending(s)) && KeysAscend(KeysOfFailed(s))
  {
  }

  // ------------------------------------------------------ removing one place

  lemma {:induction false} WithoutNone(es: seq<Entry>, ks: set<Key>)
    requires forall e | e in es :: e.key !in ks
    ensures Without(es, ks) == es
  {
    if es != [] {
      assert es == es[..|es|-1] + [es[|es|-1]];
      WithoutNone(es[..|es|-1], ks);
    }
  }

  lemma {:induction false} WithoutAt(es: seq<Entry>, i: nat)
    requires EntriesSorted(es) && i < |es|
    ensures Without(es, {es[i].key}) == es[..i] + es[i + 1..]
  {
    EntriesFront(es);
    var front, last := es[..|es|-1], es[|es|-1];
    if i == |es| - 1 {
      forall e | e in front ensures e.key != last.key { KeyOrder(e.key, last.key, e.key); }
      WithoutNone(front, {last.key});
    } else {
      WithoutAt(front, i);
      assert front[i] in front;
      KeyOrder(front[i].key, last.key, last.key);
      assert front[..i] == es[..i] && front[i + 1..] + [last] == es[i + 1..];
    }
  }

  lemma {:induction false} FailuresWithoutNone(fs: seq<FailedEntry>, key: Key)
    requires forall f | f in fs :: f.entry.key != key
    ensures FailuresWithout(fs, key) == fs
  {
    if fs != [] {
      assert fs == fs[..|fs|-1] + [fs[|fs|-1]];
      FailuresWithoutNone(fs[..|fs|-1], key);
    }
  }

  lemma SplitAround(fs: seq<FailedEntry>, i: nat)
    requires i < |fs| - 1
    ensures var front := fs[..|fs|-1]; (front[..i] + front[i + 1..]) + [fs[|fs|-1]] == fs[..i] + fs[i + 1..]
  {
  }

  lemma {:induction false} FailuresWithoutAt(fs: seq<FailedEntry>, i: nat)
    requires FailedSorted(fs) && i < |fs|
    ensures FailuresWithout(fs, fs[i].entry.key) == fs[..i] + fs[i + 1..]
  {
    var front, last := fs[..|fs|-1], fs[|fs|-1];
    if i == |fs| - 1 {
      forall f | f in front ensures f.entry.key != last.entry.key {
        var m :| 0 <= m < |front| && front[m] == f;
        KeyOrder(fs[m].entry.key, last.entry.key, last.entry.key);
      }
      FailuresWithoutNone(front, last.entry.key);
    } else {
      FailuresWithoutAt(front, i);
      KeyOrder(fs[i].entry.key, last.entry.key, last.entry.key);
      assert FailuresWithout(fs, fs[i].entry.key) == FailuresWithout(front, fs[i].entry.key) + [last];
      SplitAround(fs, i);
    }
  }

  lemma RecheckAt(fs: seq<FailedEntry>, i: nat, kind: FailureKind, error: string, at: int)
    requires FailedSorted(fs) && i < |fs|
    ensures RecheckAll(fs, fs[i].entry.key, kind, error, at)
            == fs[i := FailedEntry(fs[i].entry.(checkedUnix := at), kind, error)]
  {
    SortedFailuresDistinct(fs);
  }

  lemma RecheckNone(fs: seq<FailedEntry>, key: Key, kind: FailureKind, error: string, at: int)
    requires key !in FailedKeys(fs)
    ensures RecheckAll(fs, key, kind, error, at) == fs
  {
    forall i | 0 <= i < |fs| ensures fs[i].entry.key != key { assert fs[i] in fs; }
  }

  // ------------------------------------------------------ sorting failures

  // sort.Slice over the failures, by their records.
  function FailureLess(protocols: seq<string>): (Failure, Failure) -> bool {
    (a: Failure, b: Failure) =>
      a.record.protocolID < |protocols| && b.record.protocolID < |protocols|
      && KeyLess(Key(protocols[a.record.protocolID], a.record.addr), Key(protocols[b.record.protocolID], b.record.addr))
  }

  lemma SameFailureOrder(s: Snapshot, f: Failure, x: FailedEntry, g: Failure, y: FailedEntry)
    requires RefsIn(s.tables) && DenotesFailure(s, f, x) && DenotesFailure(s, g, y)
    ensures FailureLess(s.tables.protocols)(f, g) <==> FailedLess()(x, y)
  {
  }

  lemma {:induction false} InsertDenotes(s: Snapshot, fs: seq<Failure>, xs: seq<FailedEntry>, f: Failure, x: FailedEntry)
    requires RefsIn(s.tables) && DenotesFailures(s, fs, xs) && DenotesFailure(s, f, x)
    ensures DenotesFailures(s, Insert(FailureLess(s.tables.protocols), fs, f), Insert(FailedLess(), xs, x))
  {
    hide DenotesFailure, FailureLess, FailedLess, RefsIn;
    if fs != [] {
      assert DenotesFailure(s, fs[0], xs[0]);
      SameFailureOrder(s, f, x, fs[0], xs[0]);
      if !FailureLess(s.tables.protocols)(f, fs[0]) {
        assert DenotesFailures(s, fs[1..], xs[1..]);
        InsertDenotes(s, fs[1..], xs[1..], f, x);
      }
    }
  }

  lemma {:induction false} SortDenotes(s: Snapshot, fs: seq<Failure>, xs: seq<FailedEntry>)
    requires RefsIn(s.tables) && DenotesFailures(s, fs, xs)
    ensures DenotesFailures(s, SortBy(FailureLess(s.tables.protocols), fs), SortBy(FailedLess(), xs))
  {
    if fs != [] {
      var n := |fs| - 1;
      assert DenotesFailures(s, fs[..n], xs[..n]) && DenotesFailure(s, fs[n], xs[n]);
      SortDenotes(s, fs[..n], xs[..n]);
      InsertDenotes(s, SortBy(FailureLess(s.tables.protocols), fs[..n]), SortBy(FailedLess(), xs[..n]), fs[n], xs[n]);
    }
  }

  // ---------------------------------------------------------------- complete

  // One record of complete's compaction loop.
  lemma CompactNext(s: Snapshot, i: nat, kinds: map<Key, FailureKind>, at: int, rs: seq<Record>, fs: seq<Failure>)
    requires Grounded(s) && i < |s.records|
    requires Denotes(s, rs, Without(Pending(s)[..i], kinds.Keys))
    requires DenotesFailures(s, fs, FailedOf(s) + Moved(Pending(s)[..i], kinds, at))
    ensures var r := s.records[i]; var key := RecordKey(s.tables, r); var es := Pending(s)[..i + 1];
            if key in kinds then
              && Denotes(s, rs, Without(es, kinds.Keys))
              && DenotesFailures(s, fs + [Failure(r.(status := Deferred, checkedUnix := at), kinds[key], "")], FailedOf(s) + Moved(es, kinds, at))
            else
              && Denotes(s, rs + [r], Without(es, kinds.Keys))
              && DenotesFailures(s, fs, FailedOf(s) + Moved(es, kinds, at))
  {
    var es, e := Pending(s)[..i + 1], Pending(s)[i];
    assert es[..|es|-1] == Pending(s)[..i] && es[|es|-1] == e;
    assert s.records[i] in s.records && DenotesOne(s, s.records[i], e);
    if e.key in kinds {
      var f := FailedEntry(e.(status := Deferred, checkedUnix := at), kinds[e.key], "");
      assert FailedOf(s) + Moved(es, kinds, at) == (FailedOf(s) + Moved(Pending(s)[..i], kinds, at)) + [f];
      assert Without(es, kinds.Keys) == Without(Pending(s)[..i], kinds.Keys);
      assert DenotesFailure(s, Failure(s.records[i].(status := Deferred, checkedUnix := at), kinds[e.key], ""), f);
    } else {
      assert Moved(es, kinds, at) == Moved(Pending(s)[..i], kinds, at);
    }
  }

  // complete, once it knows the failure kinds: failed checks move out of the
  // pending records, the failures are sorted again.
  method MoveFailures(s: Snapshot, kinds: map<Key, FailureKind>, at: int) returns (t: Snapshot)
    requires Grounded(s) && kinds != map[]
    ensures Grounded(t) && ViewOf(t) == Apply(ViewOf(s), CompleteOp(kinds, at))
    ensures t.tables == s.tables && t.meta == s.meta
  {
    var pending: seq<Record>, failed := [], s.failed;
    assert Pending(s)[..0] == [];
    assert DenotesFailures(s, failed, FailedOf(s) + []);
    for i := 0 to |s.records|
      invariant Denotes(s, pending, Without(Pending(s)[..i], kinds.Keys))
      invariant DenotesFailures(s, failed, FailedOf(s) + Moved(Pending(s)[..i], kinds, at))
    {
      CompactNext(s, i, kinds, at, pending, failed);
      var r := s.records[i];
      var key := RecordKey(s.tables, r);
      if key !in kinds {
        pending := pending + [r];
      } else {
        failed := failed + [Failure(r.(status := Deferred, checkedUnix := at), kinds[key], "")];
      }
    }
    assert Pending(s)[..|s.records|] == Pending(s);
    SortDenotes(s, failed, FailedOf(s) + Moved(Pending(s), kinds, at));
    failed := SortBy(FailureLess(s.tables.protocols), failed);
    ReplacedView(s, pending, failed, Apply(ViewOf(s), CompleteOp(kinds, at)), s.meta);
    t := s.(records := pending, failed := failed);
  }

  // ----------------------------------------------------- one committed verdict

  ghost predicate Ordered(s: Snapshot) { Grounded(s) && EntriesSorted(Pending(s)) && FailedSorted(FailedOf(s)) }

  // Moving the record at index to the failures is what a failing verdict means.
  lemma CandidateMoved(s: Snapshot, index: nat, failure: Failure, d: Verdict, at: int)
    requires Ordered(s) && index < |s.records| && d.kind == Kind.Candidate && Failing(d.outcome.kind)
    requires Find(Pending(s), d.key) == Some(Pending(s)[index]) && Pending(s)[index].key == d.key
    requires failure == Failure(s.records[index].(checkedUnix := at), KindOf(d.outcome.kind), Sanitized(d.outcome.error))
    ensures var t := s.(records := s.records[..index] + s.records[index + 1..],
                        failed := SortBy(FailureLess(s.tables.protocols), s.failed + [failure]));
            Grounded(t) && ViewOf(t) == CommitOne(ViewOf(s), d, at)
  {
    hide Find, SortBy, FailedLess, FailureLess;
    WithoutAt(Pending(s), index);
    SelfDenotes(s);
    var x := FailedEntry(Pending(s)[index].(checkedUnix := at), failure.kind, failure.lastError);
    assert DenotesOne(s, s.records[index], Pending(s)[index]);
    assert DenotesFailure(s, failure, x);
    SortDenotes(s, s.failed + [failure], FailedOf(s) + [x]);
    RemovedDenotes(s, s.records, Pending(s), index);
    ReplacedView(s, s.records[..index] + s.records[index + 1..], SortBy(FailureLess(s.tables.protocols), s.failed + [failure]),
                 CommitOne(ViewOf(s), d, at), s.meta);
  }

  lemma RemovedDenotes(s: Snapshot, rs: seq<Record>, es: seq<Entry>, index: nat)
    requires RefsIn(s.tables) && Denotes(s, rs, es) && index < |rs|
    ensures Denotes(s, rs[..index] + rs[index + 1..], es[..index] + es[index + 1..])
  {
  }

  lemma RemovedDenotesFailures(s: Snapshot, fs: seq<Failure>, xs: seq<FailedEntry>, index: nat)
    requires RefsIn(s.tables) && DenotesFailures(s, fs, xs) && index < |fs|
    ensures DenotesFailures(s, fs[..index] + fs[index + 1..], xs[..index] + xs[index + 1..])
  {
  }

  // A candidate lease: an unreachable or filtered node moves to the failures.
  method CommitCandidate(s: Snapshot, d: Verdict, at: int) returns (t: Snapshot, changed: bool)
    requires Ordered(s) && d.kind == Kind.Candidate
    ensures Grounded(t) && ViewOf(t) == CommitOne(ViewOf(s), d, at) && t.tables == s.tables && t.meta == s.meta
    ensures !changed ==> t == s
  {
    t, changed := s, false;
    if !Failing(d.outcome.kind) { return; }
    KeysOrdered(s);
    var index := FindRecord(s, d.key);
    FoundPending(Pending(s), KeysOfPending(s), d.key, index);
    if index < 0 { return; }
    var failure := Failure(s.records[index].(checkedUnix := at), KindOf(d.outcome.kind), Sanitized(d.outcome.error));
    CandidateMoved(s, index, failure, d, at);
    var failed := SortBy(FailureLess(s.tables.protocols), s.failed + [failure]);
    t, changed := s.(records := s.records[..index] + s.records[index + 1..], failed := failed), true;
  }

  lemma FailureRevived(s: Snapshot, index: nat, d: Verdict, at: int)
    requires Ordered(s) && index < |s.failed| && d.kind == FailedKind && d.outcome.kind == Alive
    requires FailedOf(s)[index].entry.key == d.key
    ensures var t := s.(failed := s.failed[..index] + s.failed[index + 1..]);
            Grounded(t) && ViewOf(t) == CommitOne(ViewOf(s), d, at)
  {
    FailuresWithoutAt(FailedOf(s), index);
    SelfDenotes(s);
    RemovedDenotesFailures(s, s.failed, FailedOf(s), index);
    ReplacedView(s, s.records, s.failed[..index] + s.failed[index + 1..], CommitOne(ViewOf(s), d, at), s.meta);
  }

  lemma FailureRechecked(s: Snapshot, index: nat, f: Failure, d: Verdict, at: int)
    requires Ordered(s) && index < |s.failed| && d.kind == FailedKind && Failing(d.outcome.kind)
    requires FailedOf(s)[index].entry.key == d.key
    requires f == Failure(s.failed[index].record.(checkedUnix := at), KindOf(d.outcome.kind), Sanitized(d.outcome.error))
    ensures var t := s.(failed := s.failed[index := f]);
            Grounded(t) && ViewOf(t) == CommitOne(ViewOf(s), d, at)
  {
    RecheckAt(FailedOf(s), index, f.kind, f.lastError, at);
    SelfDenotes(s);
    assert DenotesFailure(s, s.failed[index], FailedOf(s)[index]);
    ReplacedView(s, s.records, s.failed[index := f], CommitOne(ViewOf(s), d, at), s.meta);
  }

  lemma FailureGone(s: Snapshot, d: Verdict, at: int)
    requires Grounded(s) && d.kind == FailedKind && d.key !in FailedKeys(FailedOf(s))
    ensures CommitOne(ViewOf(s), d, at) == ViewOf(s)
  {
    var fs := FailedOf(s);
    forall f | f in fs ensures f.entry.key != d.key { assert f.entry.key in FailedKeys(fs); }
    FailuresWithoutNone(fs, d.key);
    RecheckNone(fs, d.key, KindOf(d.outcome.kind), Sanitized(d.outcome.error), at);
  }

  // A failed lease: an answering node leaves, another is marked checked.
  method CommitFailure(s: Snapshot, d: Verdict, at: int) returns (t: Snapshot, changed: bool)
    requires Ordered(s) && d.kind == FailedKind
    ensures Grounded(t) && ViewOf(t) == CommitOne(ViewOf(s), d, at) && t.tables == s.tables && t.meta == s.meta
    ensures !changed ==> t == s
  {
    t, changed := s, false;
    if d.outcome.kind == NoResult { return; }
    KeysOrdered(s);
    var index := FindFailure(s, d.key);
    FoundFailed(FailedOf(s), KeysOfFailed(s), d.key, index);
    FindFailedIs(FailedOf(s), d.key);
    if index < 0 {
      FailureGone(s, d, at);
      return;
    }
    if d.outcome.kind == Alive {
      FailureRevived(s, index, d, at);
      return s.(failed := s.failed[..index] + s.failed[index + 1..]), true;
    }
    var f := Failure(s.failed[index].record.(checkedUnix := at), KindOf(d.outcome.kind), Sanitized(d.outcome.error));
    FailureRechecked(s, index, f, d, at);
    t, changed := s.(failed := s.failed[index := f]), true;
  }

  lemma CommitOneSound(s: Snapshot, t: Snapshot, d: Verdict, at: int)
    requires Sound(s) && Grounded(t) && t.tables == s.tables && ViewOf(t) == CommitOne(ViewOf(s), d, at)
    requires d.key.protocol != "proxyip"
    ensures Sound(t)
  {
    if d.kind == Kind.Candidate { MoveKeeps(ViewOf(s), d, at); } else { RetryKeeps(ViewOf(s), d, at); }
  }

  // The second loop of CommitLeaseOutcomes, over a private copy.
  method CommitVerdicts(s: Snapshot, ds: seq<Verdict>, at: int) returns (t: Snapshot, changed: bool)
    requires Sound(s) && forall d | d in ds :: d.key.protocol != "proxyip"
    ensures Sound(t) && ViewOf(t) == CommitAll(ViewOf(s), ds, at) && t.tables == s.tables && t.meta == s.meta
    ensures !changed ==> t == s
  {
    t, changed := s, false;
    for i := 0 to |ds|
      invariant Sound(t) && ViewOf(t) == CommitAll(ViewOf(s), ds[..i], at) && t.tables == s.tables && t.meta == s.meta
      invariant !changed ==> t == s
    {
      ghost var was := t;
      var one;
      if ds[i].kind == Kind.Candidate {
        t, one := CommitCandidate(t, ds[i], at);
      } else {
        t, one := CommitFailure(t, ds[i], at);
      }
      CommitOneSound(was, t, ds[i], at);
      assert ds[..i + 1][..i] == ds[..i];
      changed := changed || one;
    }
    assert ds[..|ds|] == ds;
  }

  // ----------------------------------------------------------------- removal

  ghost predicate Portable(e: Entry) { e.sources != [] && |e.alternates| <= MAX_ALTERNATES }

  ghost predicate Copyable(s: Snapshot) {
    && Grounded(s) && Sane(s.tables) && KnownProtocols(s.tables)
    && (forall e | e in Pending(s) :: Portable(e))
    && (forall f | f in FailedOf(s) :: Portable(f.entry))
  }

  // What the first i records left in the builder, and which keys were found.
  ghost predicate CopiedTo(s: Snapshot, wanted: set<Key>, i: nat, done: seq<Entry>, found: set<Key>)
    requires Grounded(s) && i <= |s.records|
  {
    done == Without(Pending(s)[..i], wanted) && found == EntryKeys(Pending(s)[..i]) * wanted
  }

  lemma CopiedNext(s: Snapshot, wanted: set<Key>, i: nat, done: seq<Entry>, found: set<Key>)
    requires Grounded(s) && i < |s.records| && CopiedTo(s, wanted, i, done, found)
    ensures var e := Pending(s)[i];
            if e.key in wanted then CopiedTo(s, wanted, i + 1, done, found + {e.key}) else CopiedTo(s, wanted, i + 1, done + [e], found)
  {
    var es := Pending(s);
    WithoutStep(es, wanted, i);
    KeysStep(es, i);
    assert (EntryKeys(es[..i]) + {es[i].key}) * wanted == EntryKeys(es[..i]) * wanted + ({es[i].key} * wanted);
  }

  lemma WithoutStep(es: seq<Entry>, wanted: set<Key>, i: nat)
    requires i < |es|
    ensures Without(es[..i + 1], wanted) == Without(es[..i], wanted) + if es[i].key in wanted then [] else [es[i]]
  {
    assert es[..i + 1][..i] == es[..i];
  }

  lemma KeysStep(es: seq<Entry>, i: nat)
    requires i < |es|
    ensures EntryKeys(es[..i + 1]) == EntryKeys(es[..i]) + {es[i].key}
  {
    assert es[..i + 1] == es[..i] + [es[i]];
    assert forall e :: e in es[..i + 1] <==> e in es[..i] || e == es[i];
  }

  method CopyOne(b: Builder, s: Snapshot, wanted: set<Key>, i: nat, found: set<Key>) returns (found': set<Key>)
    requires b.Valid() && Copyable(s) && KnownProtocols(b.tables) && i < |s.records|
    requires CopiedTo(s, wanted, i, b.Entries(), found)
    modifies b
    ensures b.Valid() && KnownProtocols(b.tables) && b.FailedEntries() == old(b.FailedEntries())
    ensures CopiedTo(s, wanted, i + 1, b.Entries(), found')
  {
    var key := RecordKey(s.tables, s.records[i]);
    CopiedNext(s, wanted, i, b.Entries(), found);
    found' := found;
    if key in wanted {
      found' := found + {key};
    } else {
      assert Portable(Pending(s)[i]);
      b.AppendRecord(s, s.records[i]);
    }
  }

  method CopyWithout(b: Builder, s: Snapshot, wanted: set<Key>) returns (found: set<Key>)
    requires b.Valid() && Copyable(s) && b.Entries() == [] && b.FailedEntries() == [] && KnownProtocols(b.tables)
    modifies b
    ensures b.Valid() && KnownProtocols(b.tables) && b.FailedEntries() == []
    ensures CopiedTo(s, wanted, |s.records|, b.Entries(), found)
  {
    found := {};
    for i := 0 to |s.records|
      invariant b.Valid() && KnownProtocols(b.tables) && b.FailedEntries() == []
      invariant CopiedTo(s, wanted, i, b.Entries(), found)
    {
      found := CopyOne(b, s, wanted, i, found);
    }
  }

  method CopyFailures(b: Builder, s: Snapshot)
    requires b.Valid() && Copyable(s) && b.FailedEntries() == [] && KnownProtocols(b.tables)
    modifies b
    ensures b.Valid() && KnownProtocols(b.tables)
    ensures b.Entries() == old(b.Entries()) && b.FailedEntries() == FailedOf(s)
  {
    for i := 0 to |s.failed|
      invariant b.Valid() && KnownProtocols(b.tables) && b.Entries() == old(b.Entries())
      invariant b.FailedEntries() == FailedOf(s)[..i]
    {
      assert Portable(FailedOf(s)[i].entry);
      assert FailedOf(s)[..i + 1] == FailedOf(s)[..i] + [FailedOf(s)[i]];
      b.AppendFailure(s, s.failed[i]);
    }
    assert FailedOf(s)[..|s.failed|] == FailedOf(s);
  }

  lemma WithoutPortable(es: seq<Entry>, wanted: set<Key>)
    requires forall e | e in es :: Portable(e)
    ensures forall e | e in Without(es, wanted) :: |e.alternates| <= MAX_ALTERNATES
  {
    WithoutAre(es, wanted);
  }

  // RemoveKeys' rebuild: every record but the wanted ones, every failure.
  method RebuildWithout(s: Snapshot, wanted: set<Key>) returns (t: Snapshot, found: set<Key>)
    requires Copyable(s)
    ensures Grounded(t) && Sane(t.tables) && KnownProtocols(t.tables) && t.meta == s.meta
    ensures ViewOf(t) == Apply(ViewOf(s), RemoveOp(wanted))
    ensures found == EntryKeys(Pending(s)) * wanted
  {
    hide Sane, KnownProtocols, Grounded;
    var b := new Builder();
    found := CopyWithout(b, s, wanted);
    assert Pending(s)[..|s.records|] == Pending(s);
    CopyFailures(b, s);
    WithoutPortable(Pending(s), wanted);
    t := b.Finish(s.meta);
  }
}
