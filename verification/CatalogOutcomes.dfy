// What the steps of the catalog do to one key (candidate_catalog.go): where it
// is found afterwards, with which verdict, and that no other key is touched.
module CatalogOutcomes {
  import opened Proxies
  import opened CatalogModel
  import opened CatalogMerge
  import opened CatalogReconcile
  import opened CatalogViews
  import opened Leases
  import opened Sorting

  // Where a key is: its pending entry and its failure.
  datatype Place = Place(pending: Option<Entry>, failed: Option<FailedEntry>)

  function At(v: View, key: Key): Place { Place(Find(v.pending, key), FindFailed(v.failed, key)) }

  // ------------------------------------------------------- lookups by element

  lemma {:induction false} FailedUnique(fs: seq<FailedEntry>, f: FailedEntry)
    requires DistinctFailures(fs) && f in fs
    ensures FindFailed(fs, f.entry.key) == Some(f)
  {
    var i :| 0 <= i < |fs| && fs[i] == f;
    if i > 0 {
      assert fs[0].entry.key != fs[i].entry.key;
      assert fs[1..][i - 1] == f;
      forall j, k | 0 <= j < k < |fs[1..]| ensures fs[1..][j].entry.key != fs[1..][k].entry.key {
        assert fs[j + 1].entry.key != fs[k + 1].entry.key;
      }
      FailedUnique(fs[1..], f);
    }
  }

  lemma SameFailures(a: seq<FailedEntry>, b: seq<FailedEntry>, key: Key)
    requires DistinctFailures(a) && DistinctFailures(b)
    requires forall f: FailedEntry | f.entry.key == key :: f in a <==> f in b
    ensures FindFailed(a, key) == FindFailed(b, key)
  {
    FindFailedIs(a, key);
    FindFailedIs(b, key);
    if FindFailed(a, key).Some? { FailedUnique(b, FindFailed(a, key).value); }
    if FindFailed(b, key).Some? { FailedUnique(a, FindFailed(b, key).value); }
  }

  lemma SameEntries(a: seq<Entry>, b: seq<Entry>, key: Key)
    requires EntriesSorted(a) && EntriesSorted(b)
    requires forall e: Entry | e.key == key :: e in a <==> e in b
    ensures Find(a, key) == Find(b, key)
  {
    FindIs(a, key);
    FindIs(b, key);
    if Find(a, key).Some? { FindUnique(b, Find(a, key).value); }
    if Find(b, key).Some? { FindUnique(a, Find(b, key).value); }
  }

  lemma WithoutByKey(es: seq<Entry>, ks: set<Key>, key: Key)
    requires EntriesSorted(es)
    ensures Find(Without(es, ks), key) == if key in ks then None else Find(es, key)
  {
    WithoutAre(es, ks);
    WithoutSorted(es, ks);
    FindIs(Without(es, ks), key);
    if key !in ks { SameEntries(es, Without(es, ks), key); }
  }

  // ------------------------------------------------------------ one verdict

  // The text kept of an error: its first 512 characters.
  ghost predicate IsShortened(error: string, kept: string) { kept <= error && |kept| == if |error| < 512 then |error| else 512 }

  // What one verdict makes of its key.
  ghost predicate Decided(before: Place, after: Place, d: Verdict, at: int) {
    var unreachable, filtered := d.outcome.kind == OutUnreachable, d.outcome.kind == OutPolicyFiltered;
    var kind := if filtered then PolicyRejected else FailureKind.Unreachable;
    if d.kind == Kind.Candidate && (unreachable || filtered) && before.pending.Some? then
      && after.pending == None && after.failed.Some?
      && after.failed.value.entry == before.pending.value.(checkedUnix := at)
      && after.failed.value.kind == kind && IsShortened(d.outcome.error, after.failed.value.lastError)
    else if d.kind == FailedKind && (unreachable || filtered) && before.failed.Some? then
      && after.pending == before.pending && after.failed.Some?
      && after.failed.value.entry == before.failed.value.entry.(checkedUnix := at)
      && after.failed.value.kind == kind && IsShortened(d.outcome.error, after.failed.value.lastError)
    else if d.kind == FailedKind && d.outcome.kind == Alive then after == before.(failed := None)
    else after == before
  }

  lemma OneVerdictApplied(v: View, d: Verdict, at: int)
    ensures Apply(v, CommitOp([d], at)) == CommitOne(v, d, at)
  {
    assert [d][..0] == [];
    assert CommitAll(v, [], at) == v;
  }

  lemma MovedByKey(v: View, d: Verdict, at: int, key: Key)
    requires ViewOk(v) && d.kind == Kind.Candidate && d.key.protocol != "proxyip"
    ensures if key == d.key then Decided(At(v, key), At(CommitOne(v, d, at), key), d, at) else At(CommitOne(v, d, at), key) == At(v, key)
  {
    var e, w := Find(v.pending, d.key), CommitOne(v, d, at);
    FindIs(v.pending, d.key);
    MoveKeeps(v, d, at);
    if Failing(d.outcome.kind) && e.Some? {
      var f := FailedEntry(e.value.(checkedUnix := at), KindOf(d.outcome.kind), Sanitized(d.outcome.error));
      MovedFailures(v, f, key);
      WithoutByKey(v.pending, {d.key}, key);
    }
  }

  lemma MovedFailures(v: View, f: FailedEntry, key: Key)
    requires ViewOk(v) && f.entry.key !in FailedKeys(v.failed)
    ensures FindFailed(SortBy(FailedLess(), v.failed + [f]), key) == if key == f.entry.key then Some(f) else FindFailed(v.failed, key)
  {
    SortedFailuresDistinct(v.failed);
    JoinDistinctFailures(v.failed, [f]);
    AddedSorted(v.failed + [f]);
    var s := SortBy(FailedLess(), v.failed + [f]);
    SortedFailuresDistinct(s);
    assert forall x :: x in v.failed + [f] <==> x in v.failed || x == f;
    if key == f.entry.key { FailedUnique(s, f); } else { SameFailures(s, v.failed, key); }
  }

  lemma RetriedByKey(v: View, d: Verdict, at: int, key: Key)
    requires ViewOk(v) && d.kind == FailedKind
    ensures if key == d.key then Decided(At(v, key), At(CommitOne(v, d, at), key), d, at) else At(CommitOne(v, d, at), key) == At(v, key)
  {
    SortedFailuresDistinct(v.failed);
    FindFailedIs(v.failed, key);
    if d.outcome.kind == Alive {
      FailuresWithoutAre(v.failed, d.key);
      FailuresWithoutSorted(v.failed, d.key);
      var w := FailuresWithout(v.failed, d.key);
      SortedFailuresDistinct(w);
      FindFailedIs(w, key);
      if key != d.key { SameFailures(v.failed, w, key); }
    } else if Failing(d.outcome.kind) {
      RecheckedByKey(v.failed, d.key, KindOf(d.outcome.kind), Sanitized(d.outcome.error), at, key);
    }
  }

  lemma {:induction false} RecheckedByKey(fs: seq<FailedEntry>, k: Key, kind: FailureKind, error: string, at: int, key: Key)
    ensures var f := FindFailed(fs, key);
            FindFailed(RecheckAll(fs, k, kind, error, at), key)
            == if f == None then None else Some(Rechecked(f.value, k, kind, error, at))
  {
    if fs != [] {
      assert RecheckAll(fs, k, kind, error, at)[1..] == RecheckAll(fs[1..], k, kind, error, at);
      RecheckedByKey(fs[1..], k, kind, error, at, key);
    }
  }

  // One committed verdict: only a candidate that was found unreachable or was
  // filtered moves to the failures; a failure that answered leaves; one checked
  // again in vain keeps its place with the new verdict; nothing else changes.
  lemma OneVerdict(v: View, d: Verdict, at: int, key: Key)
    requires ViewOk(v) && d.key.protocol != "proxyip"
    ensures var w := Apply(v, CommitOp([d], at));
            if key == d.key then Decided(At(v, key), At(w, key), d, at) else At(w, key) == At(v, key)
  {
    hide Decided, CommitOne, ViewOk;
    OneVerdictApplied(v, d, at);
    if d.kind == Kind.Candidate { MovedByKey(v, d, at, key); } else { RetriedByKey(v, d, at, key); }
  }

  // A candidate that answered, or was not checked, changes nothing at all.
  lemma AnsweredStays(v: View, d: Verdict, at: int)
    requires d.kind == Kind.Candidate && (d.outcome.kind == Alive || d.outcome.kind == NoResult)
    ensures Apply(v, CommitOp([d], at)) == v
  {
    OneVerdictApplied(v, d, at);
  }

  // ----------------------------------------------------------- a whole commit

  ghost predicate DistinctVerdicts(ds: seq<Verdict>) { forall i, j | 0 <= i < j < |ds| :: ds[i].key != ds[j].key }

  // A commit of one verdict a key does to every key what its verdict says.
  lemma {:induction false} CommitByKey(v: View, ds: seq<Verdict>, at: int, key: Key)
    requires ViewOk(v) && OpOk(CommitOp(ds, at)) && DistinctVerdicts(ds)
    ensures var w := Apply(v, CommitOp(ds, at));
            && (forall d | d in ds && d.key == key :: Decided(At(v, key), At(w, key), d, at))
            && ((forall d | d in ds :: d.key != key) ==> At(w, key) == At(v, key))
  {
    hide Decided, ViewOk, CommitOne;
    if ds != [] {
      var front, d := ds[..|ds|-1], ds[|ds|-1];
      assert ds == front + [d] && d in ds && forall x | x in front :: x in ds;
      CommitConserves(v, front, at);
      CommitByKey(v, front, at, key);
      var u := CommitAll(v, front, at);
      OneVerdictApplied(u, d, at);
      OneVerdict(u, d, at, key);
      if d.key == key {
        forall x | x in front ensures x.key != key {
          var i :| 0 <= i < |front| && front[i] == x;
          assert ds[i].key != ds[|ds|-1].key;
        }
      }
    }
  }

  // A key enters the failures iff it was pending and its candidate verdict is
  // unreachable or filtered, and leaves them iff its failed verdict is alive.
  lemma FailuresAfter(v: View, ds: seq<Verdict>, at: int, key: Key)
    requires ViewOk(v) && OpOk(CommitOp(ds, at)) && DistinctVerdicts(ds)
    ensures var w := Apply(v, CommitOp(ds, at));
            At(w, key).failed.Some?
            <==> || (At(v, key).pending.Some?
                     && exists d | d in ds :: d.key == key && d.kind == Kind.Candidate
                          && (d.outcome.kind == OutUnreachable || d.outcome.kind == OutPolicyFiltered))
                 || (At(v, key).failed.Some? && !exists d | d in ds :: d.key == key && d.kind == FailedKind && d.outcome.kind == Alive)
  {
    hide ViewOk, Apply;
    CommitByKey(v, ds, at, key);
    if d :| d in ds && d.key == key {
      forall x | x in ds && x.key == key ensures x == d {
        var i :| 0 <= i < |ds| && ds[i] == d;
        var j :| 0 <= j < |ds| && ds[j] == x;
        assert i == j;
      }
    }
  }

  // --------------------------------------------------- completion and removal

  // A completion: what it found out about a pending key makes it a failure.
  lemma CompletionByKey(v: View, kinds: map<Key, FailureKind>, at: int, key: Key)
    requires ViewOk(v) && OpOk(CompleteOp(kinds, at))
    ensures var before, after := At(v, key), At(Apply(v, CompleteOp(kinds, at)), key);
            after == if key in kinds && before.pending.Some?
                     then Place(None, Some(FailedEntry(before.pending.value.(status := Deferred, checkedUnix := at), kinds[key], "")))
                     else before
  {
    if kinds != map[] {
      var m := Moved(v.pending, kinds, at);
      MovedAre(v.pending, kinds, at);
      SortedFailuresDistinct(v.failed);
      JoinDistinctFailures(v.failed, m);
      AddedSorted(v.failed + m);
      var s := SortBy(FailedLess(), v.failed + m);
      SortedFailuresDistinct(s);
      WithoutByKey(v.pending, kinds.Keys, key);
      FindIs(v.pending, key);
      assert forall f :: f in v.failed + m <==> f in v.failed || f in m;
      if key in kinds && Find(v.pending, key).Some? {
        MovedHas(v.pending, kinds, at, Find(v.pending, key).value);
        FailedUnique(s, FailedEntry(Find(v.pending, key).value.(status := Deferred, checkedUnix := at), kinds[key], ""));
      } else {
        assert key !in FailedKeys(m);
        SameFailures(s, v.failed, key);
      }
    }
  }

  lemma {:induction false} MovedHas(es: seq<Entry>, kinds: map<Key, FailureKind>, at: int, e: Entry)
    requires e in es && e.key in kinds
    ensures FailedEntry(e.(status := Deferred, checkedUnix := at), kinds[e.key], "") in Moved(es, kinds, at)
  {
    if e != es[|es|-1] {
      assert es == es[..|es|-1] + [es[|es|-1]];
      MovedHas(es[..|es|-1], kinds, at, e);
    }
  }

  // A removal: the wanted keys are no longer pending, and nothing else changes.
  lemma RemovalByKey(v: View, wanted: set<Key>, key: Key)
    requires ViewOk(v)
    ensures At(Apply(v, RemoveOp(wanted)), key) == if key in wanted then At(v, key).(pending := None) else At(v, key)
  {
    WithoutByKey(v.pending, wanted, key);
  }
}
