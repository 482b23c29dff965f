// Carrying history and durable failures across a scrape, on entries
// (candidate_catalog.go, carryCandidateHistory and reconcileCandidateFailures).
module CatalogReconcile {
  import opened Proxies
  import opened CatalogModel
  import opened CatalogMerge
  import opened Credentials
  import Lexicographic

  // ------------------------------------------------------- a full refresh

  function CarryOne(p: Option<Entry>, c: Entry): Entry {
    if p.Some? && c.key.protocol != "proxyip" then c.(status := p.value.status, checkedUnix := p.value.checkedUnix) else c
  }

  // Every current entry keeps its declaration and takes over the check outcome
  // of the previous entry with its key.
  function Carry(ps: seq<Entry>, cs: seq<Entry>): (r: seq<Entry>)
    ensures |r| == |cs|
  {
    seq(|cs|, j requires 0 <= j < |cs| => CarryOne(Find(ps, cs[j].key), cs[j]))
  }

  // Every key keeps its new declaration; a node seen before also keeps the outcome
  // and time of its last check, and a resource nothing.
  lemma {:induction false} CarryPerKey(ps: seq<Entry>, cs: seq<Entry>, key: Key)
    ensures var p, c, r := Find(ps, key), Find(cs, key), Find(Carry(ps, cs), key);
            && (r.Some? <==> c.Some?)
            && (r.Some? ==>
                  && r.value.(status := c.value.status, checkedUnix := c.value.checkedUnix) == c.value
                  && r.value.status == (if p.Some? && key.protocol != "proxyip" then p.value.status else c.value.status)
                  && r.value.checkedUnix == (if p.Some? && key.protocol != "proxyip" then p.value.checkedUnix else c.value.checkedUnix))
  {
    if cs != [] {
      assert Carry(ps, cs)[1..] == Carry(ps, cs[1..]);
      CarryPerKey(ps, cs[1..], key);
    }
  }

  lemma CarryKeeps(ps: seq<Entry>, cs: seq<Entry>)
    requires (forall e | e in ps :: PendingOk(e)) && (forall e | e in cs :: PendingOk(e)) && EntriesSorted(cs)
    ensures EntriesSorted(Carry(ps, cs)) && forall e | e in Carry(ps, cs) :: PendingOk(e)
    ensures EntryKeys(Carry(ps, cs)) == EntryKeys(cs)
  {
    var r := Carry(ps, cs);
    forall j | 0 <= j < |cs| ensures PendingOk(r[j]) && r[j].key == cs[j].key {
      FindIs(ps, cs[j].key);
      assert cs[j] in cs;
    }
    forall k ensures k in EntryKeys(r) <==> k in EntryKeys(cs) {
      if k in EntryKeys(r) {
        var e :| e in r && e.key == k;
        var j :| 0 <= j < |r| && r[j] == e;
        assert cs[j] in cs;
      }
      if k in EntryKeys(cs) {
        var e :| e in cs && e.key == k;
        var j :| 0 <= j < |cs| && cs[j] == e;
        assert r[j] in r;
      }
    }
  }

  // --------------------------------------------------------------- failures

  function FindFailed(fs: seq<FailedEntry>, key: Key): Option<FailedEntry> {
    if fs == [] then None else if fs[0].entry.key == key then Some(fs[0]) else FindFailed(fs[1..], key)
  }

  lemma {:induction false} FindFailedIs(fs: seq<FailedEntry>, key: Key)
    ensures FindFailed(fs, key).Some? ==> FindFailed(fs, key).value in fs && FindFailed(fs, key).value.entry.key == key
    ensures FindFailed(fs, key) == None <==> key !in FailedKeys(fs)
  {
    if fs != [] {
      FindFailedIs(fs[1..], key);
      assert fs == [fs[0]] + fs[1..];
    }
  }

  // A failure seen again: the current declaration with the failure's outcome,
  // both declarations' sources and credentials.
  function Rediscovered(e: Entry, f: FailedEntry): FailedEntry {
    var alternates := MergeAlternates(e.alternates, e.credential, f.entry.credential, f.entry.alternates);
    FailedEntry(
      e.(checkedUnix := f.entry.checkedUnix,
         hasAuth := e.hasAuth || f.entry.hasAuth || AnyCredentials(alternates),
         alternates := alternates,
         sources := Merge2(e.sources, f.entry.sources)),
      f.kind, f.lastError)
  }

  function ReconcileOne(f: FailedEntry, cs: seq<Entry>): FailedEntry {
    var e := Find(cs, f.entry.key);
    if e.Some? then Rediscovered(e.value, f) else f
  }

  // The failures after a scrape: the same keys in the same order.
  function ReconciledFailed(fs: seq<FailedEntry>, cs: seq<Entry>): (r: seq<FailedEntry>)
    ensures |r| == |fs|
  {
    seq(|fs|, i requires 0 <= i < |fs| => ReconcileOne(fs[i], cs))
  }

  // The pending entries after a scrape: the new inventory without the failures.
  function ReconciledPending(fs: seq<FailedEntry>, cs: seq<Entry>): seq<Entry> {
    if cs == [] then []
    else (if FindFailed(fs, cs[0].key) == None then [cs[0]] else []) + ReconciledPending(fs, cs[1..])
  }

  lemma ReconcileOneKey(f: FailedEntry, cs: seq<Entry>)
    ensures ReconcileOne(f, cs).entry.key == f.entry.key
    ensures ReconcileOne(f, cs).kind == f.kind && ReconcileOne(f, cs).lastError == f.lastError
  {
    FindIs(cs, f.entry.key);
  }

  lemma {:induction false} ReconciledPendingAre(fs: seq<FailedEntry>, cs: seq<Entry>)
    ensures forall e :: e in ReconciledPending(fs, cs) <==> e in cs && e.key !in FailedKeys(fs)
  {
    if cs != [] {
      ReconciledPendingAre(fs, cs[1..]);
      FindFailedIs(fs, cs[0].key);
      assert cs == [cs[0]] + cs[1..];
    }
  }

  lemma {:induction false} ReconciledPendingSorted(fs: seq<FailedEntry>, cs: seq<Entry>)
    requires EntriesSorted(cs)
    ensures EntriesSorted(ReconciledPending(fs, cs))
  {
    if cs != [] {
      TailAbove(cs);
      ReconciledPendingSorted(fs, cs[1..]);
      ReconciledPendingAre(fs, cs[1..]);
      FrontSorted(if FindFailed(fs, cs[0].key) == None then [cs[0]] else [], ReconciledPending(fs, cs[1..]));
    }
  }

  // Failure reconciliation: no failed key is lost or added, the pending keys are
  // the new inventory minus the failed ones, and both orders are kept.
  lemma ReconcileKeys(fs: seq<FailedEntry>, cs: seq<Entry>)
    requires FailedSorted(fs) && EntriesSorted(cs)
    ensures FailedKeys(ReconciledFailed(fs, cs)) == FailedKeys(fs)
    ensures EntryKeys(ReconciledPending(fs, cs)) == EntryKeys(cs) - FailedKeys(fs)
    ensures EntryKeys(ReconciledPending(fs, cs)) !! FailedKeys(ReconciledFailed(fs, cs))
    ensures FailedSorted(ReconciledFailed(fs, cs)) && EntriesSorted(ReconciledPending(fs, cs))
  {
    var r := ReconciledFailed(fs, cs);
    forall i | 0 <= i < |fs| ensures r[i].entry.key == fs[i].entry.key { ReconcileOneKey(fs[i], cs); }
    forall k ensures k in FailedKeys(r) <==> k in FailedKeys(fs) {
      if k in FailedKeys(r) {
        var f :| f in r && f.entry.key == k;
        var i :| 0 <= i < |r| && r[i] == f;
        assert fs[i] in fs;
      }
      if k in FailedKeys(fs) {
        var f :| f in fs && f.entry.key == k;
        var i :| 0 <= i < |fs| && fs[i] == f;
        assert r[i] in r;
      }
    }
    ReconciledPendingAre(fs, cs);
    ReconciledPendingSorted(fs, cs);
    forall k ensures k in EntryKeys(ReconciledPending(fs, cs)) <==> k in EntryKeys(cs) && k !in FailedKeys(fs) {
      if k in EntryKeys(cs) && k !in FailedKeys(fs) {
        var e :| e in cs && e.key == k;
        assert e in ReconciledPending(fs, cs);
      }
    }
  }

  // A rediscovered failure keeps its conclusion, owns the strictly sorted union
  // of both source lists and duplicate-free alternates, at most sixteen.
  lemma RediscoveredIs(e: Entry, f: FailedEntry)
    requires EntryOk(e) && EntryOk(f.entry)
    ensures var r := Rediscovered(e, f);
            && EntryOk(r.entry)
            && r.kind == f.kind && r.lastError == f.lastError && r.entry.checkedUnix == f.entry.checkedUnix
            && (forall k :: k in r.entry.sources <==> k in e.sources || k in f.entry.sources)
            && (forall i, j | 0 <= i < j < |r.entry.alternates| :: r.entry.alternates[i] != r.entry.alternates[j])
            && e.credential !in r.entry.alternates
            && r.entry.status == e.status
  {
    Merge2Elements(e.sources, f.entry.sources);
    Merge2Sorted(e.sources, f.entry.sources);
    assert e.sources[0] in e.sources;
    assert e.sources[0] in Rediscovered(e, f).entry.sources;
    AppendNewIs(MAX_ALTERNATES, [], e.credential, e.alternates + [f.entry.credential] + f.entry.alternates);
  }

  lemma {:induction false} FindReconciled(fs: seq<FailedEntry>, cs: seq<Entry>, key: Key)
    ensures FindFailed(ReconciledFailed(fs, cs), key)
            == match FindFailed(fs, key) case Some(f) => Some(ReconcileOne(f, cs)) case None => None
  {
    if fs != [] {
      ReconcileOneKey(fs[0], cs);
      assert ReconciledFailed(fs, cs)[1..] == ReconciledFailed(fs[1..], cs);
      FindReconciled(fs[1..], cs, key);
    }
  }

  lemma {:induction false} FindStillPending(fs: seq<FailedEntry>, cs: seq<Entry>, key: Key)
    ensures Find(ReconciledPending(fs, cs), key) == if FindFailed(fs, key).Some? then None else Find(cs, key)
  {
    if cs != [] {
      FindStillPending(fs, cs[1..], key);
      FindFront(if FindFailed(fs, cs[0].key) == None then [cs[0]] else [], ReconciledPending(fs, cs[1..]), key);
    }
  }

  // A failure seen again: what was found of it stays, everything else is as newly
  // declared, with the sources and credentials of both.
  ghost predicate ListedAgain(f: FailedEntry, e: Entry, r: FailedEntry) {
    && r.kind == f.kind && r.lastError == f.lastError && r.entry.checkedUnix == f.entry.checkedUnix
    && r.entry.key == e.key && r.entry.credential == e.credential && r.entry.status == e.status && r.entry.seenUnix == e.seenUnix
    && r.entry.country == e.country && r.entry.city == e.city && r.entry.continent == e.continent
    && (forall k :: k in r.entry.sources <==> k in e.sources || k in f.entry.sources)
    && |r.entry.alternates| <= MAX_ALTERNATES && r.entry.credential !in r.entry.alternates
    && CredentialsFor(r.entry) <= CredentialsFor(e) + CredentialsFor(f.entry)
    && (|CredentialsFor(e) + CredentialsFor(f.entry)| <= MAX_ALTERNATES + 1 ==>
          CredentialsFor(r.entry) == CredentialsFor(e) + CredentialsFor(f.entry))
    && (r.entry.hasAuth <==> e.hasAuth || f.entry.hasAuth || AnyCredentials(r.entry.alternates))
  }

  lemma RediscoveredSeen(e: Entry, f: FailedEntry)
    ensures ListedAgain(f, e, Rediscovered(e, f))
  {
    hide MergeAlternates, Merge2;
    Merge2Elements(e.sources, f.entry.sources);
    var r, all := Rediscovered(e, f).entry, CredentialsFor(e) + CredentialsFor(f.entry);
    CredentialsOfBoth(e.alternates, e.credential, f.entry.credential, f.entry.alternates, all);
    assert forall x :: x in CredentialsFor(r) <==> x == r.credential || x in r.alternates;
  }

  // Reconciliation, key by key: a failure that no feed lists stays as it was, one
  // that a feed lists again keeps its verdict and is not pending, and every other
  // key is pending as declared.
  lemma ReconciledByKey(fs: seq<FailedEntry>, cs: seq<Entry>, key: Key)
    ensures var f, e := FindFailed(fs, key), Find(cs, key);
            var failed, pending := FindFailed(ReconciledFailed(fs, cs), key), Find(ReconciledPending(fs, cs), key);
            && (f == None ==> failed == None && pending == e)
            && (f.Some? ==> failed.Some? && pending == None)
            && (f.Some? && e == None ==> failed == f)
            && (f.Some? && e.Some? ==> ListedAgain(f.value, e.value, failed.value))
  {
    hide ListedAgain, Rediscovered;
    FindReconciled(fs, cs, key);
    FindStillPending(fs, cs, key);
    FindFailedIs(fs, key);
    var f, e := FindFailed(fs, key), Find(cs, key);
    if f.Some? && e.Some? { RediscoveredSeen(e.value, f.value); }
  }

  // The validator wants every failure to be deferred.  Reconciliation takes the
  // status from the new declaration, so that holds exactly when every
  // rediscovered declaration is deferred.
  lemma FailedStatusExact(fs: seq<FailedEntry>, cs: seq<Entry>)
    requires EntriesSorted(cs) && FailedSorted(fs) && forall f | f in fs :: f.entry.status == Deferred
    ensures (forall f | f in ReconciledFailed(fs, cs) :: f.entry.status == Deferred)
            <==> (forall e | e in cs && e.key in FailedKeys(fs) :: e.status == Deferred)
  {
    var r := ReconciledFailed(fs, cs);
    if forall f | f in r :: f.entry.status == Deferred {
      forall e | e in cs && e.key in FailedKeys(fs) ensures e.status == Deferred {
        var f :| f in fs && f.entry.key == e.key;
        var i :| 0 <= i < |fs| && fs[i] == f;
        FindUnique(cs, e);
        assert r[i] in r;
      }
    }
    if forall e | e in cs && e.key in FailedKeys(fs) :: e.status == Deferred {
      forall f | f in r ensures f.entry.status == Deferred {
        var i :| 0 <= i < |r| && r[i] == f;
        FindIs(cs, fs[i].entry.key);
        assert fs[i] in fs;
      }
    }
  }

  lemma {:induction false} FindUnique(es: seq<Entry>, e: Entry)
    requires EntriesSorted(es) && e in es
    ensures Find(es, e.key) == Some(e)
  {
    if e != es[0] {
      TailAbove(es);
      assert es == [es[0]] + es[1..];
      KeyOrder(es[0].key, e.key, e.key);
      FindUnique(es[1..], e);
    }
  }

  // The validator alone is too weak a promise about the previous snapshot: it
  // accepts a resource recorded as a failure, and when a feed lists that
  // resource again the reconciled failure is not deferred.
  lemma ValidatorTooWeakForReconcile()
    ensures exists f: FailedEntry, c: Entry ::
              && EntryOk(f.entry) && f.entry.status == Deferred && PendingOk(c) && f.entry.key == c.key
              && ReconciledFailed([f], [c])[0].entry.status != Deferred
  {
    var key := Key("proxyip", "9.9.9.9:443");
    var c := Entry(key, Credential("", ""), "", "", 0, Resource, false, 0, 0, ["feed"], []);
    var f := FailedEntry(c.(status := Deferred), Unreachable, "");
    assert c.sources[0] == "feed";
    assert EntryOk(c) && EntryOk(f.entry);
    assert Find([c], key) == Some(c);
    assert ReconciledFailed([f], [c])[0] == Rediscovered(c, f);
  }

  // With failures that are no resources and never pending, every clause of the
  // validator is met again.
  lemma ReconcileOk(fs: seq<FailedEntry>, cs: seq<Entry>)
    requires FailedSorted(fs) && EntriesSorted(cs)
    requires forall f | f in fs :: EntryOk(f.entry) && f.entry.status == Deferred && f.entry.key.protocol != "proxyip"
    requires forall e | e in cs :: PendingOk(e)
    requires forall e | e in cs && e.key in FailedKeys(fs) :: e.status == Deferred
    ensures forall f | f in ReconciledFailed(fs, cs) :: EntryOk(f.entry) && f.entry.status == Deferred && f.entry.key.protocol != "proxyip"
    ensures forall e | e in ReconciledPending(fs, cs) :: PendingOk(e)
  {
    FailedStatusExact(fs, cs);
    ReconciledPendingAre(fs, cs);
    var r := ReconciledFailed(fs, cs);
    forall f | f in r ensures EntryOk(f.entry) && f.entry.key.protocol != "proxyip" {
      var i :| 0 <= i < |r| && r[i] == f;
      assert fs[i] in fs;
      ReconcileOneKey(fs[i], cs);
      FindIs(cs, fs[i].entry.key);
      if Find(cs, fs[i].entry.key).Some? { RediscoveredIs(Find(cs, fs[i].entry.key).value, fs[i]); }
    }
  }

  // Two strictly sorted failure lists with the same elements are equal.
  lemma {:induction false} FailedListUnique(a: seq<FailedEntry>, b: seq<FailedEntry>)
    requires FailedSorted(a) && FailedSorted(b)
    requires forall f :: f in a <==> f in b
    ensures a == b
  {
    assert |b| > 0 ==> b[0] in b;
    if a != [] {
      assert a[0] in a && b != [];
      assert a[0] in b && b[0] in a;
      FailedFirst(a, b[0]);
      FailedFirst(b, a[0]);
      KeyOrder(a[0].entry.key, b[0].entry.key, a[0].entry.key);
      assert a[0] == b[0];
      FailedTail(a);
      FailedTail(b);
      FailedListUnique(a[1..], b[1..]);
      assert a == [a[0]] + a[1..] && b == [b[0]] + b[1..];
    }
  }

  lemma FailedFirst(a: seq<FailedEntry>, f: FailedEntry)
    requires FailedSorted(a) && f in a
    ensures f == a[0] || KeyLess(a[0].entry.key, f.entry.key)
  {
    var i :| 0 <= i < |a| && a[i] == f;
  }

  lemma FailedTail(a: seq<FailedEntry>)
    requires a != [] && FailedSorted(a)
    ensures FailedSorted(a[1..])
    ensures forall f :: f in a[1..] <==> f in a && f != a[0]
  {
    var t := a[1..];
    assert a == [a[0]] + t;
    forall i, j | 0 <= i < j < |t| ensures KeyLess(t[i].entry.key, t[j].entry.key) { assert t[i] == a[i + 1] && t[j] == a[j + 1]; }
    forall f | f in t ensures f != a[0] {
      var i :| 0 <= i < |t| && t[i] == f;
      KeyOrder(a[0].entry.key, a[i + 1].entry.key, a[0].entry.key);
    }
  }
}
