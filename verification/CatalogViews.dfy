// The catalog as its readers see it, and what each operation does to that view
// (candidate_catalog.go): begin, complete, CommitLeaseOutcomes and RemoveKeys
// as steps, and what holds over every run of them.
module CatalogViews {
  import opened Proxies
  import opened CatalogModel
  import opened CatalogMerge
  import opened CatalogReconcile
  import opened CatalogBegin
  import opened Leases
  import opened Sorting

  datatype View = View(pending: seq<Entry>, failed: seq<FailedEntry>)

  const NO_VIEW := View([], [])

  datatype OutcomeKind = NoResult | Alive | OutUnreachable | OutPolicyFiltered

  // The key an outcome says it is about ("" when it does not say) and its verdict.
  datatype Outcome = Outcome(kind: OutcomeKind, key: Option<Key>, error: string)

  // One committed lease with its outcome.
  datatype Verdict = Verdict(kind: Kind, key: Key, outcome: Outcome)

  datatype Op =
    | BeginOp(current: seq<Entry>, failedSources: set<string>)
    | CompleteOp(kinds: map<Key, FailureKind>, at: int)
    | CommitOp(verdicts: seq<Verdict>, at: int)
    | RemoveOp(wanted: set<Key>)

  // ----------------------------------------------------------------- pieces

  function FailedLess(): (FailedEntry, FailedEntry) -> bool { (a: FailedEntry, b: FailedEntry) => KeyLess(a.entry.key, b.entry.key) }

  function Without(es: seq<Entry>, ks: set<Key>): seq<Entry> {
    if es == [] then [] else Without(es[..|es|-1], ks) + if es[|es|-1].key in ks then [] else [es[|es|-1]]
  }

  // The entries complete moves, with their failure kinds.
  function Moved(es: seq<Entry>, kinds: map<Key, FailureKind>, at: int): seq<FailedEntry> {
    if es == [] then []
    else
      var e := es[|es|-1];
      Moved(es[..|es|-1], kinds, at)
      + if e.key in kinds then [FailedEntry(e.(status := Deferred, checkedUnix := at), kinds[e.key], "")] else []
  }

  function FailuresWithout(fs: seq<FailedEntry>, key: Key): seq<FailedEntry> {
    if fs == [] then [] else FailuresWithout(fs[..|fs|-1], key) + if fs[|fs|-1].entry.key == key then [] else [fs[|fs|-1]]
  }

  // A failure checked again.
  function Rechecked(f: FailedEntry, key: Key, kind: FailureKind, error: string, at: int): FailedEntry {
    if f.entry.key == key then FailedEntry(f.entry.(checkedUnix := at), kind, error) else f
  }

  function RecheckAll(fs: seq<FailedEntry>, key: Key, kind: FailureKind, error: string, at: int): (r: seq<FailedEntry>)
    ensures |r| == |fs|
  {
    seq(|fs|, i requires 0 <= i < |fs| => Rechecked(fs[i], key, kind, error, at))
  }

  function KindOf(o: OutcomeKind): FailureKind { if o == OutPolicyFiltered then PolicyRejected else Unreachable }

  predicate Failing(o: OutcomeKind) { o == OutUnreachable || o == OutPolicyFiltered }

  const MAX_ERROR := 512

  // sanitizeCandidateFailureError, on text whose white space is already folded.
  function Sanitized(error: string): string { if |error| > MAX_ERROR then error[..MAX_ERROR] else error }

  // One iteration of CommitLeaseOutcomes' second loop.
  function CommitOne(v: View, d: Verdict, at: int): View {
    if d.kind == Kind.Candidate then
      var e := Find(v.pending, d.key);
      if Failing(d.outcome.kind) && e.Some? then
        View(Without(v.pending, {d.key}),
             SortBy(FailedLess(), v.failed + [FailedEntry(e.value.(checkedUnix := at), KindOf(d.outcome.kind), Sanitized(d.outcome.error))]))
      else v
    else if d.outcome.kind == Alive then v.(failed := FailuresWithout(v.failed, d.key))
    else if Failing(d.outcome.kind) then v.(failed := RecheckAll(v.failed, d.key, KindOf(d.outcome.kind), Sanitized(d.outcome.error), at))
    else v
  }

  function CommitAll(v: View, ds: seq<Verdict>, at: int): View {
    if ds == [] then v else CommitOne(CommitAll(v, ds[..|ds|-1], at), ds[|ds|-1], at)
  }

  ghost function Apply(v: View, op: Op): View {
    match op
    case BeginOp(cs, failedSources) =>
      var base := Base(v.pending, cs, failedSources);
      View(ReconciledPending(v.failed, base), ReconciledFailed(v.failed, base))
    case CompleteOp(kinds, at) =>
      if kinds == map[] then v
      else View(Without(v.pending, kinds.Keys), SortBy(FailedLess(), v.failed + Moved(v.pending, kinds, at)))
    case CommitOp(ds, at) => CommitAll(v, ds, at)
    case RemoveOp(wanted) => v.(pending := Without(v.pending, wanted))
  }

  ghost function Run(v: View, ops: seq<Op>): View {
    if ops == [] then v else Apply(Run(v, ops[..|ops|-1]), ops[|ops|-1])
  }

  lemma {:induction false} RunJoin(v: View, a: seq<Op>, b: seq<Op>)
    ensures Run(v, a + b) == Run(Run(v, a), b)
  {
    if b == [] {
      assert a + b == a;
    } else {
      RunJoin(v, a, b[..|b|-1]);
      assert (a + b)[..|a + b| - 1] == a + b[..|b|-1];
    }
  }

  // -------------------------------------------------------------- invariant

  // A pending node is deferred until a check decides, a resource stays one.
  ghost predicate Undecided(e: Entry) { e.key.protocol != "proxyip" ==> e.status == Deferred }

  ghost predicate FailureOk(f: FailedEntry) {
    EntryOk(f.entry) && f.entry.status == Deferred && f.entry.key.protocol != "proxyip"
  }

  ghost predicate ViewOk(v: View) {
    && EntriesSorted(v.pending) && FailedSorted(v.failed)
    && EntryKeys(v.pending) !! FailedKeys(v.failed)
    && (forall e | e in v.pending :: PendingOk(e) && Undecided(e))
    && (forall f | f in v.failed :: FailureOk(f))
  }

  // What callers hand to a step: a fresh inventory as begin builds it, and only
  // nodes, never resources, as checked.
  ghost predicate OpOk(op: Op) {
    match op
    case BeginOp(cs, _) => EntriesSorted(cs) && forall e | e in cs :: PendingOk(e) && Undecided(e)
    case CompleteOp(kinds, _) => forall k | k in kinds :: k.protocol != "proxyip"
    case CommitOp(ds, _) => forall d | d in ds :: d.key.protocol != "proxyip"
    case RemoveOp(_) => true
  }

  // --------------------------------------------------------------- without

  lemma {:induction false} WithoutAre(es: seq<Entry>, ks: set<Key>)
    ensures forall e :: e in Without(es, ks) <==> e in es && e.key !in ks
  {
    if es != [] {
      WithoutAre(es[..|es|-1], ks);
      assert es == es[..|es|-1] + [es[|es|-1]];
    }
  }

  lemma EntriesFront(es: seq<Entry>)
    requires es != [] && EntriesSorted(es)
    ensures EntriesSorted(es[..|es|-1])
    ensures forall e | e in es[..|es|-1] :: KeyLess(e.key, es[|es|-1].key)
  {
    var front := es[..|es|-1];
    forall e | e in front ensures KeyLess(e.key, es[|es|-1].key) {
      var i :| 0 <= i < |front| && front[i] == e;
      assert es[i] == e;
    }
  }

  lemma {:induction false} WithoutSorted(es: seq<Entry>, ks: set<Key>)
    requires EntriesSorted(es)
    ensures EntriesSorted(Without(es, ks))
  {
    if es != [] {
      EntriesFront(es);
      WithoutSorted(es[..|es|-1], ks);
      WithoutAre(es[..|es|-1], ks);
      var w := Without(es[..|es|-1], ks);
      forall i | 0 <= i < |w| ensures KeyLess(w[i].key, es[|es|-1].key) { assert w[i] in w; }
    }
  }

  lemma WithoutKeys(es: seq<Entry>, ks: set<Key>)
    ensures EntryKeys(Without(es, ks)) == EntryKeys(es) - ks
  {
    WithoutAre(es, ks);
    forall k | k in EntryKeys(es) && k !in ks ensures k in EntryKeys(Without(es, ks)) {
      var e :| e in es && e.key == k;
      assert e in Without(es, ks);
    }
  }

  // ------------------------------------------------------- failures removed

  lemma {:induction false} FailuresWithoutAre(fs: seq<FailedEntry>, key: Key)
    ensures forall f :: f in FailuresWithout(fs, key) <==> f in fs && f.entry.key != key
  {
    if fs != [] {
      FailuresWithoutAre(fs[..|fs|-1], key);
      assert fs == fs[..|fs|-1] + [fs[|fs|-1]];
    }
  }

  lemma {:induction false} FailuresWithoutSorted(fs: seq<FailedEntry>, key: Key)
    requires FailedSorted(fs)
    ensures FailedSorted(FailuresWithout(fs, key))
  {
    if fs != [] {
      var front, last := fs[..|fs|-1], fs[|fs|-1];
      FailuresWithoutSorted(front, key);
      FailuresWithoutAre(front, key);
      var w := FailuresWithout(front, key);
      forall i | 0 <= i < |w| ensures KeyLess(w[i].entry.key, last.entry.key) {
        assert w[i] in w;
        var m :| 0 <= m < |front| && front[m] == w[i];
        assert fs[m] == w[i];
      }
    }
  }

  lemma FailuresWithoutKeys(fs: seq<FailedEntry>, key: Key)
    ensures FailedKeys(FailuresWithout(fs, key)) == FailedKeys(fs) - {key}
  {
    FailuresWithoutAre(fs, key);
    forall k | k in FailedKeys(fs) && k != key ensures k in FailedKeys(FailuresWithout(fs, key)) {
      var f :| f in fs && f.entry.key == k;
      assert f in FailuresWithout(fs, key);
    }
  }

  // ------------------------------------------------------- failures rechecked

  lemma RecheckKeeps(fs: seq<FailedEntry>, key: Key, kind: FailureKind, error: string, at: int)
    ensures FailedKeys(RecheckAll(fs, key, kind, error, at)) == FailedKeys(fs)
    ensures FailedSorted(fs) ==> FailedSorted(RecheckAll(fs, key, kind, error, at))
    ensures (forall f | f in fs :: FailureOk(f)) ==> forall f | f in RecheckAll(fs, key, kind, error, at) :: FailureOk(f)
  {
    var r := RecheckAll(fs, key, kind, error, at);
    forall k ensures k in FailedKeys(r) <==> k in FailedKeys(fs) {
      if k in FailedKeys(r) {
        var f :| f in r && f.entry.key == k;
        var i :| 0 <= i < |r| && r[i] == f;
        assert fs[i] in fs;
      }
      if k in FailedKeys(fs) {
        var f :| f in fs && f.entry.key == k;
        var i :| 0 <= i < |fs| && fs[i] == f;
        assert r[i] in r;
      }
    }
    if forall f | f in fs :: FailureOk(f) {
      forall f | f in r ensures FailureOk(f) {
        var i :| 0 <= i < |r| && r[i] == f;
        assert FailureOk(fs[i]);
      }
    }
  }

  // ---------------------------------------------------------- failures added

  // Appending failures under new distinct keys and sorting keeps the order and
  // exactly the elements.
  lemma AddedSorted(fs: seq<FailedEntry>)
    requires DistinctFailures(fs)
    ensures FailedSorted(SortBy(FailedLess(), fs))
    ensures forall f :: f in SortBy(FailedLess(), fs) <==> f in fs
  {
    var less := FailedLess();
    forall x: FailedEntry, y: FailedEntry, z: FailedEntry ensures !less(x, x) && (less(x, y) && less(y, z) ==> less(x, z)) {
      KeyOrder(x.entry.key, y.entry.key, z.entry.key);
    }
    forall i, j | 0 <= i < j < |fs| ensures less(fs[i], fs[j]) || less(fs[j], fs[i]) {
      KeyOrder(fs[i].entry.key, fs[j].entry.key, fs[i].entry.key);
    }
    SortAscending(less, fs);
    var s := SortBy(less, fs);
    SameElements(s, fs);
    forall i, j | 0 <= i < j < |s| ensures KeyLess(s[i].entry.key, s[j].entry.key) { assert less(s[i], s[j]); }
  }

  ghost predicate DistinctFailures(fs: seq<FailedEntry>) { forall i, j | 0 <= i < j < |fs| :: fs[i].entry.key != fs[j].entry.key }

  lemma SortedFailuresDistinct(fs: seq<FailedEntry>)
    requires FailedSorted(fs)
    ensures DistinctFailures(fs)
  {
    forall i, j | 0 <= i < j < |fs| ensures fs[i].entry.key != fs[j].entry.key {
      KeyOrder(fs[i].entry.key, fs[j].entry.key, fs[i].entry.key);
    }
  }

  lemma JoinDistinctFailures(a: seq<FailedEntry>, b: seq<FailedEntry>)
    requires DistinctFailures(a) && DistinctFailures(b) && FailedKeys(a) !! FailedKeys(b)
    ensures DistinctFailures(a + b) && FailedKeys(a + b) == FailedKeys(a) + FailedKeys(b)
  {
    var c := a + b;
    forall i, j | 0 <= i < j < |c| ensures c[i].entry.key != c[j].entry.key {
      if i < |a| && |a| <= j { assert c[i] in a && c[j] in b && c[i].entry.key in FailedKeys(a) && c[j].entry.key in FailedKeys(b); }
    }
    assert forall f :: f in c <==> f in a || f in b;
  }

  lemma {:induction false} MovedAre(es: seq<Entry>, kinds: map<Key, FailureKind>, at: int)
    requires EntriesSorted(es)
    ensures DistinctFailures(Moved(es, kinds, at))
    ensures FailedKeys(Moved(es, kinds, at)) == EntryKeys(es) * kinds.Keys
  {
    if es != [] {
      var front, last := es[..|es|-1], es[|es|-1];
      EntriesFront(es);
      MovedAre(front, kinds, at);
      assert es == front + [last];
      var m := Moved(front, kinds, at);
      forall i | 0 <= i < |m| ensures m[i].entry.key != last.key {
        assert m[i].entry.key in FailedKeys(m);
        var e :| e in front && e.key == m[i].entry.key;
        KeyOrder(e.key, last.key, e.key);
      }
      assert EntryKeys(es) == EntryKeys(front) + {last.key};
      if last.key in kinds {
        var f := FailedEntry(last.(status := Deferred, checkedUnix := at), kinds[last.key], "");
        assert FailedKeys(m + [f]) == FailedKeys(m) + {last.key} by { assert forall x :: x in m + [f] <==> x in m || x == f; }
        assert EntryKeys(es) * kinds.Keys == EntryKeys(front) * kinds.Keys + {last.key};
      } else {
        assert m + [] == m;
        assert EntryKeys(es) * kinds.Keys == EntryKeys(front) * kinds.Keys;
      }
    }
  }

  lemma {:induction false} MovedOk(es: seq<Entry>, kinds: map<Key, FailureKind>, at: int)
    requires (forall e | e in es :: PendingOk(e)) && forall k | k in kinds :: k.protocol != "proxyip"
    ensures forall f | f in Moved(es, kinds, at) :: FailureOk(f)
  {
    if es != [] {
      assert es[|es|-1] in es && forall e | e in es[..|es|-1] :: e in es;
      MovedOk(es[..|es|-1], kinds, at);
    }
  }

  // ------------------------------------------------------------- the steps

  lemma BeginKeeps(v: View, cs: seq<Entry>, failedSources: set<string>)
    requires ViewOk(v) && OpOk(BeginOp(cs, failedSources))
    ensures ViewOk(Apply(v, BeginOp(cs, failedSources)))
    ensures FailedKeys(Apply(v, BeginOp(cs, failedSources)).failed) == FailedKeys(v.failed)
  {
    var base := Base(v.pending, cs, failedSources);
    BaseOk(v.pending, cs, failedSources);
    BaseDefersFailures(v.pending, cs, v.failed, failedSources);
    BaseUndecided(v.pending, cs, failedSources);
    ReconcileKeys(v.failed, base);
    ReconcileOk(v.failed, base);
    ReconciledPendingAre(v.failed, base);
  }

  lemma BaseUndecided(ps: seq<Entry>, cs: seq<Entry>, failedSources: set<string>)
    requires EntriesSorted(ps) && EntriesSorted(cs)
    requires (forall e | e in ps :: Undecided(e)) && (forall e | e in cs :: Undecided(e))
    ensures forall e | e in Base(ps, cs, failedSources) :: Undecided(e)
  {
    var base := Base(ps, cs, failedSources);
    forall e | e in base ensures Undecided(e) {
      if failedSources == {} {
        var j :| 0 <= j < |base| && base[j] == e;
        FindIs(ps, cs[j].key);
        assert cs[j] in cs;
      } else {
        MergeSorted(ps, cs, failedSources);
        FindUnique(base, e);
        MergeIsMap(ps, cs, failedSources, e.key);
        FindIs(cs, e.key);
        FindIs(ps, e.key);
      }
    }
  }

  lemma CompleteKeeps(v: View, kinds: map<Key, FailureKind>, at: int)
    requires ViewOk(v) && OpOk(CompleteOp(kinds, at))
    ensures var w := Apply(v, CompleteOp(kinds, at));
            && ViewOk(w)
            && FailedKeys(w.failed) == FailedKeys(v.failed) + EntryKeys(v.pending) * kinds.Keys
            && EntryKeys(w.pending) == EntryKeys(v.pending) - kinds.Keys
  {
    var m := Moved(v.pending, kinds, at);
    MovedAre(v.pending, kinds, at);
    MovedOk(v.pending, kinds, at);
    SortedFailuresDistinct(v.failed);
    JoinDistinctFailures(v.failed, m);
    AddedSorted(v.failed + m);
    WithoutAre(v.pending, kinds.Keys);
    WithoutSorted(v.pending, kinds.Keys);
    WithoutKeys(v.pending, kinds.Keys);
    assert forall f :: f in v.failed + m <==> f in v.failed || f in m;
    if kinds != map[] { SameFailedKeys(SortBy(FailedLess(), v.failed + m), v.failed + m); }
  }

  lemma SameFailedKeys(a: seq<FailedEntry>, b: seq<FailedEntry>)
    requires forall f :: f in a <==> f in b
    ensures FailedKeys(a) == FailedKeys(b)
  {
  }

  // A candidate that failed its check moves; its key stays in the catalog.
  lemma MoveKeeps(v: View, d: Verdict, at: int)
    requires ViewOk(v) && d.kind == Kind.Candidate && d.key.protocol != "proxyip"
    ensures var w := CommitOne(v, d, at);
            && ViewOk(w)
            && EntryKeys(w.pending) + FailedKeys(w.failed) == EntryKeys(v.pending) + FailedKeys(v.failed)
            && FailedKeys(v.failed) <= FailedKeys(w.failed)
  {
    FindIs(v.pending, d.key);
    var e := Find(v.pending, d.key);
    if Failing(d.outcome.kind) && e.Some? {
      var f := FailedEntry(e.value.(checkedUnix := at), KindOf(d.outcome.kind), Sanitized(d.outcome.error));
      assert FailedKeys([f]) == {d.key};
      assert d.key in EntryKeys(v.pending);
      SortedFailuresDistinct(v.failed);
      JoinDistinctFailures(v.failed, [f]);
      AddedSorted(v.failed + [f]);
      WithoutAre(v.pending, {d.key});
      WithoutSorted(v.pending, {d.key});
      WithoutKeys(v.pending, {d.key});
      assert forall x :: x in v.failed + [f] <==> x in v.failed || x == f;
      SameFailedKeys(SortBy(FailedLess(), v.failed + [f]), v.failed + [f]);
      assert FailureOk(f);
    }
  }

  // A failure checked again leaves the catalog iff it answered.
  lemma RetryKeeps(v: View, d: Verdict, at: int)
    requires ViewOk(v) && d.kind == FailedKind
    ensures var w := CommitOne(v, d, at);
            && ViewOk(w) && w.pending == v.pending
            && FailedKeys(w.failed) == if d.outcome.kind == Alive then FailedKeys(v.failed) - {d.key} else FailedKeys(v.failed)
  {
    if d.outcome.kind == Alive {
      FailuresWithoutAre(v.failed, d.key);
      FailuresWithoutSorted(v.failed, d.key);
      FailuresWithoutKeys(v.failed, d.key);
    } else if Failing(d.outcome.kind) {
      RecheckKeeps(v.failed, d.key, KindOf(d.outcome.kind), Sanitized(d.outcome.error), at);
    }
  }

  // The keys a commit revives: failed leases whose node answered.
  ghost function Revived(ds: seq<Verdict>): set<Key> { set d | d in ds && d.kind == FailedKind && d.outcome.kind == Alive :: d.key }

  // A commit conserves the keys of both collections together, except the ones it
  // revives, and lets no failed key go but those.
  lemma {:induction false} CommitConserves(v: View, ds: seq<Verdict>, at: int)
    requires ViewOk(v) && OpOk(CommitOp(ds, at))
    ensures var w := CommitAll(v, ds, at);
            && ViewOk(w)
            && FailedKeys(v.failed) - Revived(ds) <= FailedKeys(w.failed)
            && EntryKeys(w.pending) + FailedKeys(w.failed) <= EntryKeys(v.pending) + FailedKeys(v.failed)
            && (EntryKeys(v.pending) + FailedKeys(v.failed)) - Revived(ds) <= EntryKeys(w.pending) + FailedKeys(w.failed)
  {
    if ds != [] {
      var front, d := ds[..|ds|-1], ds[|ds|-1];
      assert ds == front + [d];
      CommitConserves(v, front, at);
      assert Revived(ds) == Revived(front) + (if d.kind == FailedKind && d.outcome.kind == Alive then {d.key} else {});
      if d.kind == Kind.Candidate { MoveKeeps(CommitAll(v, front, at), d, at); } else { RetryKeeps(CommitAll(v, front, at), d, at); }
    }
  }

  lemma RemoveKeeps(v: View, wanted: set<Key>)
    requires ViewOk(v)
    ensures ViewOk(Apply(v, RemoveOp(wanted)))
    ensures Apply(v, RemoveOp(wanted)).failed == v.failed
    ensures EntryKeys(Apply(v, RemoveOp(wanted)).pending) == EntryKeys(v.pending) - wanted
  {
    WithoutAre(v.pending, wanted);
    WithoutSorted(v.pending, wanted);
    WithoutKeys(v.pending, wanted);
  }

  ghost function RevivedBy(op: Op): set<Key> { if op.CommitOp? then Revived(op.verdicts) else {} }

  lemma StepKeeps(v: View, op: Op)
    requires ViewOk(v) && OpOk(op)
    ensures ViewOk(Apply(v, op))
    ensures FailedKeys(v.failed) - RevivedBy(op) <= FailedKeys(Apply(v, op).failed)
  {
    match op
    case BeginOp(cs, failedSources) => BeginKeeps(v, cs, failedSources);
    case CompleteOp(kinds, at) => CompleteKeeps(v, kinds, at);
    case CommitOp(ds, at) => CommitConserves(v, ds, at);
    case RemoveOp(wanted) => RemoveKeeps(v, wanted);
  }

  // Over every run from a view in order: pending and failed stay disjoint and
  // strictly sorted, and every entry stays valid.
  lemma {:induction false} RunKeeps(v: View, ops: seq<Op>)
    requires ViewOk(v) && forall op | op in ops :: OpOk(op)
    ensures ViewOk(Run(v, ops))
  {
    if ops != [] {
      RunKeeps(v, ops[..|ops|-1]);
      assert ops[|ops|-1] in ops;
      StepKeeps(Run(v, ops[..|ops|-1]), ops[|ops|-1]);
    }
  }

  // A failed key that is gone was revived: some commit in between held a failed
  // lease for it with an outcome alive.
  lemma {:induction false} FailedKeysLeaveOnlyRevived(v: View, ops: seq<Op>, key: Key)
    requires ViewOk(v) && (forall op | op in ops :: OpOk(op))
    requires key in FailedKeys(v.failed) && key !in FailedKeys(Run(v, ops).failed)
    ensures exists i, d :: 0 <= i < |ops| && ops[i].CommitOp? && d in ops[i].verdicts
              && d == Verdict(FailedKind, key, d.outcome) && d.outcome.kind == Alive
  {
    assert ops != [];
    var front, last := ops[..|ops|-1], ops[|ops|-1];
    assert last in ops;
    RunKeeps(v, front);
    if key in FailedKeys(Run(v, front).failed) {
      StepKeeps(Run(v, front), last);
      assert key in RevivedBy(last);
      var d :| d in last.verdicts && d.kind == FailedKind && d.outcome.kind == Alive && d.key == key;
      assert ops[|ops|-1].CommitOp? && d in ops[|ops|-1].verdicts;
    } else {
      FailedKeysLeaveOnlyRevived(v, front, key);
      var i, d :| 0 <= i < |front| && front[i].CommitOp? && d in front[i].verdicts
                  && d == Verdict(FailedKind, key, d.outcome) && d.outcome.kind == Alive;
      assert ops[i] == front[i];
    }
  }
}
