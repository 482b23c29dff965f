// Runs that break what one would expect of the catalog.  Two leave a cache file
// that is not the live catalog although every caller was answered: a failed write
// that is visible, and a reported commit that the stale-image guard kept from the
// file while the removal that stood in its way could not restore it.  In one a
// commit never returns.  One starts from a snapshot the validator accepts and
// publishes one it refuses.
module CatalogWitnesses {
  import opened Proxies
  import opened CatalogModel
  import opened CatalogMerge
  import opened CatalogReconcile
  import opened CatalogRefresh
  import opened CatalogBegin
  import opened CatalogViews
  import opened CatalogSteps
  import opened CatalogDisk
  import opened CatalogCommits
  import opened CatalogRuns
  import opened CatalogParts
  import opened Credentials
  import opened Sorting
  import Leases

  const NODE := Key("http", "1.1.1.1:80")

  const DECLARED := Candidate(NODE, Credential("", ""), [], "", "", 0, "a", [])

  // The verdict that moves the node to the failures.
  const UNREACHABLE := Outcome(OutUnreachable, None, "")

  function OneOutcome(): map<Key, Outcome> { map[NODE := UNREACHABLE] }

  function TheEntry(): Entry { Declared(DECLARED, map[]).(alternates := Capped(DECLARED.alternates), seenUnix := 0) }

  lemma OneFresh()
    ensures Inventory([DECLARED], map[]) && WellFormed([DECLARED])
    ensures Fresh([DECLARED], map[], 0) == [TheEntry()]
  {
    assert |Names(DECLARED)| == 1 && Regular(DECLARED) && InOrder(DECLARED, map[]);
    var i := FreshAt([DECLARED], map[], 0, 0);
  }

  lemma BeginFromNothing(cs: seq<Entry>)
    ensures Apply(NO_VIEW, BeginOp(cs, {})) == View(cs, [])
  {
    BaseOfNothing(cs, {});
    NothingFailed(cs);
  }

  lemma CommitMovesIt(v: View, e: Entry, d: Verdict, at: int)
    requires v == View([e], []) && d == Verdict(Leases.Kind.Candidate, e.key, UNREACHABLE)
    ensures Apply(v, CommitOp([d], at)).failed != [] && Apply(v, CommitOp([d], at)) != v
  {
    hide SortBy, Sanitized;
    assert [d][..0] == [];
    assert CommitAll(v, [d], at) == CommitOne(v, d, at);
    var moved := [FailedEntry(e.(checkedUnix := at), KindOf(OutUnreachable), Sanitized(""))];
    assert v.failed + moved == moved;
    SortElements(FailedLess(), moved);
    SameElements(SortBy(FailedLess(), moved), moved);
    assert moved[0] in SortBy(FailedLess(), moved);
  }

  // A catalog with one pending node, and the lease that is out on it.
  method OneNode() returns (c: Catalog, l: Leases.Lease)
    ensures fresh(c) && fresh(c.leases) && c.Valid() && Behind(c.Here()) && c.snapshot.Some?
    ensures c.Seen() == View([TheEntry()], []) && l.kind == Leases.Kind.Candidate && l.key == NODE
    ensures l.key in c.leases.pending && c.leases.pending[l.key].token == l.token
    ensures AllCurrent(c.Seen(), c.leases.pending, c.leases.failed, [l], OneOutcome())
  {
    hide ViewOk;
    c := new Catalog();
    OneFresh();
    BeginFromNothing([TheEntry()]);
    var _ := c.Begin([DECLARED], map[], {}, 0, 0);
    l := c.leases.NewPendingLease(Leases.Offer(NODE, true, true, Fingerprint(TheEntry())));
    assert Find([TheEntry()], NODE) == Some(TheEntry());
    assert Current(c.Seen(), c.leases.pending, c.leases.failed, l, OneOutcome());
  }

  // A write that fails after it became visible: the commit is reported failed and
  // changes nothing in memory, and its proposal is on disk.
  method VisibleFailure() returns (c: Catalog, r: CommitResult)
    ensures r == NotPersisted && fresh(c) && c.Valid() && Behind(c.Here())
    ensures c.Seen() == View([TheEntry()], []) && Unpublished(c.Here()) && !OnDisk(c.Here())
  {
    hide AllCurrent, CommitAll, ViewOk, Without;
    var l;
    c, l := OneNode();
    ghost var v := c.Seen();
    var changed; ghost var ops;
    r, changed, ops := c.CommitLeaseOutcomes([l], OneOutcome(), 0, Alone(StoredUnsynced));
    CommitMovesIt(v, TheEntry(), VerdictOf(l, OneOutcome()), 0);
    assert Verdicts([l], OneOutcome()) == [VerdictOf(l, OneOutcome())];
    UnpublishedIsNotLive(c.Here());
  }

  // The same, with a removal of the node written and not yet published.
  method RemovalWritten() returns (c: Catalog, l: Leases.Lease, ghost next: Snapshot)
    ensures fresh(c) && fresh(c.leases) && c.Valid() && Ahead(c.Here()) && c.snapshot.Some?
    ensures c.Seen() == View([TheEntry()], []) && l.kind == Leases.Kind.Candidate && l.key == NODE
    ensures AllCurrent(c.Seen(), c.leases.pending, c.leases.failed, [l], OneOutcome())
    ensures c.disk == Some(Image(next)) && Grounded(next) && ViewOf(next).failed == []
  {
    hide AllCurrent, Selected, Rejected, ViewOk, Without, Others, Current;
    c, l := OneNode();
    var proposal, removed, notFound := c.Propose(c.snapshot.value, [NODE]);
    var wrote := c.Persist(Image(proposal), false, Stored);
    next := proposal;
  }

  // A commit that falls between a removal's write and its publication is reported
  // committed and not written; the removal is refused, and when its restoration
  // fails the file keeps the removal's proposal.
  method SkippedCommit() returns (c: Catalog, r: CommitResult, restored: bool)
    ensures r == Committed && !restored && fresh(c) && c.Valid() && Behind(c.Here())
    ensures c.snapshot.Some? && c.Seen().failed != [] && !OnDisk(c.Here())
  {
    hide AllCurrent, CommitAll, ViewOk, Others, CommitOne, OpOk, Run, Current, Apply;
    var l; ghost var next;
    c, l, next := RemovalWritten();
    ghost var v := c.Seen();
    var changed; ghost var ops;
    r, changed, ops := c.CommitLeaseOutcomes([l], OneOutcome(), 0, Alone(Stored));
    CommitMovesIt(v, TheEntry(), VerdictOf(l, OneOutcome()), 0);
    assert Verdicts([l], OneOutcome()) == [VerdictOf(l, OneOutcome())];
    DifferentImages(next, c.snapshot.value);
    restored := c.Persist(Image(c.snapshot.value), true, Lost);
  }

  lemma DifferentImages(a: Snapshot, b: Snapshot)
    requires Grounded(a) && Grounded(b) && ViewOf(a).failed != ViewOf(b).failed
    ensures Image(a) != Image(b)
  {
  }

  // A refresh completes between a commit's validation and its publication: the
  // commit restores the live image and then never returns, its lease still out.
  method CompletionBlocksCommit() returns (c: Catalog, l: Leases.Lease, r: CommitResult)
    ensures r == Blocked && fresh(c) && c.Valid() && c.snapshot.Some? && OnDisk(c.Here())
    ensures l.key in c.leases.pending && c.leases.pending[l.key].token == l.token
  {
    hide AllCurrent, CommitAll, ViewOk, Without, Others, CommitOne, Apply, Run, OpOk;
    c, l := OneNode();
    ghost var a, v := c.Here(), c.Seen();
    var steps := [Finish(c.snapshot.value.meta.generation, [], {}, {}, 0)];
    var changed; ghost var ops;
    r, changed, ops := c.CommitLeaseOutcomes([l], OneOutcome(), 0, Course(steps, Stored, [], [], Stored));
    CommitMovesIt(v, TheEntry(), VerdictOf(l, OneOutcome()), 0);
    assert Verdicts([l], OneOutcome()) == [VerdictOf(l, OneOutcome())];
    assert steps[0] in steps + [] && Completes(a, steps + []);
  }

  // ------------------------------------------------- a resource among failures

  const FEED := Candidate(Key("proxyip", "9.9.9.9:443"), Credential("", ""), [], "", "", 0, "a", [])

  // A restored snapshot that records the resource as an unreachable node: the
  // validator accepts it.
  function Restored(): Snapshot {
    Snapshot([],
             [Failure(Record(FEED.key.addr, FEED.credential, 0, 1, 0, 0, 0, 0, CatalogModel.Deferred, false, 0, 0, 0, 0), Unreachable, "")],
             [],
             Tables([0], ["a"], ["a"], ["proxyip"], [""], [""]),
             Meta(0, 1, "restored", 0, None, None, None))
  }

  lemma RestoredIsValid()
    ensures Validated(Restored()) && Refreshable(Some(Restored())) && Pending(Restored()) == []
    ensures FailedOf(Restored())[0].entry.key == FEED.key
  {
    var s := Restored();
    var r := s.failed[0].record;
    assert RecordSources(s.tables, r) == ["a"];
    assert FailedOf(s)[0].entry.sources == ["a"] && FailedOf(s)[0].entry.sources[0] == "a";
    assert forall f | f in FailedOf(s) :: f == FailedOf(s)[0];
  }

  lemma FeedIsFresh()
    ensures Inventory([FEED], map[]) && WellFormed([FEED])
    ensures Fresh([FEED], map[], 0)[0].key == FEED.key && Fresh([FEED], map[], 0)[0].status == Resource
  {
    assert |Names(FEED)| == 1 && Regular(FEED) && InOrder(FEED, map[]);
    var i := FreshAt([FEED], map[], 0, 0);
  }

  // When a feed lists the resource again, begin publishes a snapshot the
  // validator refuses.
  method ResourceFailure() returns (previous: Snapshot, s: Snapshot)
    ensures Validated(previous) && Grounded(s) && !Validated(s)
  {
    hide Validated, Fresh, Inventory;
    previous := Restored();
    RestoredIsValid();
    FeedIsFresh();
    s := BeginSnapshot(Some(previous), [FEED], map[], {}, 0, 1, 0);
    FreshIs([FEED], map[], 0);
    ghost var base := Base([], Fresh([FEED], map[], 0), {});
    BaseOfNothing(Fresh([FEED], map[], 0), {});
    NotValidated(s, FailedOf(previous), base);
  }

  lemma NotValidated(s: Snapshot, fs: seq<FailedEntry>, base: seq<Entry>)
    requires Grounded(s) && FailedOf(s) == ReconciledFailed(fs, base)
    requires fs != [] && base != [] && base[0].key == fs[0].entry.key && base[0].status == Resource
    ensures !Validated(s)
  {
    assert Find(base, fs[0].entry.key) == Some(base[0]);
    assert FailedOf(s)[0] in FailedOf(s);
  }
}
