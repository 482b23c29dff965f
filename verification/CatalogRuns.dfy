// The live catalog (candidate_catalog.go): begin, complete,
// CommitLeaseOutcomes and RemoveKeys as methods over one published snapshot,
// the lease tables and the cache image.  Each is one step of CatalogViews, or a
// run of the other goroutines' steps with one step at its end.
module CatalogRuns {
  import opened Proxies
  import opened CatalogModel
  import opened CatalogMerge
  import opened CatalogReconcile
  import opened CatalogBegin
  import opened CatalogRefresh
  import opened CatalogViews
  import opened CatalogSteps
  import opened CatalogTables
  import opened CatalogDisk
  import opened CatalogCommits
  import opened Leases

  // How one attempt of a removal ends.
  datatype AttemptEnd = Published | Again | GaveUp(cause: Cause)

  // Why a removal gave up: its write failed but the live image was restored, the
  // restoration failed, or the catalog changed in every attempt.
  datatype Cause = WriteFailed | NotRestored | Contended

  datatype RemoveResult = Removed(removed: seq<Key>, notFound: seq<Key>) | Abandoned(cause: Cause)

  // Other goroutines' critical sections, while a removal holds no lock.
  datatype Event =
    | Scrape(candidates: seq<Candidate>, names: Labels, failedSources: set<string>, sourceErrors: nat, at: int)
    | Completing(step: Completion)
    | Commit(leases: seq<Lease>, outcomes: map<Key, Outcome>, at: int, course: Course)

  ghost predicate EventOk(e: Event) { e.Scrape? ==> Inventory(e.candidates, e.names) && WellFormed(e.candidates) }

  // candidateLeaseFingerprint
  function Fingerprint(e: Entry): string {
    e.key.protocol + "://" + e.key.addr + "\0" + e.credential.username + "\0" + e.credential.password + CredentialText(e.alternates)
  }

  function CredentialText(cs: seq<Credential>): string {
    if cs == [] then "" else "\0" + cs[0].username + "\0" + cs[0].password + CredentialText(cs[1..])
  }

  // ------------------------------------------------------------- validation

  // The declaration a lease is about, as its collection holds it now.
  function DeclaredNow(v: View, l: Lease): Option<Entry> {
    if l.kind == Kind.Candidate then Find(v.pending, l.key)
    else match FindFailed(v.failed, l.key) case Some(f) => Some(f.entry) case None => None
  }

  // What the first loop of CommitLeaseOutcomes demands of one lease: the token is
  // current, the declaration is there, connectable and unchanged, and the
  // outcome is about this key.
  ghost predicate Current(v: View, pending: Table, failed: Table, l: Lease, outcomes: map<Key, Outcome>) {
    var states := if l.kind == FailedKind then failed else pending;
    var declared := DeclaredNow(v, l);
    && l.key in states && states[l.key].token == l.token
    && declared.Some? && l.key.protocol != "proxyip"
    && states[l.key].fingerprint == Fingerprint(declared.value) == l.fingerprint
    && (l.key in outcomes && outcomes[l.key].key.Some? ==> outcomes[l.key].key.value == l.key)
  }

  ghost predicate AllCurrent(v: View, pending: Table, failed: Table, ls: seq<Lease>, outcomes: map<Key, Outcome>) {
    forall l | l in ls :: Current(v, pending, failed, l, outcomes)
  }

  function VerdictOf(l: Lease, outcomes: map<Key, Outcome>): Verdict {
    Verdict(l.kind, l.key, if l.key in outcomes then outcomes[l.key] else Outcome(NoResult, None, ""))
  }

  function Verdicts(ls: seq<Lease>, outcomes: map<Key, Outcome>): (ds: seq<Verdict>)
    ensures |ds| == |ls|
  {
    seq(|ls|, i requires 0 <= i < |ls| => VerdictOf(ls[i], outcomes))
  }

  // The failure kinds complete derives from a finished check cycle.
  function FailureKinds(checked: seq<Key>, alive: set<Key>, policyFiltered: set<Key>): map<Key, FailureKind> {
    map k | k in checked && k.protocol != "proxyip" && k !in alive :: if k in policyFiltered then PolicyRejected else Unreachable
  }

  // The snapshot pointer and revision a copy was taken from.
  datatype Guard = Guard(version: nat, revision: nat)

  // Current leases name connectable nodes only.
  lemma CurrentConnectable(v: View, pending: Table, failed: Table, ls: seq<Lease>, outcomes: map<Key, Outcome>)
    requires AllCurrent(v, pending, failed, ls, outcomes)
    ensures forall d | d in Verdicts(ls, outcomes) :: d.key.protocol != "proxyip"
  {
    var ds := Verdicts(ls, outcomes);
    forall d | d in ds ensures d.key.protocol != "proxyip" {
      var i :| 0 <= i < |ds| && ds[i] == d;
      assert Current(v, pending, failed, ls[i], outcomes);
    }
  }

  lemma ReleasedNone(t: Table, kind: Kind)
    ensures Released(t, [], kind) == t
  {
  }

  // The same collections under other bookkeeping.
  method Stamped(s: Snapshot, m: Meta) returns (t: Snapshot)
    requires Sound(s)
    ensures t == s.(meta := m) && Sound(t) && ViewOf(t) == ViewOf(s)
  {
    SelfDenotes(s);
    ReplacedView(s, s.records, s.failed, ViewOf(s), m);
    t := s.(meta := m);
  }

  // A commit whose write is reported failed and yet visible.
  predicate Spoils(e: Event) { e.Commit? && e.course.fate == StoredUnsynced }

  // A completed snapshot on its way to the disk, and the publication it belongs
  // to; what is written is what that snapshot holds then.
  datatype Late = Late(version: nat, image: Snapshot)

  function Refreshed(ls: seq<Late>, version: nat, s: Snapshot): (r: seq<Late>)
    ensures |r| == |ls|
  {
    seq(|ls|, i requires 0 <= i < |ls| => if ls[i].version == version then Late(version, s) else ls[i])
  }

  lemma RunOne(v: View, op: Op)
    ensures Run(v, [op]) == Apply(v, op)
  {
    assert Run(v, [op][..0]) == v;
  }

  function Wanted(keys: seq<Key>): set<Key> { set k | k in keys }

  // The requested keys that are there, in the order asked for, and the others.
  function Selected(keys: seq<Key>, present: set<Key>): seq<Key> {
    if keys == [] then [] else Selected(keys[..|keys|-1], present) + if keys[|keys|-1] in present then [keys[|keys|-1]] else []
  }

  function Rejected(keys: seq<Key>, present: set<Key>): seq<Key> {
    if keys == [] then [] else Rejected(keys[..|keys|-1], present) + if keys[|keys|-1] in present then [] else [keys[|keys|-1]]
  }

  lemma {:induction false} SelectedAre(keys: seq<Key>, present: set<Key>)
    ensures forall k :: k in Selected(keys, present) <==> k in keys && k in present
    ensures forall k :: k in Rejected(keys, present) <==> k in keys && k !in present
  {
    if keys != [] {
      SelectedAre(keys[..|keys|-1], present);
      assert keys == keys[..|keys|-1] + [keys[|keys|-1]];
    }
  }

  // Only the requested part of the set matters.
  lemma {:induction false} SelectedSame(keys: seq<Key>, a: set<Key>, b: set<Key>)
    requires forall k | k in keys :: k in a <==> k in b
    ensures Selected(keys, a) == Selected(keys, b) && Rejected(keys, a) == Rejected(keys, b)
  {
    if keys != [] {
      assert keys == keys[..|keys|-1] + [keys[|keys|-1]];
      SelectedSame(keys[..|keys|-1], a, b);
    }
  }

  lemma SelectedWithin(keys: seq<Key>, found: set<Key>, present: set<Key>)
    requires found == present * Wanted(keys)
    ensures Selected(keys, found) == Selected(keys, present) && Rejected(keys, found) == Rejected(keys, present)
  {
    SelectedSame(keys, found, present);
  }

  lemma NothingPending(keys: seq<Key>)
    ensures Selected(keys, {}) == [] && Rejected(keys, {}) == keys
    ensures EntryKeys(NO_VIEW.pending) == {}
    ensures Apply(NO_VIEW, RemoveOp(Wanted(keys))) == NO_VIEW
  {
    NoneSelected(keys);
  }

  lemma {:induction false} NoneSelected(keys: seq<Key>)
    ensures Selected(keys, {}) == [] && Rejected(keys, {}) == keys
  {
    if keys != [] {
      NoneSelected(keys[..|keys|-1]);
      assert keys == keys[..|keys|-1] + [keys[|keys|-1]];
    }
  }

  lemma SoundCopyable(s: Snapshot)
    requires Sound(s)
    ensures Copyable(s)
  {
    forall e | e in Pending(s) ensures Portable(e) { assert PendingOk(e); }
    forall f | f in FailedOf(s) ensures Portable(f.entry) { assert FailureOk(f); }
  }

  // candidateRemovalMaxAttempts
  const MAX_ATTEMPTS := 4

  lemma BehindKept(a: Store, b: Store, s: bool)
    requires Others(a, b, s) && Behind(a)
    ensures Behind(b)
  {
  }

  lemma NeverRestored(s: Store, spoiled: bool)
    ensures Restored(s, None, spoiled)
  {
  }

  // A copy made at start, written at before, still live now.
  lemma RestoredNow(start: Store, before: Store, written: Store, now: Store, live: Snapshot, dirty: bool, spoiled: bool)
    requires start.snapshot == Some(live) && Others(start, before, dirty) && Others(written, now, spoiled)
    requires written == Saved(before, Image(live))
    requires now.version == start.version && NowOf(now).revision == NowOf(start).revision
    ensures now.snapshot == Some(live) && Restored(now, Some(NowOf(now)), spoiled) && (OnDisk(now) <==> !spoiled)
  {
    assert NowOf(now) == NowOf(before) == NowOf(start);
    if spoiled { UnpublishedIsNotLive(now); }
  }

  // A proposal made at start, written at before: behind or not, it may be
  // published iff nothing moved, and then it is what the file holds.
  lemma ProposalPublishable(start: Store, before: Store, written: Store, now: Store, next: Snapshot, dirty: bool, spoiled: bool)
    requires Behind(start) && start.snapshot.Some? && Others(start, before, dirty) && Others(written, now, spoiled)
    requires StampOf(next.meta) == Next(NowOf(start))
    requires written == if Stale(before, Image(next), false) then before else Saved(before, Image(next))
    ensures NowOf(now) != NowOf(start) || now.version != start.version ==> Behind(now)
    ensures now.version == start.version && NowOf(now).revision == NowOf(start).revision ==>
              now.snapshot == start.snapshot && now.disk == Some(Image(next)) && now.saved == StampOf(next.meta)
  {
    ProposalWritten(start, before, dirty, Image(next));
    if NowOf(before) == NowOf(start) {
      assert NowOf(written) == NowOf(start) && Ahead(written);
    }
  }

  lemma RemovalSound(base: Snapshot, next: Snapshot, wanted: set<Key>)
    requires Sound(base) && Grounded(next) && Sane(next.tables) && KnownProtocols(next.tables)
    requires ViewOf(next) == Apply(ViewOf(base), RemoveOp(wanted))
    ensures Sound(next)
  {
    RemoveKeeps(ViewOf(base), wanted);
  }

  class Catalog {
    var snapshot: Option<Snapshot>
    var version: nat
    var nextGeneration: nat
    var disk: Option<Snapshot>
    var savedGeneration: nat
    var savedRevision: nat
    var finishing: seq<Late>
    const leases: LeaseTable

    ghost predicate Valid()
      reads this, leases
    {
      && leases.Valid()
      && (snapshot.Some? ==> Sound(snapshot.value) && 0 < snapshot.value.meta.generation <= nextGeneration)
      && savedGeneration <= nextGeneration
      && forall l | l in finishing :: AtMost(StampOf(l.image.meta), NowOf(Here()))
    }

    ghost function Here(): Store
      reads this
    {
      Store(snapshot, version, disk, Stamp(savedGeneration, savedRevision))
    }

    ghost function Seen(): View
      requires Valid()
      reads this, leases
    {
      if snapshot.Some? then ViewOf(snapshot.value) else NO_VIEW
    }

    constructor ()
      ensures Valid() && Behind(Here()) && snapshot == None && Seen() == NO_VIEW
      ensures fresh(leases) && leases.Now() == Leases.Tables(0, map[], map[])
    {
      snapshot, version, nextGeneration, disk, savedGeneration, savedRevision, finishing := None, 0, 0, None, 0, 0, [];
      leases := new LeaseTable();
    }

    // -------------------------------------------------------------- persist

    // persistImmutableSnapshot, persistCompletedSnapshot
    method Persist(image: Snapshot, force: bool, fate: WriteFate) returns (ok: bool)
      modifies this`disk, this`savedGeneration, this`savedRevision
      ensures var s := old(Here());
              && ok == (Stale(s, image, force) || fate == Stored)
              && Here() == Put(s, image, force, fate)
    {
      var generation, revision := image.meta.generation, image.meta.revision;
      if !force && (generation < savedGeneration || (generation == savedGeneration && revision <= savedRevision)) { return true; }
      if fate != Lost { disk := Some(image); }
      if fate != Stored { return false; }
      savedGeneration, savedRevision := generation, revision;
      ok := true;
    }

    // ---------------------------------------------------------------- begin

    // begin, from taking its generation to the publishing swap.
    method Begin(candidates: seq<Candidate>, names: Labels, failedSources: set<string>, sourceErrors: nat, at: int)
      returns (generation: nat)
      requires Valid() && Inventory(candidates, names) && WellFormed(candidates)
      modifies this
      ensures Valid() && Seen() == Apply(old(Seen()), BeginOp(Fresh(candidates, names, at), failedSources))
      ensures OpOk(BeginOp(Fresh(candidates, names, at), failedSources))
      ensures snapshot.Some? && generation == nextGeneration == old(nextGeneration) + 1
      ensures var kept := old(snapshot).Some? && (old(snapshot).value.records != [] || old(snapshot).value.failed != []);
              snapshot.value.meta == Meta(generation, 1, "checking", sourceErrors, Some(at), Some(at),
                                          if kept then old(snapshot).value.meta.completedAt else None)
      ensures version == old(version) + 1
      ensures Invariant(snapshot.value)
      ensures disk == old(disk) && Others(old(Here()), Here(), false)
    {
      hide Base, ReconciledPending, ReconciledFailed, Fresh;
      FreshIs(candidates, names, at);
      ghost var before := Seen();
      nextGeneration := nextGeneration + 1;
      generation := nextGeneration;
      if snapshot.Some? { SoundIs(snapshot.value); }
      BeginKeeps(before, Fresh(candidates, names, at), failedSources);
      var s := BeginSnapshot(snapshot, candidates, names, failedSources, sourceErrors, generation, at);
      snapshot, version := Some(s), version + 1;
      SoundIs(s);
    }

    // ------------------------------------------------------------- complete

    // complete, under the snapshot's lock; the write comes later.
    method Complete(generation: nat, checked: seq<Key>, alive: set<Key>, policyFiltered: set<Key>, at: int)
      requires Valid()
      modifies this`snapshot, this`finishing
      ensures Valid()
      ensures var applies := old(snapshot).Some? && old(snapshot).value.meta.generation == generation;
              var op := CompleteOp(FailureKinds(checked, alive, policyFiltered), at);
              && OpOk(op)
              && Seen() == (if applies then Apply(old(Seen()), op) else old(Seen()))
              && (!applies ==> snapshot == old(snapshot) && finishing == old(finishing))
              && (applies ==>
                    && snapshot.Some? && NowOf(Here()) == Next(NowOf(old(Here())))
                    && snapshot.value.meta == old(snapshot).value.meta.(
                         revision := old(snapshot).value.meta.revision + 1, completedAt := Some(at),
                         phase := if old(snapshot).value.meta.sourceErrors == 0 then "complete" else "partial")
                    && |finishing| == |old(finishing)| + 1 && finishing[|old(finishing)|] == Late(version, snapshot.value)
                    && forall i | 0 <= i < |old(finishing)| ::
                         finishing[i] == if old(finishing)[i].version == version then Late(version, snapshot.value) else old(finishing)[i])
      ensures Others(old(Here()), Here(), false)
    {
      hide Without, Moved;
      if snapshot.None? || snapshot.value.meta.generation != generation { return; }
      var s := snapshot.value;
      var kinds := FailureKinds(checked, alive, policyFiltered);
      CompleteKeeps(ViewOf(s), kinds, at);
      if kinds != map[] { s := MoveFailures(s, kinds, at); }
      var m := s.meta.(completedAt := Some(at), phase := if s.meta.sourceErrors > 0 then "partial" else "complete",
                       revision := s.meta.revision + 1);
      SelfDenotes(s);
      ReplacedView(s, s.records, s.failed, ViewOf(s), m);
      s := s.(meta := m);
      snapshot := Some(s);
      finishing := Refreshed(finishing, version, s) + [Late(version, s)];
    }

    // The write of a completed snapshot, whenever it comes.
    method WriteFinished(index: nat, fate: WriteFate)
      requires Valid()
      modifies this`finishing, this`disk, this`savedGeneration, this`savedRevision
      ensures Valid() && Others(old(Here()), Here(), false)
      ensures if index < |old(finishing)| then
                && finishing == old(finishing[..index]) + old(finishing[index + 1..])
                && Here() == Put(old(Here()), Image(old(finishing)[index].image), false, fate)
              else finishing == old(finishing) && Here() == old(Here())
    {
      if index < |finishing| {
        var l := finishing[index];
        finishing := finishing[..index] + finishing[index + 1..];
        var _ := Persist(Image(l.image), false, fate);
      }
    }

    // One step of the completions.
    method Advance(step: Completion) returns (ghost ops: seq<Op>)
      requires Valid()
      modifies this`snapshot, this`finishing, this`disk, this`savedGeneration, this`savedRevision
      ensures Valid() && Others(old(Here()), Here(), false) && version == old(version)
      ensures Seen() == Run(old(Seen()), ops) && forall op | op in ops :: OpOk(op)
      ensures snapshot.Some? <==> old(snapshot).Some?
      ensures snapshot.Some? ==> (NowOf(Here()) != NowOf(old(Here())) <==> step.Finish? && step.generation == NowOf(old(Here())).generation)
    {
      hide Others, Apply, OpOk;
      ghost var before := Seen();
      ops := [];
      match step
      case Finish(generation, checked, alive, policyFiltered, at) =>
        ghost var applies := snapshot.Some? && snapshot.value.meta.generation == generation;
        Complete(generation, checked, alive, policyFiltered, at);
        if applies {
          ops := [CompleteOp(FailureKinds(checked, alive, policyFiltered), at)];
          RunOne(before, ops[0]);
        }
      case FinishWrite(index, fate) =>
        WriteFinished(index, fate);
    }

    // Completions while a commit is under way.
    method Completions(steps: seq<Completion>) returns (ghost ops: seq<Op>)
      requires Valid()
      modifies this`snapshot, this`finishing, this`disk, this`savedGeneration, this`savedRevision
      ensures Valid() && Completed(old(Here()), Here(), steps)
      ensures Seen() == Run(old(Seen()), ops) && forall op | op in ops :: OpOk(op)
    {
      hide Others, Apply, OpOk;
      ops := [];
      OthersNothing(Here());
      for i := 0 to |steps|
        invariant Valid() && Others(old(Here()), Here(), false) && version == old(version)
        invariant Seen() == Run(old(Seen()), ops) && forall op | op in ops :: OpOk(op)
        invariant snapshot.Some? <==> old(snapshot).Some?
        invariant snapshot.Some? ==> (NowOf(Here()) != NowOf(old(Here())) <==> Completes(old(Here()), steps[..i]))
        invariant NowOf(Here()).generation == NowOf(old(Here())).generation
        invariant steps == [] ==> Here() == old(Here())
      {
        ghost var here := Here();
        ghost var more := Advance(steps[i]);
        OthersTrans(old(Here()), here, Here(), false, false);
        OthersForward(old(Here()), here, Here(), false, false);
        RunJoin(old(Seen()), ops, more);
        assert steps[..i + 1] == steps[..i] + [steps[i]];
        CompletesJoin(old(Here()), steps[..i], [steps[i]]);
        ops := ops + more;
      }
      assert steps[..|steps|] == steps;
    }

    // ------------------------------------------------- CommitLeaseOutcomes

    // One lease of the first loop.
    method CheckLease(s: Snapshot, l: Lease, outcomes: map<Key, Outcome>) returns (ok: bool)
      requires Ordered(s)
      ensures ok <==> Current(ViewOf(s), leases.pending, leases.failed, l, outcomes)
    {
      hide Fingerprint;
      KeysOrdered(s);
      var states := if l.kind == FailedKind then leases.failed else leases.pending;
      if l.key !in states || states[l.key].token != l.token { return false; }
      var declared := "";
      if l.kind == FailedKind {
        var index := FindFailure(s, l.key);
        FoundFailed(FailedOf(s), KeysOfFailed(s), l.key, index);
        FindFailedIs(FailedOf(s), l.key);
        if index < 0 || l.key.protocol == "proxyip" { return false; }
        declared := Fingerprint(Meaning(s, s.failed[index].record));
      } else {
        var index := FindRecord(s, l.key);
        FoundPending(Pending(s), KeysOfPending(s), l.key, index);
        if index < 0 || l.key.protocol == "proxyip" { return false; }
        declared := Fingerprint(Meaning(s, s.records[index]));
      }
      if states[l.key].fingerprint != declared || states[l.key].fingerprint != l.fingerprint { return false; }
      ok := !(l.key in outcomes && outcomes[l.key].key.Some? && outcomes[l.key].key.value != l.key);
    }

    method CheckLeases(s: Snapshot, ls: seq<Lease>, outcomes: map<Key, Outcome>) returns (ok: bool)
      requires Ordered(s)
      ensures ok <==> AllCurrent(ViewOf(s), leases.pending, leases.failed, ls, outcomes)
    {
      for i := 0 to |ls|
        invariant forall j | 0 <= j < i :: Current(ViewOf(s), leases.pending, leases.failed, ls[j], outcomes)
      {
        var one := CheckLease(s, ls[i], outcomes);
        if !one { return false; }
      }
      ok := true;
    }

    // Validation, private copy, persistence, publication, with completions in
    // between.
    method CommitOutcomes(ls: seq<Lease>, outcomes: map<Key, Outcome>, at: int, course: Course)
      returns (r: CommitResult, changed: bool, ghost ops: seq<Op>)
      requires Valid()
      modifies this`snapshot, this`version, this`finishing, this`disk, this`savedGeneration, this`savedRevision
      ensures Valid() && Others(old(Here()), Here(), r == NotPersisted && course.fate == StoredUnsynced)
      ensures r == Refused <==> old(snapshot).None? || !AllCurrent(old(Seen()), leases.pending, leases.failed, ls, outcomes)
      ensures Seen() == Run(old(Seen()), ops) && forall op | op in ops :: OpOk(op)
      ensures r == Committed ==> Seen() == Apply(old(Seen()), CommitOp(Verdicts(ls, outcomes), at))
      ensures CommitWrote(old(Here()), Here(), r, changed, course)
    {
      hide CommitAll, AllCurrent, Verdicts, CommitWrote, Others;
      NothingWritten(Here(), course);
      OthersNothing(Here());
      changed, ops := false, [];
      if snapshot.None? { return Refused, false, []; }
      var s := snapshot.value;
      var ok := CheckLeases(s, ls, outcomes);
      if !ok { return Refused, false, []; }
      var ds := Verdicts(ls, outcomes);
      CurrentConnectable(ViewOf(s), leases.pending, leases.failed, ls, outcomes);
      var next;
      next, changed := CommitVerdicts(s, ds, at);
      if !changed { return Committed, false, []; }
      next := Stamped(next, next.meta.(revision := s.meta.revision + 1));
      r, ops := WriteAndSwap(s, next, course, CommitOp(ds, at));
    }

    // What the commit does once its proposal is there.
    method WriteAndSwap(s: Snapshot, next: Snapshot, course: Course, ghost op: Op) returns (r: CommitResult, ghost ops: seq<Op>)
      requires Valid() && snapshot == Some(s) && Sound(next) && next.meta == s.meta.(revision := s.meta.revision + 1)
      requires ViewOf(next) == Apply(ViewOf(s), op) && OpOk(op)
      modifies this`snapshot, this`version, this`finishing, this`disk, this`savedGeneration, this`savedRevision
      ensures Valid() && Others(old(Here()), Here(), r == NotPersisted && course.fate == StoredUnsynced) && r != Refused
      ensures Seen() == Run(old(Seen()), ops) && forall op | op in ops :: OpOk(op)
      ensures r == Committed ==> Seen() == Apply(old(Seen()), op)
      ensures CommitWrote(old(Here()), Here(), r, true, course)
    {
      hide Apply, Run, OpOk, Others, Stale, Completed, CommitWrote;
      ghost var a := Here();
      ops := Completions(course.beforeWrite);
      ghost var m := Here();
      var saved := Persist(Image(next), false, course.fate);
      if !saved {
        CommitNotWritten(a, m, next, course);
        return NotPersisted, ops;
      }
      ghost var more := Completions(course.beforeSwap);
      ghost var n := Here();
      RunJoin(old(Seen()), ops, more);
      ops := ops + more;
      ProposedMoved(a, m, n, next, course);
      if snapshot.value.meta.revision == s.meta.revision {
        CommitLanded(a, m, n, next, course);
        snapshot, version := Some(next), version + 1;
        RunOne(old(Seen()), op);
        RunJoin(old(Seen()), ops, [op]);
        return Committed, ops + [op];
      }
      r, more := RestoreConflict(a, m, next, course);
      RunJoin(old(Seen()), ops, more);
      ops := ops + more;
    }

    // The conflict: restoreLiveSnapshot forces a copy of the live snapshot onto
    // the disk and then waits for the publication lock, which its caller holds.
    method RestoreConflict(ghost a: Store, ghost m: Store, ghost next: Snapshot, course: Course) returns (r: CommitResult, ghost ops: seq<Op>)
      requires Valid() && Proposed(a, m, Here(), next, course) && NowOf(Here()) != NowOf(a) && snapshot.Some?
      modifies this`snapshot, this`finishing, this`disk, this`savedGeneration, this`savedRevision
      ensures Valid() && Others(a, Here(), false) && CommitWrote(a, Here(), r, true, course) && (r == Blocked || r == Conflicted)
      ensures Seen() == Run(old(Seen()), ops) && forall op | op in ops :: OpOk(op)
    {
      hide Apply, Run, OpOk, Others, Completed, CommitWrote, Proposed;
      var copy := snapshot.value;
      ops := Completions(course.beforeRestore);
      CommitConflicts(a, m, old(Here()), Here(), next, copy, course);
      var saved := Persist(Image(copy), true, course.restored);
      r := if saved then Blocked else Conflicted;
    }

    // CommitLeaseOutcomes: all leases are current and the whole outcome is
    // applied, or nothing is.  The leases are released, unless the call never
    // returns.
    method CommitLeaseOutcomes(ls: seq<Lease>, outcomes: map<Key, Outcome>, at: int, course: Course)
      returns (r: CommitResult, changed: bool, ghost ops: seq<Op>)
      requires Valid()
      modifies this`snapshot, this`version, this`finishing, this`disk, this`savedGeneration, this`savedRevision, leases
      ensures Valid() && Others(old(Here()), Here(), r == NotPersisted && course.fate == StoredUnsynced)
      ensures ls != [] ==>
                (r == Refused <==> old(snapshot).None? || !AllCurrent(old(Seen()), old(leases.pending), old(leases.failed), ls, outcomes))
      ensures Seen() == Run(old(Seen()), ops) && forall op | op in ops :: OpOk(op)
      ensures r == Committed ==> Seen() == Apply(old(Seen()), CommitOp(Verdicts(ls, outcomes), at))
      ensures CommitWrote(old(Here()), Here(), r, changed, course)
      ensures leases.pending == if r == Blocked then old(leases.pending) else Released(old(leases.pending), ls, Kind.Candidate)
      ensures leases.failed == if r == Blocked then old(leases.failed) else Released(old(leases.failed), ls, FailedKind)
    {
      hide Released, Verdicts, AllCurrent, Others, CommitWrote, Apply, OpOk;
      if ls == [] {
        ReleasedNone(leases.pending, Kind.Candidate);
        ReleasedNone(leases.failed, FailedKind);
        NothingCommitted(Seen(), outcomes, at);
        NothingWritten(Here(), course);
        OthersNothing(Here());
        return Committed, false, [];
      }
      r, changed, ops := CommitOutcomes(ls, outcomes, at, course);
      if r != Blocked { leases.ReleaseLeases(ls); }
    }

    static lemma NothingCommitted(v: View, outcomes: map<Key, Outcome>, at: int)
      ensures Apply(v, CommitOp(Verdicts([], outcomes), at)) == v && OpOk(CommitOp(Verdicts([], outcomes), at))
    {
    }

    // ------------------------------------------------------- other goroutines

    method Happen(event: Event) returns (ghost ops: seq<Op>, ghost spoiled: bool)
      requires Valid() && EventOk(event)
      modifies this, leases
      ensures Valid() && Others(old(Here()), Here(), spoiled) && (spoiled ==> Spoils(event))
      ensures Seen() == Run(old(Seen()), ops) && forall op | op in ops :: OpOk(op)
    {
      hide Others, Apply, CommitWrote;
      ghost var before := Seen();
      ops, spoiled := [], false;
      match event
      case Scrape(candidates, names, failedSources, sourceErrors, at) =>
        var _ := Begin(candidates, names, failedSources, sourceErrors, at);
        ops := [BeginOp(Fresh(candidates, names, at), failedSources)];
        RunOne(before, ops[0]);
      case Completing(step) =>
        ops := Advance(step);
      case Commit(ls, outcomes, at, course) =>
        var r, changed;
        r, changed, ops := CommitLeaseOutcomes(ls, outcomes, at, course);
        spoiled := r == NotPersisted && course.fate == StoredUnsynced;
    }

    method Interfere(events: seq<Event>) returns (ghost ops: seq<Op>, ghost spoiled: bool)
      requires Valid() && forall event | event in events :: EventOk(event)
      modifies this, leases
      ensures Valid() && Others(old(Here()), Here(), spoiled)
      ensures spoiled ==> exists event | event in events :: Spoils(event)
      ensures Seen() == Run(old(Seen()), ops) && forall op | op in ops :: OpOk(op)
    {
      hide Others;
      ops, spoiled := [], false;
      OthersNothing(Here());
      for i := 0 to |events|
        invariant Valid() && Others(old(Here()), Here(), spoiled)
        invariant spoiled ==> exists event | event in events :: Spoils(event)
        invariant Seen() == Run(old(Seen()), ops) && forall op | op in ops :: OpOk(op)
      {
        ghost var here := Here();
        ghost var more, dirty := Happen(events[i]);
        OthersTrans(old(Here()), here, Here(), spoiled, dirty);
        RunJoin(old(Seen()), ops, more);
        ops, spoiled := ops + more, spoiled || dirty;
      }
    }

    function GuardNow(): Guard
      reads this
    {
      Guard(version, if snapshot.Some? then snapshot.value.meta.revision else 0)
    }

    // ----------------------------------------------------------- RemoveKeys

    // restoreLiveSnapshot: forces a copy of the live snapshot onto the disk until
    // it is still the live one afterwards.  Then it is on disk, iff no proposal's
    // write failed visibly after the last of these writes.
    method RestoreLive(env: nat -> seq<Event>, fates: nat -> WriteFate) returns (ok: bool, ghost ops: seq<Op>, ghost spoiled: bool)
      requires Valid() && Behind(Here()) && forall n, event | event in env(n) :: EventOk(event)
      modifies this, leases
      ensures Valid() && Behind(Here())
      ensures Seen() == Run(old(Seen()), ops) && forall op | op in ops :: OpOk(op)
      ensures ok && snapshot.Some? ==> Restored(Here(), Some(NowOf(Here())), spoiled) && (OnDisk(Here()) <==> !spoiled)
      ensures spoiled ==> exists n, event | event in env(n) :: Spoils(event)
    {
      ops, spoiled := [], false;
      for attempt := 0 to MAX_ATTEMPTS
        invariant Valid() && Behind(Here()) && (spoiled ==> exists n, event | event in env(n) :: Spoils(event))
        invariant Seen() == Run(old(Seen()), ops) && forall op | op in ops :: OpOk(op)
      {
        if snapshot.None? { return true, ops, spoiled; }
        var saved, same;
        ghost var more;
        saved, same, more, spoiled := RestoreOnce(env(2 * attempt), env(2 * attempt + 1), fates(attempt));
        RunJoin(old(Seen()), ops, more);
        ops := ops + more;
        if !saved { return false, ops, spoiled; }
        if same { return true, ops, spoiled; }
      }
      ok := false;
    }

    // One copy, written while others run, and the look whether it is still live.
    method RestoreOnce(gap1: seq<Event>, gap2: seq<Event>, fate: WriteFate)
      returns (saved: bool, same: bool, ghost ops: seq<Op>, ghost spoiled: bool)
      requires Valid() && Behind(Here()) && snapshot.Some?
      requires (forall event | event in gap1 :: EventOk(event)) && forall event | event in gap2 :: EventOk(event)
      modifies this, leases
      ensures Valid() && Behind(Here())
      ensures Seen() == Run(old(Seen()), ops) && forall op | op in ops :: OpOk(op)
      ensures same ==> saved && snapshot.Some? && Restored(Here(), Some(NowOf(Here())), spoiled) && (OnDisk(Here()) <==> !spoiled)
      ensures spoiled ==> exists event | event in gap2 :: Spoils(event)
    {
      hide Others, Sound, Run;
      var live, guard := snapshot.value, GuardNow();
      ghost var start, dirty := Here(), false;
      ops, dirty := Interfere(gap1);
      ghost var before := Here();
      BehindKept(start, before, dirty);
      spoiled, same := false, false;
      saved := Persist(Image(live), true, fate);
      if !saved { return; }
      ghost var written, more := Here(), [];
      CopyWritten(start, before, dirty, Image(live));
      more, spoiled := Interfere(gap2);
      RunJoin(old(Seen()), ops, more);
      ops := ops + more;
      BehindKept(written, Here(), spoiled);
      same := GuardNow() == guard;
      if same { RestoredNow(start, before, written, Here(), live, dirty, spoiled); }
    }

    // A removal proposal: written, then published if its base is still live.
    // Published, it is on disk, whatever happened around the write.
    method WriteAndPublish(next: Snapshot, base: Snapshot, guard: Guard, wanted: set<Key>, gap1: seq<Event>, gap2: seq<Event>, fate: WriteFate)
      returns (published: bool, saved: bool, ghost ops: seq<Op>)
      requires Valid() && Behind(Here()) && snapshot == Some(base) && guard == GuardNow()
      requires Grounded(next) && Sane(next.tables) && KnownProtocols(next.tables)
      requires ViewOf(next) == Apply(ViewOf(base), RemoveOp(wanted))
      requires next.meta == base.meta.(revision := base.meta.revision + 1)
      requires (forall event | event in gap1 :: EventOk(event)) && forall event | event in gap2 :: EventOk(event)
      modifies this, leases
      ensures Valid() && Behind(Here()) && forall op | op in ops :: OpOk(op)
      ensures published ==> saved && Seen() == Apply(old(Seen()), RemoveOp(wanted)) && Run(old(Seen()), ops) == old(Seen())
      ensures published ==> OnDisk(Here()) && Level(Here()) && snapshot == Some(next)
      ensures !published ==> Seen() == Run(old(Seen()), ops)
    {
      hide Others, Apply, Run, Grounded, Sane, KnownProtocols;
      ghost var start, dirty := Here(), false;
      published := false;
      ops, dirty := Interfere(gap1);
      ghost var before := Here();
      BehindKept(start, before, dirty);
      saved := Persist(Image(next), false, fate);
      if !saved { return; }
      ghost var written, more := Here(), [];
      ProposalWritten(start, before, dirty, Image(next));
      ghost var spoiled;
      more, spoiled := Interfere(gap2);
      RunJoin(old(Seen()), ops, more);
      ops := ops + more;
      ProposalPublishable(start, before, written, Here(), next, dirty, spoiled);
      if GuardNow() == guard {
        RemovalSound(base, next, wanted);
        snapshot, version, published := Some(next), version + 1, true;
      }
    }

    // One attempt up to its proposal: the rebuilt snapshot and what it removes.
    method Propose(base: Snapshot, keys: seq<Key>) returns (next: Snapshot, removed: seq<Key>, notFound: seq<Key>)
      requires Sound(base)
      ensures Grounded(next) && Sane(next.tables) && KnownProtocols(next.tables)
      ensures ViewOf(next) == Apply(ViewOf(base), RemoveOp(Wanted(keys)))
      ensures next.meta == base.meta.(revision := base.meta.revision + 1)
      ensures removed == Selected(keys, EntryKeys(Pending(base))) && notFound == Rejected(keys, EntryKeys(Pending(base)))
      ensures removed == [] ==> Apply(ViewOf(base), RemoveOp(Wanted(keys))) == ViewOf(base)
    {
      SoundCopyable(base);
      var wanted := Wanted(keys);
      var rebuilt, found := RebuildWithout(base, wanted);
      SelfDenotes(rebuilt);
      ReplacedView(rebuilt, rebuilt.records, rebuilt.failed, ViewOf(rebuilt), rebuilt.meta.(revision := rebuilt.meta.revision + 1));
      next := rebuilt.(meta := rebuilt.meta.(revision := rebuilt.meta.revision + 1));
      removed, notFound := Selected(keys, found), Rejected(keys, found);
      SelectedWithin(keys, found, EntryKeys(Pending(base)));
      if removed == [] {
        SelectedAre(keys, found);
        forall e | e in Pending(base) ensures e.key !in wanted { assert e.key in EntryKeys(Pending(base)); }
        WithoutNone(Pending(base), wanted);
      }
    }

    // RemoveKeys: whatever other goroutines do at the points where it holds no
    // lock, a reported removal is one step applied to the live catalog as it was
    // when the removal was published, it reports exactly the keys that were
    // pending then, and it is on disk.  Otherwise only the others' steps show, and
    // the file holds the snapshot of the last restoration for as long as that one
    // is live, iff no proposal's write failed visibly since.
    method RemoveKeys(keys: seq<Key>, env: (nat, nat) -> seq<Event>, fates: (nat, nat) -> WriteFate)
      returns (r: RemoveResult, ghost ops: seq<Op>, ghost at: View, ghost put: Option<Stamp>, ghost spoiled: bool)
      requires Valid() && Behind(Here()) && forall m, n, event | event in env(m, n) :: EventOk(event)
      modifies this, leases
      ensures Valid() && Behind(Here()) && forall op | op in ops :: OpOk(op)
      ensures at == Run(old(Seen()), ops)
      ensures Seen() == if r.Removed? then Apply(at, RemoveOp(Wanted(keys))) else at
      ensures r.Removed? ==>
                && r.removed == Selected(keys, EntryKeys(at.pending))
                && r.notFound == Rejected(keys, EntryKeys(at.pending))
      ensures r.Removed? && r.removed != [] ==> OnDisk(Here())
      ensures !(r.Removed? && r.removed != []) ==> Restored(Here(), put, spoiled)
      ensures r == Abandoned(WriteFailed) && snapshot.Some? ==> put == Some(NowOf(Here()))
      ensures spoiled ==> exists m, n, event | event in env(m, n) :: Spoils(event)
    {
      hide Restored, Apply, Selected, Rejected;
      ops, put, spoiled := [], None, false;
      NeverRestored(Here(), spoiled);
      for attempt := 0 to MAX_ATTEMPTS
        invariant Valid() && Behind(Here()) && forall op | op in ops :: OpOk(op)
        invariant Seen() == Run(old(Seen()), ops) && Restored(Here(), put, spoiled)
        invariant spoiled ==> exists m, n, event | event in env(m, n) :: Spoils(event)
      {
        var done;
        ghost var more, last, dirty;
        r, done, more, last, put, dirty := RemoveAttempt(keys, (n: nat) => env(attempt, n), (n: nat) => fates(attempt, n), put, spoiled);
        spoiled := dirty;
        RunJoin(old(Seen()), ops, more);
        ops := ops + more;
        if done { return r, ops, last, put, spoiled; }
      }
      r, at := Abandoned(Contended), Seen();
    }

    method RemoveAttempt(keys: seq<Key>, env: nat -> seq<Event>, fates: nat -> WriteFate, ghost put: Option<Stamp>, ghost spoiled: bool)
      returns (r: RemoveResult, done: bool, ghost ops: seq<Op>, ghost at: View, ghost put': Option<Stamp>, ghost spoiled': bool)
      requires Valid() && Behind(Here()) && Restored(Here(), put, spoiled) && forall n, event | event in env(n) :: EventOk(event)
      modifies this, leases
      ensures Valid() && Behind(Here()) && forall op | op in ops :: OpOk(op)
      ensures at == Run(old(Seen()), ops)
      ensures !done ==> r == Abandoned(Contended)
      ensures Seen() == if r.Removed? then Apply(at, RemoveOp(Wanted(keys))) else at
      ensures r.Removed? ==>
                && r.removed == Selected(keys, EntryKeys(at.pending))
                && r.notFound == Rejected(keys, EntryKeys(at.pending))
      ensures r.Removed? && r.removed != [] ==> OnDisk(Here())
      ensures !(r.Removed? && r.removed != []) ==> Restored(Here(), put', spoiled')
      ensures r == Abandoned(WriteFailed) && snapshot.Some? ==> put' == Some(NowOf(Here()))
      ensures spoiled' && !spoiled ==> exists n, event | event in env(n) :: Spoils(event)
    {
      hide Others, Restored, Apply, Run, Selected, Rejected, Sound, AtMost, Before;
      done, put' := true, put;
      ghost var start := Here();
      ops, spoiled' := Interfere(env(0));
      at := Seen();
      BehindKept(start, Here(), spoiled');
      RestoredStays(start, Here(), put, spoiled, spoiled');
      spoiled' := spoiled || spoiled';
      if snapshot.None? {
        NothingPending(keys);
        return Removed([], keys), true, ops, at, put', spoiled';
      }
      var base, guard := snapshot.value, GuardNow();
      var next, removed, notFound := Propose(base, keys);
      if removed == [] { return Removed([], notFound), true, ops, at, put', spoiled'; }
      ghost var loaded := Here();
      ghost var more, dirty := Interfere(env(1));
      RunJoin(old(Seen()), ops, more);
      ops, at := ops + more, Seen();
      BehindKept(loaded, Here(), dirty);
      RestoredStays(loaded, Here(), put', spoiled', dirty);
      spoiled' := spoiled' || dirty;
      if GuardNow() != guard { return Abandoned(Contended), false, ops, at, put', spoiled'; }
      GuardHeld(loaded, Here(), dirty);
      var end;
      end, more, put', dirty := WriteOrRestore(next, base, guard, Wanted(keys), env, fates);
      RunJoin(old(Seen()), ops, more);
      ops := ops + more;
      spoiled' := dirty;
      match end
      case Published => r := Removed(removed, notFound);
      case Again => r, done, at := Abandoned(Contended), false, Seen();
      case GaveUp(cause) => r, at := Abandoned(cause), Seen();
    }

    // Publishes the proposal, or puts the live image back on disk.
    method WriteOrRestore(next: Snapshot, base: Snapshot, guard: Guard, wanted: set<Key>, env: nat -> seq<Event>, fates: nat -> WriteFate)
      returns (end: AttemptEnd, ghost ops: seq<Op>, ghost put: Option<Stamp>, ghost spoiled: bool)
      requires Valid() && Behind(Here()) && snapshot == Some(base) && guard == GuardNow()
      requires Grounded(next) && Sane(next.tables) && KnownProtocols(next.tables)
      requires ViewOf(next) == Apply(ViewOf(base), RemoveOp(wanted))
      requires next.meta == base.meta.(revision := base.meta.revision + 1)
      requires forall n, event | event in env(n) :: EventOk(event)
      modifies this, leases
      ensures Valid() && Behind(Here()) && forall op | op in ops :: OpOk(op)
      ensures end.Published? ==> Seen() == Apply(old(Seen()), RemoveOp(wanted)) && Run(old(Seen()), ops) == old(Seen()) && OnDisk(Here())
      ensures !end.Published? ==> Seen() == Run(old(Seen()), ops) && Restored(Here(), put, spoiled)
      ensures end == GaveUp(WriteFailed) || end.Again? ==> snapshot.None? || put == Some(NowOf(Here()))
      ensures spoiled ==> exists n, event | event in env(n) :: Spoils(event)
    {
      hide Others, Restored, Apply, Run, Grounded, Sane, KnownProtocols, OnDisk;
      put, spoiled := None, false;
      var published, saved;
      published, saved, ops := WriteAndPublish(next, base, guard, wanted, env(2), env(3), fates(0));
      if published { return Published, ops, put, spoiled; }
      ghost var more;
      var restored;
      restored, more, spoiled := RestoreLive((n: nat) => env(n + 4), (n: nat) => fates(n + 1));
      RunJoin(old(Seen()), ops, more);
      ops := ops + more;
      put := if restored && snapshot.Some? then Some(NowOf(Here())) else None;
      if put == None { NeverRestored(Here(), spoiled); }
      end := if !restored then GaveUp(NotRestored) else if saved then Again else GaveUp(WriteFailed);
    }
  }
}
