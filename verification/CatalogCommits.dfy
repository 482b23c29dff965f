// What CommitLeaseOutcomes (candidate_catalog.go) does to the published snapshot
// and its file.  It holds the publication lock, which stops every publisher but
// complete, so completions may fall between its steps.
module CatalogCommits {
  import opened Proxies
  import opened CatalogModel
  import opened CatalogDisk

  // How a cache write ends: it may be on disk although an error is reported.
  datatype WriteFate = Stored | Lost | StoredUnsynced

  // A write: nothing if the image is stale or the write is lost; a write that
  // fails visibly changes the file but not what counts as saved.
  function Put(s: Store, image: Snapshot, force: bool, fate: WriteFate): Store {
    if Stale(s, image, force) || fate == Lost then s
    else if fate == Stored then Saved(s, image)
    else s.(disk := Some(image))
  }

  // A refresh completes the snapshot of its generation; the write comes later.
  datatype Completion =
    | Finish(generation: nat, checked: seq<Key>, alive: set<Key>, policyFiltered: set<Key>, at: int)
    | FinishWrite(index: nat, fate: WriteFate)

  // What falls between a commit's validation, its write and its publication; and,
  // if that conflicts, between the restoration's copy and its forced write.
  datatype Course = Course(
    beforeWrite: seq<Completion>,
    fate: WriteFate,
    beforeSwap: seq<Completion>,
    beforeRestore: seq<Completion>,
    restored: WriteFate)

  // Nothing falls between.
  function Alone(fate: WriteFate): Course { Course([], fate, [], [], Lost) }

  // The last: the call waits for the publication lock it holds, and never returns.
  datatype CommitResult = Committed | Refused | NotPersisted | Conflicted | Blocked

  // One of the steps completes the live generation.
  ghost predicate Completes(s: Store, steps: seq<Completion>) {
    exists c | c in steps :: c.Finish? && c.generation == NowOf(s).generation
  }

  // Reported failed, a commit may have left its proposal on disk.  Written, it is
  // published iff no completion of the live generation came first.  Published, it
  // is on disk iff the file was older, or held the same image already.  Not
  // published, it returns iff the restoration of the live snapshot fails; if that
  // succeeds, the call is stuck.
  ghost predicate CommitWrote(a: Store, b: Store, r: CommitResult, changed: bool, c: Course) {
    && (r == Refused ==> !changed)
    && (!changed ==> b == a && (r == Refused || r == Committed))
    && (r == NotPersisted ==> c.fate != Stored && LeftBehind(a, b, c))
    && (changed && r != NotPersisted ==> (r == Committed <==> !Completes(a, c.beforeWrite + c.beforeSwap)))
    && (changed && r == Committed ==> Landed(a, b, c.fate))
    && (r == Conflicted || r == Blocked ==>
          && (r == Blocked <==> c.restored == Stored)
          && (r == Blocked ==> (OnDisk(b) <==> !Completes(a, c.beforeRestore))))
  }

  ghost predicate LeftBehind(a: Store, b: Store, c: Course) {
    && b.version == a.version
    && (c.fate == StoredUnsynced ==> b.disk.Some? && StampOf(b.disk.value.meta) == Next(NowOf(a)))
    && (NowOf(b) == NowOf(a) <==> !Completes(a, c.beforeWrite))
    && (c.beforeWrite == [] ==> Behind(a) && b == a.(disk := b.disk) && (c.fate == Lost ==> b == a))
  }

  ghost predicate Landed(a: Store, b: Store, fate: WriteFate) {
    && a.snapshot.Some? && b.snapshot.Some? && b.version == a.version + 1
    && b.snapshot.value.meta == a.snapshot.value.meta.(revision := a.snapshot.value.meta.revision + 1)
    && (fate != Stored ==> AtMost(NowOf(b), a.saved))
    && b.saved == (if AtMost(NowOf(b), a.saved) then a.saved else NowOf(b))
    && (OnDisk(b) <==> Before(a.saved, NowOf(b)) || a.disk == Some(Image(b.snapshot.value)))
  }

  lemma CompletesJoin(s: Store, a: seq<Completion>, b: seq<Completion>)
    ensures Completes(s, a + b) <==> Completes(s, a) || Completes(s, b)
  {
    assert forall c :: c in a + b <==> c in a || c in b;
  }

  lemma CompletesAlike(s: Store, t: Store, steps: seq<Completion>)
    requires NowOf(s).generation == NowOf(t).generation
    ensures Completes(s, steps) <==> Completes(t, steps)
  {
  }

  // After these completions and no other step.
  ghost predicate Completed(a: Store, b: Store, steps: seq<Completion>) {
    && Others(a, b, false) && b.version == a.version && NowOf(b).generation == NowOf(a).generation
    && (a.snapshot.Some? ==> b.snapshot.Some? && (NowOf(b) != NowOf(a) <==> Completes(a, steps)))
    && (steps == [] ==> b == a)
  }

  // A proposal for a, written in m after completions, and more completions.
  ghost predicate Proposed(a: Store, m: Store, n: Store, next: Snapshot, c: Course) {
    && a.snapshot.Some? && StampOf(next.meta) == Next(NowOf(a))
    && Completed(a, m, c.beforeWrite) && (Stale(m, Image(next), false) || c.fate == Stored)
    && Completed(Put(m, Image(next), false, c.fate), n, c.beforeSwap)
  }

  // The snapshot moved iff a completion of its generation came.
  lemma ProposedMoved(a: Store, m: Store, n: Store, next: Snapshot, c: Course)
    requires Proposed(a, m, n, next, c)
    ensures NowOf(n) == NowOf(a) <==> !Completes(a, c.beforeWrite + c.beforeSwap)
    ensures NowOf(n) == NowOf(a) ==> n.snapshot == a.snapshot && NowOf(m) == NowOf(a)
    ensures n.snapshot.Some? && NowOf(n).generation == NowOf(a).generation
  {
    hide Stale;
    var w := Put(m, Image(next), false, c.fate);
    CompletesAlike(a, w, c.beforeSwap);
    CompletesJoin(a, c.beforeWrite, c.beforeSwap);
  }

  // Unmoved, it is published.
  lemma CommitLanded(a: Store, m: Store, n: Store, next: Snapshot, c: Course)
    requires Proposed(a, m, n, next, c) && NowOf(n) == NowOf(a)
    requires next.meta == a.snapshot.value.meta.(revision := a.snapshot.value.meta.revision + 1)
    ensures var b := n.(snapshot := Some(next), version := n.version + 1);
            CommitWrote(a, b, Committed, true, c) && Others(a, b, false)
  {
    ProposedMoved(a, m, n, next, c);
  }

  // Its write fails.
  lemma CommitNotWritten(a: Store, m: Store, next: Snapshot, c: Course)
    requires a.snapshot.Some? && StampOf(next.meta) == Next(NowOf(a))
    requires Completed(a, m, c.beforeWrite) && !Stale(m, Image(next), false) && c.fate != Stored
    ensures var b := Put(m, Image(next), false, c.fate);
            CommitWrote(a, b, NotPersisted, true, c) && Others(a, b, c.fate == StoredUnsynced)
  {
  }

  // A completion came first: after a forced write of a copy of the live snapshot,
  // the others only see a later snapshot.
  lemma CommitConflicts(a: Store, m: Store, n: Store, k: Store, next: Snapshot, copy: Snapshot, c: Course)
    requires Proposed(a, m, n, next, c) && NowOf(n) != NowOf(a)
    requires n.snapshot == Some(copy) && Completed(n, k, c.beforeRestore)
    ensures var b := Put(k, Image(copy), true, c.restored);
            CommitWrote(a, b, if c.restored == Stored then Blocked else Conflicted, true, c) && Others(a, b, false)
  {
    ProposedMoved(a, m, n, next, c);
    CompletesAlike(a, n, c.beforeRestore);
    assert AtMost(Next(NowOf(a)), NowOf(n));
  }

  lemma NothingWritten(a: Store, c: Course)
    ensures CommitWrote(a, a, Refused, false, c) && CommitWrote(a, a, Committed, false, c)
  {
  }
}
