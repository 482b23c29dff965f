// The catalog's cache file beside the published snapshot (candidatecache.go):
// how far the file has come, and what other goroutines do to both while one of
// them holds no lock.
module CatalogDisk {
  import opened Proxies
  import opened CatalogModel

  // Publications are ordered by generation, then revision.
  datatype Stamp = Stamp(generation: nat, revision: nat)

  predicate Before(a: Stamp, b: Stamp) { a.generation < b.generation || (a.generation == b.generation && a.revision < b.revision) }

  predicate AtMost(a: Stamp, b: Stamp) { a == b || Before(a, b) }

  function StampOf(m: Meta): Stamp { Stamp(m.generation, m.revision) }

  // The stamp of a proposal made from the snapshot at this stamp.
  function Next(s: Stamp): Stamp { s.(revision := s.revision + 1) }

  // persistImmutableSnapshot maps an unfinished phase in the image only.
  function Image(s: Snapshot): Snapshot {
    if s.meta.phase != "checking" then s
    else s.(meta := s.meta.(phase := if s.meta.sourceErrors > 0 then "partial" else "complete"))
  }

  // What is written never says that a check is under way, and is otherwise the
  // snapshot.
  lemma ImageIsFinished(s: Snapshot)
    ensures Image(s).meta.phase != "checking" && Image(s).(meta := s.meta) == s
    ensures Image(s).meta.(phase := s.meta.phase) == s.meta
    ensures Image(s).meta.phase == s.meta.phase || Image(s).meta.phase == (if s.meta.sourceErrors == 0 then "complete" else "partial")
  {
  }

  // The published snapshot, how often its pointer changed, the file, and the
  // stamp the cache counts as saved.
  datatype Store = Store(snapshot: Option<Snapshot>, version: nat, disk: Option<Snapshot>, saved: Stamp)

  function NowOf(s: Store): Stamp { if s.snapshot.Some? then StampOf(s.snapshot.value.meta) else Stamp(0, 0) }

  // The file is not ahead of memory, holds what memory has, or is one proposal
  // ahead of it.
  predicate Behind(s: Store) { AtMost(s.saved, NowOf(s)) }

  predicate Level(s: Store) { s.snapshot.Some? && s.saved == NowOf(s) }

  predicate Ahead(s: Store) { s.snapshot.Some? && s.saved == Next(NowOf(s)) }

  // The live snapshot is on disk.
  predicate OnDisk(s: Store) { s.snapshot.Some? && s.disk == Some(Image(s.snapshot.value)) }

  // A proposal that was never published is on disk.
  predicate Unpublished(s: Store) { s.snapshot.Some? && s.disk.Some? && StampOf(s.disk.value.meta) == Next(NowOf(s)) }

  lemma UnpublishedIsNotLive(s: Store)
    requires Unpublished(s)
    ensures !OnDisk(s)
  {
  }

  // ------------------------------------------------------- other goroutines

  // What any sequence of the others' steps does: a changed snapshot has a later
  // stamp, the file stays behind or becomes it, and while the snapshot stays and
  // the file is level or beyond it, nothing is written but, possibly, a proposal
  // whose write failed visibly.
  ghost predicate Others(a: Store, b: Store, spoiled: bool) {
    && AtMost(NowOf(a), NowOf(b))
    && (NowOf(b) == NowOf(a) ==> b.snapshot == a.snapshot && b.version == a.version)
    && a.version <= b.version
    && (b.version == a.version ==> NowOf(b).generation == NowOf(a).generation)
    && (Behind(a) ==> Behind(b))
    && (Ahead(a) ==> Behind(b) || (NowOf(b) == NowOf(a) && Ahead(b)))
    && (AtMost(Next(NowOf(a)), a.saved) && NowOf(b) == NowOf(a) ==> b.disk == a.disk && b.saved == a.saved)
    && (Level(a) && NowOf(b) == NowOf(a) ==> Level(b) && if spoiled then Unpublished(b) else b.disk == a.disk)
  }

  lemma OthersNothing(a: Store)
    ensures Others(a, a, false)
  {
  }

  lemma OthersTrans(a: Store, b: Store, c: Store, s: bool, t: bool)
    requires Others(a, b, s) && Others(b, c, t)
    ensures Others(a, c, s || t)
  {
    if NowOf(c) == NowOf(a) { assert NowOf(b) == NowOf(a); }
  }

  // Once moved, never back.
  lemma OthersForward(a: Store, b: Store, c: Store, s: bool, t: bool)
    requires Others(a, b, s) && Others(b, c, t)
    ensures NowOf(c) == NowOf(a) <==> NowOf(b) == NowOf(a) && NowOf(c) == NowOf(b)
  {
  }

  // The guard of a removal or a restoration: pointer and revision unmoved.
  lemma GuardHeld(a: Store, b: Store, s: bool)
    requires Others(a, b, s) && a.version == b.version && NowOf(a).revision == NowOf(b).revision
    ensures NowOf(b) == NowOf(a) && b.snapshot == a.snapshot
  {
  }

  // -------------------------------------------------------------- own writes

  // persistImmutableSnapshot skips what is not newer than the file.
  predicate Stale(s: Store, image: Snapshot, force: bool) { !force && AtMost(StampOf(image.meta), s.saved) }

  function Saved(s: Store, image: Snapshot): Store { s.(disk := Some(image), saved := StampOf(image.meta)) }

  // A proposal for base, written after others ran: either they left base alone
  // and the file is ahead, or the file is behind.
  lemma ProposalWritten(a: Store, b: Store, s: bool, image: Snapshot)
    requires Behind(a) && a.snapshot.Some? && Others(a, b, s) && StampOf(image.meta) == Next(NowOf(a))
    ensures NowOf(b) == NowOf(a) ==> !Stale(b, image, false) && Ahead(Saved(b, image))
    ensures NowOf(b) != NowOf(a) ==> Behind(Saved(b, image)) && Behind(b)
  {
  }

  // A restoration of a copy made before others ran.
  lemma CopyWritten(a: Store, b: Store, s: bool, image: Snapshot)
    requires a.snapshot.Some? && Others(a, b, s) && StampOf(image.meta) == NowOf(a)
    ensures Behind(Saved(b, image)) && (NowOf(b) == NowOf(a) ==> Level(Saved(b, image)))
  {
  }

  // --------------------------------------------------------------- restored

  // The last restoration was of this stamp; as long as the snapshot is still that
  // one, it is on disk, unless a proposal's write failed visibly since.
  ghost predicate Restored(s: Store, put: Option<Stamp>, spoiled: bool) {
    put.Some? ==>
      && AtMost(put.value, NowOf(s))
      && (put.value == NowOf(s) ==> Level(s) && if spoiled then Unpublished(s) else OnDisk(s))
  }

  lemma RestoredStays(a: Store, b: Store, put: Option<Stamp>, s: bool, t: bool)
    requires Restored(a, put, s) && Others(a, b, t)
    ensures Restored(b, put, s || t)
  {
  }

  // Exactly then: with the snapshot unmoved since the restoration, it is on disk
  // iff no proposal's write failed visibly in between.
  lemma RestoredExactly(s: Store, put: Option<Stamp>, spoiled: bool)
    requires Restored(s, put, spoiled) && put == Some(NowOf(s))
    ensures OnDisk(s) <==> !spoiled
  {
    if spoiled { UnpublishedIsNotLive(s); }
  }
}
