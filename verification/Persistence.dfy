// Persist-then-publish (pool.go, poolcache.go).  A deletion or a full recheck
// reserves a cache generation, writes its image to disk without holding the
// pool lock, and publishes in memory only if no other generation was handed out
// meanwhile.
module Persistence {
  import opened Proxies
  import opened Pool
  import opened LivePool

  datatype Image = Image(proxies: seq<Proxy>, stats: map<Key, Stats>)

  // A snapshot detached from the pool by a goroutine that has yet to write it.
  datatype Snapshot = Snapshot(generation: nat, image: Image)

  // The file and the cache's note of the newest generation it wrote.
  datatype Disk = Disk(image: Option<Image>, last: Option<nat>)

  // A write can fail before the new file is visible, or after the rename.
  datatype Fate = Written | LostBefore | FailedAfterVisible

  predicate Stale(d: Disk, generation: nat) { d.last.Some? && generation <= d.last.value }

  // poolCache.saveWithHealthState
  function Save(d: Disk, s: Snapshot, fate: Fate): Disk {
    if Stale(d, s.generation) then d
    else match fate
         case Written => Disk(Some(s.image), Some(s.generation))
         case LostBefore => d
         case FailedAfterVisible => d.(image := Some(s.image))
  }

  predicate SaveOk(d: Disk, s: Snapshot, fate: Fate) { Stale(d, s.generation) || fate == Written }

  datatype World = World(pool: Pool, disk: Disk, writers: seq<Snapshot>)

  function Live(p: Pool): Image { Image(p.proxies, p.stats) }

  function Capture(p: Pool): Snapshot { Snapshot(p.cacheGeneration, Live(p)) }

  // The inventory transactions hold deleteMu, so none of them runs beside another.
  predicate Concurrent(op: Op) { !op.OpRemove? && !op.OpClearUnavailable? && !op.OpFullCommit? }

  datatype Event =
    | PoolOp(op: Op)
    | FireTimer                         // flushScheduledPersistence captures
    | Flush                             // FlushCache captures under its own generation
    | WriterRuns(index: nat, fate: Fate)

  function Happen(w: World, e: Event): World {
    match e
    case PoolOp(op) =>
      if !Concurrent(op) then w
      else
        var p := Step(w.pool, op);
        if op.OpRefresh? && p.cached && !Rejected(w.pool, op.gen)
        then w.(pool := p, writers := w.writers + [Capture(p)])
        else w.(pool := p)
    case FireTimer =>
      if w.pool.timer && w.pool.cached
      then w.(pool := w.pool.(timer := false), writers := w.writers + [Capture(w.pool)])
      else w
    case Flush =>
      if w.pool.cached
      then
        var p := w.pool.(cacheGeneration := w.pool.cacheGeneration + 1, timer := false);
        w.(pool := p, writers := w.writers + [Capture(p)])
      else w
    case WriterRuns(i, fate) =>
      if i < |w.writers|
      then w.(disk := Save(w.disk, w.writers[i], fate), writers := w.writers[..i] + w.writers[i + 1..])
      else w
  }

  function Happens(w: World, es: seq<Event>): World {
    if es == [] then w else Happen(Happens(w, es[..|es|-1]), es[|es|-1])
  }

  // The pool operations among some events.
  function Ops(es: seq<Event>): seq<Op> {
    if es == [] then []
    else Ops(es[..|es|-1]) + (if es[|es|-1].PoolOp? && Concurrent(es[|es|-1].op) then [es[|es|-1].op] else [])
  }

  // Nothing was captured or written under a generation not yet handed out.
  ghost predicate Orderly(w: World) {
    && (forall s | s in w.writers :: s.generation <= w.pool.cacheGeneration)
    && (w.disk.last.Some? ==> w.disk.last.value <= w.pool.cacheGeneration)
  }

  // ------------------------------------------------------------ generations

  // An operation that changes nodes or statistics takes a new generation.
  ghost predicate Counted(p: Pool, q: Pool) {
    && p.cacheGeneration <= q.cacheGeneration
    && p.cached == q.cached
    && (p.cacheGeneration == q.cacheGeneration ==> q.proxies == p.proxies && q.stats == p.stats && (q.timer ==> p.timer))
  }

  lemma CountedHealthOp(p: Pool, op: Op)
    requires op.OpRecord? || op.OpObserve? || op.OpSetAvailable? || op.OpSetPolicy? || op.OpInvalidate? || op.OpRefresh? || op.OpPromote?
    ensures Counted(p, Step(p, op))
  {
  }

  lemma CountedOtherOp(p: Pool, op: Op)
    requires Concurrent(op)
    requires !(op.OpRecord? || op.OpObserve? || op.OpSetAvailable? || op.OpSetPolicy? || op.OpInvalidate? || op.OpRefresh? || op.OpPromote?)
    ensures Counted(p, Step(p, op))
  {
    hide Refresh, Promote, RecordResult, ObserveHealth, FullCycle, DeletePlan, FullCommitPlan, Retire;
    if op.OpCredentials? {
      var i := Lookup(p.proxies, op.key);
      if i.Some? && p.proxies[i.value].credential == op.credential && p.proxies[i.value].alternates == op.alternates {
        assert p.proxies[i.value := p.proxies[i.value]] == p.proxies;
      }
    }
  }

  lemma StepCounted(p: Pool, op: Op)
    requires Concurrent(op)
    ensures Counted(p, Step(p, op))
  {
    if op.OpRecord? || op.OpObserve? || op.OpSetAvailable? || op.OpSetPolicy? || op.OpInvalidate? || op.OpRefresh? || op.OpPromote? {
      CountedHealthOp(p, op);
    } else {
      CountedOtherOp(p, op);
    }
  }

  lemma HappenOrderly(w: World, e: Event)
    requires Orderly(w)
    ensures Orderly(Happen(w, e)) && Counted(w.pool, Happen(w, e).pool)
  {
    if e.PoolOp? && Concurrent(e.op) {
      StepCounted(w.pool, e.op);
    }
  }

  lemma {:induction false} HappensOrderly(w: World, es: seq<Event>)
    requires Orderly(w)
    ensures Orderly(Happens(w, es)) && Counted(w.pool, Happens(w, es).pool)
  {
    if es != [] {
      HappensOrderly(w, es[..|es|-1]);
      HappenOrderly(Happens(w, es[..|es|-1]), es[|es|-1]);
    }
  }

  // A reserved generation nobody else can write under.
  ghost predicate Quiet(w: World, reserved: nat) {
    && w.pool.cacheGeneration == reserved
    && !w.pool.timer
    && (forall s | s in w.writers :: s.generation < reserved)
  }

  ghost predicate Below(d: Disk, reserved: nat) { d.last.Some? ==> d.last.value < reserved }

  lemma HappenQuiet(w: World, e: Event, reserved: nat)
    requires Quiet(w, reserved) && Happen(w, e).pool.cacheGeneration == reserved
    ensures Quiet(Happen(w, e), reserved)
    ensures Live(Happen(w, e).pool) == Live(w.pool)
    ensures w.disk.last == Some(reserved) ==> Happen(w, e).disk == w.disk
    ensures Below(w.disk, reserved) ==> Below(Happen(w, e).disk, reserved)
  {
    if e.PoolOp? && Concurrent(e.op) { StepCounted(w.pool, e.op); }
  }

  // While the reserved generation is still the newest, memory has not moved and
  // nobody can overwrite what was written under it.
  lemma {:induction false} ReservedStaysQuiet(w: World, es: seq<Event>, reserved: nat)
    requires Orderly(w) && Quiet(w, reserved) && Happens(w, es).pool.cacheGeneration == reserved
    ensures Quiet(Happens(w, es), reserved)
    ensures Live(Happens(w, es).pool) == Live(w.pool)
    ensures w.disk.last == Some(reserved) ==> Happens(w, es).disk == w.disk
    ensures Below(w.disk, reserved) ==> Below(Happens(w, es).disk, reserved)
  {
    if es != [] {
      var before := Happens(w, es[..|es|-1]);
      HappensOrderly(w, es[..|es|-1]);
      HappenOrderly(before, es[|es|-1]);
      ReservedStaysQuiet(w, es[..|es|-1], reserved);
      HappenQuiet(before, es[|es|-1], reserved);
    }
  }

  // --------------------------------------------------- no stale overwrites

  // Every snapshot in flight is one of the given ones, or was taken of the live
  // pool at some later moment under a later generation.
  ghost predicate LaterOrGiven(w: World, es: seq<Event>, s: Snapshot, floor: nat) {
    s.generation <= floor || exists k :: 0 <= k <= |es| && s.image == Live(Happens(w, es[..k]).pool)
  }

  lemma LaterExtends(w: World, es: seq<Event>, s: Snapshot, floor: nat)
    requires es != [] && LaterOrGiven(w, es[..|es|-1], s, floor)
    ensures LaterOrGiven(w, es, s, floor)
  {
    if s.generation > floor {
      var init := es[..|es|-1];
      var k :| 0 <= k <= |init| && s.image == Live(Happens(w, init[..k]).pool);
      assert init[..k] == es[..k];
    }
  }

  // Once every snapshot in flight is older than what is on disk, the file only
  // ever changes to a picture of the pool taken afterwards.
  lemma {:induction false} NoStaleOverwrite(w: World, es: seq<Event>)
    requires w.disk.last.Some? && forall s | s in w.writers :: s.generation <= w.disk.last.value
    ensures var v := Happens(w, es);
            && v.disk.last.Some? && w.disk.last.value <= v.disk.last.value
            && (v.disk.image == w.disk.image || exists k :: 0 <= k <= |es| && v.disk.image == Some(Live(Happens(w, es[..k]).pool)))
            && forall s | s in v.writers :: LaterOrGiven(w, es, s, w.disk.last.value)
  {
    if es != [] {
      var init, e := es[..|es|-1], es[|es|-1];
      NoStaleOverwrite(w, init);
      var u, v := Happens(w, init), Happens(w, es);
      var floor := w.disk.last.value;
      assert es[..|es|] == es;
      forall s | s in v.writers ensures LaterOrGiven(w, es, s, floor) {
        if s in u.writers {
          LaterExtends(w, es, s, floor);
        } else {
          assert s.image == Live(v.pool) && es[..|es|] == es;
        }
      }
      if v.disk.image != w.disk.image {
        if v.disk.image == u.disk.image {
          var k :| 0 <= k <= |init| && u.disk.image == Some(Live(Happens(w, init[..k]).pool));
          assert init[..k] == es[..k];
        } else {
          var s := u.writers[e.index];
          assert s in u.writers;
          LaterExtends(w, es, s, floor);
        }
      }
    }
  }

  // ------------------------------------------ what the bookkeeping ignores

  // Equal but for the persistence bookkeeping.
  ghost predicate Alike(p: Pool, q: Pool) {
    && p.proxies == q.proxies
    && p.stats == q.stats
    && p.cursors == q.cursors
    && p.recheckCursor == q.recheckCursor
    && p.healthGeneration == q.healthGeneration
    && p.routingRevision == q.routingRevision
    && p.statsRevision == q.statsRevision
    && p.activeRevision == q.activeRevision
    && p.cached == q.cached
  }

  lemma AlikeAtStart(p: Pool)
    ensures Ops([]) == [] && Alike(p, Run(p, Ops([])))
  {
  }

  lemma AlikeReplace(p: Pool, q: Pool, i: nat, px: Proxy)
    requires Alike(p, q) && i < |p.proxies|
    ensures Alike(Replace(p, i, px), Replace(q, i, px))
    ensures Alike(Queue(Replace(p, i, px)), Queue(Replace(q, i, px)))
  {
  }

  lemma AlikeObserve(p: Pool, q: Pool, key: Key, reachable: bool, allowed: bool, lat: int, gen: Option<nat>, manual: bool, now: int)
    requires Alike(p, q)
    ensures Alike(ObserveHealth(p, key, reachable, allowed, lat, gen, manual, now), ObserveHealth(q, key, reachable, allowed, lat, gen, manual, now))
  {
    var i := Lookup(p.proxies, key);
    if i.Some? {
      var st' := ObservedStats(StatsFor(p, key), reachable, allowed, lat, manual, now);
      AlikeReplace(p, q, i.value, ObservedNode(p.proxies[i.value], st', reachable, allowed, lat));
    }
  }

  lemma AlikeSetAvailable(p: Pool, q: Pool, key: Key, available: bool)
    requires Alike(p, q)
    ensures Alike(SetAvailable(p, key, available), SetAvailable(q, key, available))
  {
    var i := Lookup(p.proxies, key);
    if i.Some? {
      var px := p.proxies[i.value];
      AlikeReplace(p, q, i.value, px.(available := available && HardRoutable(px)));
    }
  }

  lemma AlikeSetPolicy(p: Pool, q: Pool, key: Key, excluded: bool, gen: nat)
    requires Alike(p, q)
    ensures Alike(SetPolicyExcluded(p, key, excluded, gen), SetPolicyExcluded(q, key, excluded, gen))
  {
    var i := Lookup(p.proxies, key);
    if i.Some? {
      var px, terminal := p.proxies[i.value], StatsFor(p, key).terminal;
      AlikeReplace(p, q, i.value, px.(healthInvalidated := terminal, policyExcluded := excluded,
                                      available := px.available && !excluded && !terminal));
    }
  }

  lemma AlikeMeasure(p: Pool, q: Pool, key: Key, lat: int, kbps: real)
    requires Alike(p, q)
    ensures Alike(UpdateLatency(p, key, lat), UpdateLatency(q, key, lat))
    ensures Alike(UpdateSpeed(p, key, kbps), UpdateSpeed(q, key, kbps))
  {
    var i := Lookup(p.proxies, key);
    if i.Some? {
      AlikeReplace(p, q, i.value, p.proxies[i.value].(latencyMs := lat));
      AlikeReplace(p, q, i.value, p.proxies[i.value].(speedKbps := kbps));
    }
  }

  lemma AlikeCredentials(p: Pool, q: Pool, key: Key, c: Credential, alts: seq<Credential>, gen: nat)
    requires Alike(p, q)
    ensures Alike(UpdateCredentials(p, key, c, alts, gen), UpdateCredentials(q, key, c, alts, gen))
  {
    var i := Lookup(p.proxies, key);
    if i.Some? { AlikeReplace(p, q, i.value, p.proxies[i.value].(credential := c, alternates := alts)); }
  }

  lemma AlikeGeo(p: Pool, q: Pool, key: Key, exitIP: string, country: string, gen: Option<nat>)
    requires Alike(p, q)
    ensures Alike(UpdateGeo(p, key, exitIP, country, gen), UpdateGeo(q, key, exitIP, country, gen))
  {
    var i := Lookup(p.proxies, key);
    if i.Some? {
      var px := p.proxies[i.value].(exitIP := exitIP);
      AlikeReplace(p, q, i.value, if country != "" then px.(country := country) else px);
    }
  }

  lemma AlikeWhole(p: Pool, q: Pool, key: Key, ok: bool, lat: int, on: Enabled)
    requires Alike(p, q)
    ensures Alike(RecordResult(p, key, ok, lat), RecordResult(q, key, ok, lat))
    ensures Alike(InvalidateHealth(p), InvalidateHealth(q))
    ensures Alike(ApplyEnabledSources(p, on), ApplyEnabledSources(q, on))
  {
  }

  lemma SameRefreshedNodes(p: Pool, q: Pool, op: Op)
    requires Alike(p, q) && op.OpRefresh?
    ensures RefreshedNodes(p, op.found, op.failed, op.filtered, op.now) == RefreshedNodes(q, op.found, op.failed, op.filtered, op.now)
  {
    hide FoldFresh, Unreachable, Exclude, AsMap, ByAddr, Keys;
  }

  lemma AlikeRefreshed(p: Pool, q: Pool, op: Op)
    requires Alike(p, q) && op.OpRefresh?
    ensures Alike(Step(p, op), Step(q, op))
  {
    hide RefreshedNodes, FoldFresh, Unreachable, RetireAll, AsMap, CleanCursors, Keys;
    SameRefreshedNodes(p, q, op);
  }

  lemma AlikePromoted(p: Pool, q: Pool, op: Op)
    requires Alike(p, q) && op.OpPromote?
    ensures Alike(Step(p, op), Step(q, op))
  {
    hide MergeFresh, Accepted, AsMap, ByAddr;
  }

  lemma AlikeRefresh(p: Pool, q: Pool, op: Op)
    requires Alike(p, q) && (op.OpRefresh? || op.OpPromote?)
    ensures Alike(Step(p, op), Step(q, op))
  {
    hide *;
    if op.OpRefresh? { AlikeRefreshed(p, q, op); } else { AlikePromoted(p, q, op); }
  }

  lemma AlikeCursor(p: Pool, q: Pool, op: Op)
    requires Alike(p, q) && (op.OpPick? || op.OpForceSticky? || op.OpSetAuto? || op.OpRotate?)
    ensures Alike(Step(p, op), Step(q, op))
  {
    hide Refresh, Promote, DeletePlan, FullCommitPlan, FullCycle, RecordResult, ObserveHealth;
  }

  lemma AlikeStep(p: Pool, q: Pool, op: Op)
    requires Alike(p, q) && Concurrent(op)
    ensures Alike(Step(p, op), Step(q, op))
  {
    match op {
      case OpRecord(key, ok, lat) => AlikeWhole(p, q, key, ok, lat, Enabled({}, {}));
      case OpObserve(key, reachable, allowed, lat, gen, manual, now) => AlikeObserve(p, q, key, reachable, allowed, lat, gen, manual, now);
      case OpLatency(key, lat) => AlikeMeasure(p, q, key, lat, 0.0);
      case OpSetAvailable(key, available) => AlikeSetAvailable(p, q, key, available);
      case OpSetPolicy(key, excluded, gen) => AlikeSetPolicy(p, q, key, excluded, gen);
      case OpInvalidate => AlikeWhole(p, q, Key("", ""), true, 0, Enabled({}, {}));
      case OpCredentials(key, c, alts, gen) => AlikeCredentials(p, q, key, c, alts, gen);
      case OpGeo(key, exitIP, country, gen) => AlikeGeo(p, q, key, exitIP, country, gen);
      case OpSpeed(key, kbps) => AlikeMeasure(p, q, key, 0, kbps);
      case OpEnabledSources(on) => AlikeWhole(p, q, Key("", ""), true, 0, on);
      case OpRefresh(_, _, _, _, _, _) => AlikeRefresh(p, q, op);
      case OpPromote(_, _, _, _, _) => AlikeRefresh(p, q, op);
      case _ => AlikeCursor(p, q, op);
    }
  }

  // Events act on the pool exactly as their operations do.
  lemma {:induction false} HappensAlike(w: World, p: Pool, es: seq<Event>)
    requires Alike(w.pool, p)
    ensures Alike(Happens(w, es).pool, Run(p, Ops(es)))
  {
    if es != [] {
      var init, e := es[..|es|-1], es[|es|-1];
      HappensAlike(w, p, init);
      if e.PoolOp? && Concurrent(e.op) {
        assert Ops(es)[..|Ops(es)|-1] == Ops(init);
        AlikeStep(Happens(w, init).pool, Run(p, Ops(init)), e.op);
      } else {
        assert Ops(es) == Ops(init);
      }
    }
  }

  lemma {:induction false} OpsSplit(a: seq<Event>, b: seq<Event>)
    ensures Ops(a + b) == Ops(a) + Ops(b)
  {
    if b == [] {
      assert a + b == a;
    } else {
      OpsSplit(a, b[..|b|-1]);
      assert (a + b)[..|a + b|-1] == a + b[..|b|-1];
    }
  }

  // --------------------------------------------------------- transactions

  datatype Request =
    | Remove(keys: seq<Key>)
    | ClearUnavailable
    | FullRecheck(observations: seq<Observation>, generation: nat, now: int)

  function PlanOf(p: Pool, req: Request): Plan {
    match req
    case Remove(keys) => DeletePlan(p, set k | k in keys)
    case ClearUnavailable => DeletePlan(p, UnavailableKeys(p))
    case FullRecheck(os, _, now) => FullCommitPlan(p, os, now)
  }

  predicate NothingToDo(p: Pool, req: Request) {
    match req
    case FullRecheck(os, _, now) => FullCycle(p, os, now).seen == {}
    case _ => PlanOf(p, req).removed == []
  }

  // The requested keys that are not in the pool, in the order asked for.
  function NotFound(p: Pool, req: Request): seq<Key> { if req.Remove? then Absent(req.keys, Keys(p.proxies)) else [] }

  function Absent(keys: seq<Key>, present: set<Key>): seq<Key> {
    if keys == [] then [] else Absent(keys[..|keys|-1], present) + if keys[|keys|-1] in present then [] else [keys[|keys|-1]]
  }

  // Every requested key is reported: as removed or as not found.
  lemma {:induction false} EveryKeyReported(p: Pool, keys: seq<Key>)
    ensures forall k | k in keys :: k in NotFound(p, Remove(keys)) <==> k !in PlanOf(p, Remove(keys)).removed
    ensures forall k | k in NotFound(p, Remove(keys)) || k in PlanOf(p, Remove(keys)).removed :: k in keys
  {
    RemovedAre(p.proxies, set k | k in keys);
    AbsentAre(keys, Keys(p.proxies));
  }

  lemma {:induction false} AbsentAre(keys: seq<Key>, present: set<Key>)
    ensures forall k :: k in Absent(keys, present) <==> k in keys && k !in present
  {
    if keys != [] {
      AbsentAre(keys[..|keys|-1], present);
      assert keys == keys[..|keys|-1] + [keys[|keys|-1]];
    }
  }

  lemma {:induction false} AbsentCounts(keys: seq<Key>, present: set<Key>, k: Key)
    ensures multiset(Absent(keys, present))[k] == if k in present then 0 else multiset(keys)[k]
  {
    if keys != [] {
      AbsentCounts(keys[..|keys|-1], present, k);
      assert keys == keys[..|keys|-1] + [keys[|keys|-1]];
    }
  }

  lemma {:induction false} RemovedCounts(s: seq<Proxy>, gone: set<Key>, k: Key)
    requires UniqueKeys(s)
    ensures multiset(RemovedKeys(s, gone))[k] == if k in gone && k in Keys(s) then 1 else 0
  {
    if s != [] {
      var front, last := s[..|s|-1], s[|s|-1];
      assert s == front + [last] && forall i | 0 <= i < |front| :: front[i] == s[i];
      RemovedCounts(front, gone, k);
      assert last.key !in Keys(front);
    }
  }

  // The report names each key exactly once iff no missing key was asked for
  // twice.
  lemma ReportedOnce(p: Pool, keys: seq<Key>)
    requires UniqueKeys(p.proxies)
    ensures var report := PlanOf(p, Remove(keys)).removed + NotFound(p, Remove(keys));
            (forall k | k in keys :: multiset(report)[k] == 1)
            <==> forall k | k in keys && k !in Keys(p.proxies) :: multiset(keys)[k] == 1
  {
    forall k | k in keys
      ensures multiset(RemovedKeys(p.proxies, set x | x in keys))[k] == if k in Keys(p.proxies) then 1 else 0
      ensures multiset(Absent(keys, Keys(p.proxies)))[k] == if k in Keys(p.proxies) then 0 else multiset(keys)[k]
    {
      RemovedCounts(p.proxies, (set x | x in keys), k);
      AbsentCounts(keys, Keys(p.proxies), k);
    }
  }

  lemma PlanFromLive(p: Pool, q: Pool, req: Request)
    requires Live(p) == Live(q)
    ensures PlanOf(p, req).(cursors := map[]) == PlanOf(q, req).(cursors := map[])
    ensures (NothingToDo(p, req) <==> NothingToDo(q, req)) && NotFound(p, req) == NotFound(q, req)
  {
    if req.ClearUnavailable? { assert UnavailableKeys(p) == UnavailableKeys(q); }
  }

  datatype Outcome = Published(removed: seq<Key>, notFound: seq<Key>) | Unchanged(notFound: seq<Key>) | Failed | Retry

  // Disk and memory agree, and nobody holds a snapshot that could displace it.
  ghost predicate Durable(w: World) {
    && w.disk == Disk(Some(Live(w.pool)), Some(w.pool.cacheGeneration))
    && (forall s | s in w.writers :: s.generation < w.pool.cacheGeneration)
    && !w.pool.timer
  }

  // The transaction took effect as one step in pool state at.
  ghost predicate TookEffect(at: Pool, w: World, req: Request, removed: seq<Key>, notFound: seq<Key>) {
    && !NothingToDo(at, req)
    && (req.FullRecheck? ==> at.healthGeneration == req.generation)
    && removed == PlanOf(at, req).removed && notFound == NotFound(at, req)
    && w.pool.proxies == PlanOf(at, req).proxies
    && w.pool.stats == PlanOf(at, req).stats
    && w.pool.healthGeneration == at.healthGeneration
    && w.pool.routingRevision == at.routingRevision + 1
    && w.pool.statsRevision == at.statsRevision + 1
    && w.pool.cached == at.cached
    && (at.cached ==> Durable(w))
  }

  class PoolCache {
    var image: Option<Image>
    var last: Option<nat>

    function Contents(): Disk
      reads this
    {
      Disk(image, last)
    }

    constructor ()
      ensures Contents() == Disk(None, None)
    {
      image, last := None, None;
    }

    method SaveWithHealthState(s: Snapshot, fate: Fate) returns (ok: bool)
      modifies this
      ensures Contents() == Save(old(Contents()), s, fate)
      ensures ok == SaveOk(old(Contents()), s, fate)
    {
      if last.Some? && s.generation <= last.value { return true; }
      if fate == LostBefore { return false; }
      image := Some(s.image);
      if fate == FailedAfterVisible { return false; }
      last := Some(s.generation);
      ok := true;
    }
  }

  const MAX_ATTEMPTS := 4

  class Store {
    const pool: ProxyPool
    const cache: PoolCache
    var writers: seq<Snapshot>

    function W(): World
      reads this, pool, cache
    {
      World(pool.State(), cache.Contents(), writers)
    }

    constructor ()
      ensures fresh(pool) && fresh(cache) && W() == World(EMPTY, Disk(None, None), []) && Orderly(W())
    {
      pool := new ProxyPool();
      cache := new PoolCache();
      writers := [];
    }

    // The other goroutines, while this one holds no lock.
    method Interfere(es: seq<Event>)
      modifies this, pool, cache
      ensures W() == Happens(old(W()), es)
    {
      var w := Happens(W(), es);
      var p := w.pool;
      pool.proxies, pool.stats, pool.cursors, pool.recheckCursor := p.proxies, p.stats, p.cursors, p.recheckCursor;
      pool.healthGeneration, pool.cacheGeneration := p.healthGeneration, p.cacheGeneration;
      pool.routingRevision, pool.statsRevision, pool.activeRevision := p.routingRevision, p.statsRevision, p.activeRevision;
      pool.cached, pool.timer := p.cached, p.timer;
      cache.image, cache.last := w.disk.image, w.disk.last;
      writers := w.writers;
    }

    // A gap: the history of the others' operations grows, ours does not.
    method Gap(gap: seq<Event>, ghost start: Pool, ghost es: seq<Event>) returns (ghost es': seq<Event>)
      requires Orderly(W()) && Alike(pool.State(), Run(start, Ops(es)))
      modifies this, pool, cache
      ensures W() == Happens(old(W()), gap) && Orderly(W())
      ensures es' == es + gap && Alike(pool.State(), Run(start, Ops(es')))
    {
      HappensOrderly(W(), gap);
      HappensAlike(W(), Run(start, Ops(es)), gap);
      OpsSplit(es, gap);
      RunSplit(start, Ops(es), Ops(gap));
      Interfere(gap);
      es' := es + gap;
    }

    // requeuePersistenceAfterDeleteFailure
    method Requeue(generation: nat)
      requires Orderly(W())
      modifies pool
      ensures Orderly(W()) && Alike(pool.State(), old(pool.State()))
      ensures W().disk == old(W().disk) && writers == old(writers)
    {
      if pool.cacheGeneration == generation { pool.QueuePersistence(); }
    }

    // restoreLiveStateToCaches: capture under a new generation, write later.
    method RestoreLive(dirty: bool, gap: seq<Event>, fate: Fate, ghost start: Pool, ghost es: seq<Event>)
      returns (ok: bool, ghost es': seq<Event>)
      requires Orderly(W()) && Alike(pool.State(), Run(start, Ops(es)))
      modifies this, pool, cache
      ensures Orderly(W()) && es <= es' && Alike(pool.State(), Run(start, Ops(es')))
    {
      es' := es;
      if !dirty { return true, es'; }
      pool.cacheGeneration := pool.cacheGeneration + 1;
      var s := Capture(pool.State());
      es' := Gap(gap, start, es);
      HappensOrderly(old(W()).(pool := old(pool.State()).(cacheGeneration := s.generation)), gap);
      ok := cache.SaveWithHealthState(s, fate);
    }

    // Build and reserve; without a cache, publish at once.
    method Attempt(req: Request, gap0: seq<Event>, gap1: seq<Event>, gap2: seq<Event>, fate: Fate, cancelled: nat -> bool,
                   ghost start: Pool, ghost es: seq<Event>)
      returns (r: Outcome, wrote: bool, ghost es': seq<Event>)
      requires Orderly(W()) && Alike(pool.State(), Run(start, Ops(es)))
      modifies this, pool, cache
      ensures Orderly(W()) && es <= es'
      ensures r.Published? ==> TookEffect(Run(start, Ops(es')), W(), req, r.removed, r.notFound)
      ensures !r.Published? ==> Alike(pool.State(), Run(start, Ops(es')))
      ensures r.Unchanged? ==> NothingToDo(Run(start, Ops(es')), req) && r.notFound == NotFound(Run(start, Ops(es')), req)
    {
      hide Run, Ops, PlanOf, CleanCursors, NotFound, NothingToDo;
      wrote := false;
      es' := Gap(gap0, start, es);
      if req.FullRecheck? && (cancelled(0) || pool.healthGeneration != req.generation) { return Failed, wrote, es'; }
      var plan, idle, notFound := Build(req);
      PlanFromLive(pool.State(), Run(start, Ops(es')), req);
      if idle { return Unchanged(notFound), wrote, es'; }
      if !pool.cached {
        pool.PublishDeletePlanLocked(plan);
        return Published(plan.removed, notFound), wrote, es';
      }
      ghost var base := pool.State();
      pool.ReserveGeneration();
      PlanFromLive(base, pool.State(), req);
      ghost var more;
      r, wrote, more := PersistThenPublish(req, plan, notFound, pool.cacheGeneration, gap1, gap2, fate, cancelled, start, es');
      es' := more;
    }

    // Let others run, write, let others run, publish if the reserved generation
    // is still the newest.
    method PersistThenPublish(req: Request, plan: Plan, notFound: seq<Key>, generation: nat, gap1: seq<Event>, gap2: seq<Event>, fate: Fate,
                              cancelled: nat -> bool, ghost start: Pool, ghost es: seq<Event>)
      returns (r: Outcome, wrote: bool, ghost es': seq<Event>)
      requires Orderly(W()) && Alike(pool.State(), Run(start, Ops(es)))
      requires Quiet(W(), generation) && Below(W().disk, generation) && pool.cached
      requires plan.(cursors := map[]) == PlanOf(pool.State(), req).(cursors := map[]) && !NothingToDo(pool.State(), req)
      requires notFound == NotFound(pool.State(), req)
      modifies this, pool, cache
      ensures Orderly(W()) && es <= es'
      ensures r.Published? ==> TookEffect(Run(start, Ops(es')), W(), req, r.removed, r.notFound)
      ensures !r.Published? ==> Alike(pool.State(), Run(start, Ops(es')))
      ensures !r.Unchanged?
    {
      hide Run, Ops, PlanOf;
      ghost var w1 := W();
      wrote := false;
      es' := Gap(gap1, start, es);
      HappensOrderly(w1, gap1);
      if req.FullRecheck? && cancelled(1) {
        Requeue(generation);
        return Failed, wrote, es';
      }
      wrote := true;
      ghost var w2 := W();
      var s := Snapshot(generation, Image(plan.proxies, plan.stats));
      var ok := cache.SaveWithHealthState(s, fate);
      if !ok {
        Requeue(generation);
        return Failed, wrote, es';
      }
      ghost var w3 := W();
      es' := Gap(gap2, start, es');
      if req.FullRecheck? && cancelled(2) { return Failed, wrote, es'; }
      if pool.cacheGeneration != generation { return Retry, wrote, es'; }
      if req.FullRecheck? && pool.healthGeneration != req.generation { return Retry, wrote, es'; }
      PublishSafe(w1, gap1, fate, w3, gap2, s);
      PlanFromLive(w1.pool, pool.State(), req);
      PublishReserved(req, plan, notFound, generation, Run(start, Ops(es')));
      r := Published(plan.removed, notFound);
    }

    method PublishReserved(req: Request, plan: Plan, notFound: seq<Key>, generation: nat, ghost at: Pool)
      requires Orderly(W()) && Alike(pool.State(), at) && Quiet(W(), generation)
      requires plan.(cursors := map[]) == PlanOf(pool.State(), req).(cursors := map[]) && !NothingToDo(pool.State(), req)
      requires (req.FullRecheck? ==> pool.healthGeneration == req.generation) && notFound == NotFound(pool.State(), req)
      requires W().disk == Disk(Some(Image(plan.proxies, plan.stats)), Some(generation))
      modifies pool
      ensures Orderly(W()) && TookEffect(at, W(), req, plan.removed, notFound)
    {
      PlanFromLive(pool.State(), at, req);
      pool.PublishDeletePlanLocked(plan);
    }

    // The two gaps around the write, seen from the publication.
    static lemma PublishSafe(w1: World, gap1: seq<Event>, fate: Fate, w3: World, gap2: seq<Event>, s: Snapshot)
      requires Orderly(w1) && Quiet(w1, s.generation) && Below(w1.disk, s.generation)
      requires var w2 := Happens(w1, gap1);
               SaveOk(w2.disk, s, fate) && w3 == w2.(disk := Save(w2.disk, s, fate))
      requires Happens(w3, gap2).pool.cacheGeneration == s.generation
      ensures var w4 := Happens(w3, gap2);
              && Quiet(w4, s.generation) && Live(w4.pool) == Live(w1.pool)
              && w4.disk == Disk(Some(s.image), Some(s.generation))
    {
      var w2 := Happens(w1, gap1);
      HappensOrderly(w1, gap1);
      HappensOrderly(w3, gap2);
      assert w2.pool.cacheGeneration == s.generation;
      ReservedStaysQuiet(w1, gap1, s.generation);
      ReservedStaysQuiet(w3, gap2, s.generation);
    }

    method Build(req: Request) returns (plan: Plan, idle: bool, notFound: seq<Key>)
      ensures plan == PlanOf(pool.State(), req) && idle == NothingToDo(pool.State(), req) && notFound == NotFound(pool.State(), req)
    {
      notFound := [];
      match req {
        case Remove(keys) =>
          plan := pool.BuildDeletePlanLocked(set k | k in keys);
          notFound := MissingFrom(keys, plan.removed, pool.State());
          idle := plan.removed == [];
        case ClearUnavailable =>
          plan := pool.BuildDeletePlanLocked(UnavailableKeys(pool.State()));
          idle := plan.removed == [];
        case FullRecheck(os, _, now) =>
          var observed;
          plan, observed := pool.BuildFullHealthCommitPlanLocked(os, now);
          idle := observed == 0;
      }
    }

    static method MissingFrom(keys: seq<Key>, removed: seq<Key>, ghost p: Pool) returns (notFound: seq<Key>)
      requires removed == PlanOf(p, Remove(keys)).removed
      ensures notFound == NotFound(p, Remove(keys))
    {
      RemovedAre(p.proxies, set k | k in keys);
      notFound := [];
      for i := 0 to |keys|
        invariant notFound == Absent(keys[..i], Keys(p.proxies))
      {
        assert keys[..i + 1][..i] == keys[..i];
        if keys[i] !in removed { notFound := notFound + [keys[i]]; }
      }
      assert keys[..|keys|] == keys;
    }

    // RemoveKeys, ClearUnavailable and the full-recheck commit.  env gives the
    // other goroutines' operations for every gap, fates the outcome of every
    // write.
    method Transact(req: Request, env: nat -> seq<Event>, fates: nat -> Fate, cancelled: nat -> nat -> bool)
      returns (r: Outcome, ghost es: seq<Event>, ghost seen: nat)
      requires Orderly(W())
      modifies this, pool, cache
      ensures Orderly(W()) && seen <= |es|
      ensures r.Published? ==> TookEffect(Run(old(pool.State()), Ops(es)), W(), req, r.removed, r.notFound)
      ensures !r.Published? ==> Alike(pool.State(), Run(old(pool.State()), Ops(es)))
      ensures r.Unchanged? ==>
                var at := Run(old(pool.State()), Ops(es[..seen])); NothingToDo(at, req) && r.notFound == NotFound(at, req)
      ensures r != Retry
    {
      hide Orderly, Run, Ops, TookEffect, NothingToDo, NotFound, Alike;
      ghost var start := pool.State();
      AlikeAtStart(start);
      es, seen := [], 0;
      var dirty, ok := false, true;
      for attempt := 0 to MAX_ATTEMPTS
        invariant Orderly(W()) && Alike(pool.State(), Run(start, Ops(es)))
        invariant seen == 0
      {
        var wrote;
        r, wrote, es := Attempt(req, env(3 * attempt), env(3 * attempt + 1), env(3 * attempt + 2), fates(attempt), cancelled(attempt), start, es);
        dirty := dirty || wrote;
        match r {
          case Published(_, _) => return;
          case Unchanged(_) =>
            seen := |es|;
            ghost var before := es;
            ok, es := RestoreLive(dirty, env(3 * MAX_ATTEMPTS), fates(MAX_ATTEMPTS), start, es);
            assert es[..seen] == before;
            if !ok { r := Failed; }
            return;
          case Failed =>
            ok, es := RestoreLive(dirty, env(3 * MAX_ATTEMPTS), fates(MAX_ATTEMPTS), start, es);
            return;
          case Retry =>
        }
      }
      ok, es := RestoreLive(dirty, env(3 * MAX_ATTEMPTS), fates(MAX_ATTEMPTS), start, es);
      r := Failed;
    }
  }

  // After a successful transaction the file changes only to later pictures of
  // the live pool.
  lemma DurableStays(w: World, es: seq<Event>)
    requires Durable(w)
    ensures var v := Happens(w, es);
            exists k :: 0 <= k <= |es| && v.disk.image == Some(Live(Happens(w, es[..k]).pool))
  {
    NoStaleOverwrite(w, es);
    var v := Happens(w, es);
    if v.disk.image == w.disk.image {
      assert es[..0] == [] && Happens(w, es[..0]) == w;
    }
  }
}
