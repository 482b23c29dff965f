// What the persisting transactions of the pool (pool.go) have done when they
// report success: which nodes are left and which are gone, in terms of the pool
// they took effect on.
module Transactions {
  import opened Proxies
  import opened Pool
  import opened Persistence
  import opened Health
  import opened HealthOutcomes

  // The nodes that are left are as they were, with their statistics, and no
  // others are left.
  ghost predicate LeftOf(at: Pool, q: Pool, stays: set<Key>) {
    && (forall px :: px in q.proxies <==> px in at.proxies && px.key in stays)
    && (forall k :: k in q.stats <==> k in at.stats && exists px | px in q.proxies :: px.key == k)
    && forall k | k in q.stats :: q.stats[k] == at.stats[k]
  }

  lemma DeletedAre(at: Pool, q: Pool, gone: set<Key>, stays: set<Key>)
    requires q.proxies == DeletePlan(at, gone).proxies && q.stats == DeletePlan(at, gone).stats
    requires forall px | px in at.proxies :: px.key in stays <==> px.key !in gone
    ensures LeftOf(at, q, stays)
  {
    WithoutAre(at.proxies, gone);
  }

  // The keys of the available nodes.
  function UpKeys(s: seq<Proxy>): set<Key> { set px | px in s && px.available :: px.key }

  lemma KeyOfOne(s: seq<Proxy>, a: Proxy, b: Proxy)
    requires UniqueKeys(s) && a in s && b in s && a.key == b.key
    ensures a == b
  {
  }

  // With a cache, the file holds exactly the nodes and statistics left in memory.
  lemma DurableMeans(at: Pool, w: World, req: Request, removed: seq<Key>, notFound: seq<Key>)
    requires TookEffect(at, w, req, removed, notFound) && at.cached
    ensures w.disk.image == Some(Image(w.pool.proxies, w.pool.stats)) && w.disk.last == Some(w.pool.cacheGeneration)
  {
  }

  // ClearUnavailable: the available nodes stay, the others are gone and reported.
  lemma ClearMeans(at: Pool, w: World, removed: seq<Key>, notFound: seq<Key>)
    requires UniqueKeys(at.proxies) && TookEffect(at, w, ClearUnavailable, removed, notFound)
    ensures forall px :: px in w.pool.proxies <==> px in at.proxies && px.available
    ensures LeftOf(at, w.pool, UpKeys(at.proxies))
    ensures forall k :: k in removed <==> exists px | px in at.proxies :: px.key == k && !px.available
    ensures removed != [] && notFound == [] && |w.pool.proxies| + |removed| == |at.proxies|
  {
    var gone := UnavailableKeys(at);
    forall px | px in at.proxies ensures px.key in gone <==> !px.available {
      if px.key in gone {
        var q :| q in at.proxies && !q.available && q.key == px.key;
        KeyOfOne(at.proxies, px, q);
      }
    }
    forall px | px in at.proxies ensures px.key in UpKeys(at.proxies) <==> px.available {
      if px.key in UpKeys(at.proxies) {
        var q :| q in at.proxies && q.available && q.key == px.key;
        KeyOfOne(at.proxies, px, q);
      }
    }
    DeletedAre(at, w.pool, gone, UpKeys(at.proxies));
    RemovedAre(at.proxies, gone);
  }

  // It has nothing to do iff every node is available.
  lemma ClearIdle(at: Pool)
    ensures NothingToDo(at, ClearUnavailable) <==> forall px | px in at.proxies :: px.available
  {
    RemovedAre(at.proxies, UnavailableKeys(at));
    var r := PlanOf(at, ClearUnavailable).removed;
    if r != [] { assert r[0] in r; }
    if px :| px in at.proxies && !px.available { assert px.key in r; }
  }

  // RemoveKeys: the nodes asked for are gone, and reported.
  lemma RemoveMeans(at: Pool, w: World, keys: seq<Key>, removed: seq<Key>, notFound: seq<Key>)
    requires TookEffect(at, w, Remove(keys), removed, notFound)
    ensures forall px :: px in w.pool.proxies <==> px in at.proxies && px.key !in keys
    ensures LeftOf(at, w.pool, Keys(w.pool.proxies))
    ensures forall k :: k in removed <==> k in keys && exists px | px in at.proxies :: px.key == k
    ensures forall k :: k in notFound <==> k in keys && forall px | px in at.proxies :: px.key != k
    ensures removed != [] && |w.pool.proxies| + |removed| == |at.proxies|
  {
    var gone := set k | k in keys;
    WithoutAre(at.proxies, gone);
    forall px | px in at.proxies ensures px.key in Keys(w.pool.proxies) <==> px.key !in gone {
      if px.key in Keys(w.pool.proxies) { var q :| q in w.pool.proxies && q.key == px.key; }
    }
    DeletedAre(at, w.pool, gone, Keys(w.pool.proxies));
    RemovedAre(at.proxies, gone);
    AbsentAre(keys, Keys(at.proxies));
  }

  lemma RemoveIdle(at: Pool, keys: seq<Key>)
    ensures NothingToDo(at, Remove(keys)) <==> forall px | px in at.proxies :: px.key !in keys
  {
    RemovedAre(at.proxies, set k | k in keys);
    var r := PlanOf(at, Remove(keys)).removed;
    if r != [] { assert r[0] in r; }
    if px :| px in at.proxies && px.key in keys { assert px.key in r; }
  }

  // The full recheck: every node is what its first observation says, gone and
  // reported if that was its third unreachable one in a row.
  lemma RecheckMeans(at: Pool, w: World, os: seq<Observation>, gen: nat, now: int, removed: seq<Key>, notFound: seq<Key>, key: Key)
    requires UniqueKeys(at.proxies) && TookEffect(at, w, FullRecheck(os, gen, now), removed, notFound)
    ensures gen == at.healthGeneration && notFound == []
    ensures FirstObservation(os, key) == None || NodeOf(at.proxies, key) == None ==>
              NodeOf(w.pool.proxies, key) == NodeOf(at.proxies, key) && StatsFor(w.pool, key) == StatsFor(at, key) && key !in removed
    ensures FirstObservation(os, key).Some? && NodeOf(at.proxies, key).Some? ==>
              var o := FirstObservation(os, key).value;
              && (key in removed <==> !o.reachable && StatsFor(at, key).fullRecheckFailures >= 2)
              && (NodeOf(w.pool.proxies, key) == None <==> key in removed)
              && (key !in removed ==>
                    Rechecked(NodeOf(at.proxies, key).value, NodeOf(w.pool.proxies, key).value,
                              StatsFor(at, key), StatsFor(w.pool, key), o, now))
  {
    hide RunCycle, FirstObservation, NodeOf, CheckedNode, CheckedStats, Rechecked, CleanCursors, Without;
    var c := FullCycle(at, os, now);
    CycleOfKey(Cycle(at.proxies, at.stats, {}, {}), os, now, key);
    CommitOfKey(at, os, now, key);
    RemovedAre(c.proxies, c.remove);
    NodeOfIn(c.proxies, key);
    if FirstObservation(os, key).Some? && NodeOf(at.proxies, key).Some? {
      CheckedIs(NodeOf(at.proxies, key).value, StatsFor(at, key), FirstObservation(os, key).value, now);
    }
  }

  // It has nothing to do iff it observed no node of the pool.
  lemma {:induction false} RecheckIdle(at: Pool, os: seq<Observation>, gen: nat, now: int)
    requires UniqueKeys(at.proxies)
    ensures NothingToDo(at, FullRecheck(os, gen, now)) <==> forall o | o in os :: NodeOf(at.proxies, o.key) == None
  {
    hide RunCycle, NodeOf, CheckedNode, CheckedStats;
    var start := Cycle(at.proxies, at.stats, {}, {});
    var seen := FullCycle(at, os, now).seen;
    forall o | o in os ensures o.key in seen <==> NodeOf(at.proxies, o.key).Some? {
      CycleOfKey(start, os, now, o.key);
      FirstIs(os, o);
    }
    if k :| k in seen {
      CycleOfKey(start, os, now, k);
      FirstObservationIn(os, k);
    }
  }

  lemma {:induction false} FirstIs(os: seq<Observation>, o: Observation)
    requires o in os
    ensures FirstObservation(os, o.key).Some?
  {
    var init, last := os[..|os|-1], os[|os|-1];
    assert os == init + [last];
    if o in init { FirstIs(init, o); }
  }

  // A group points only at nodes that are left, and keeps what it points at of
  // them; a group that points at none is forgotten.
  lemma CursorsPointAtNodes(at: Pool, gone: set<Key>, name: string)
    requires name in at.cursors
    ensures var c, q := at.cursors[name], DeletePlan(at, gone);
            var sticks := exists px | px in q.proxies :: Some(px.key) == c.stickyKey;
            var picked := exists px | px in q.proxies :: Some(px.key) == c.lastPicked;
            && (name in q.cursors <==> sticks || picked)
            && (name in q.cursors ==>
                  && q.cursors[name].stickyKey == (if sticks then c.stickyKey else None)
                  && q.cursors[name].lastPicked == (if picked then c.lastPicked else None)
                  && q.cursors[name].rrIdx == c.rrIdx
                  && q.cursors[name].pinned == (c.pinned && (sticks || c.stickyKey == None)))
  {
    var c, q := at.cursors[name], DeletePlan(at, gone);
    if c.stickyKey.Some? && c.stickyKey.value in Keys(q.proxies) { var px :| px in q.proxies && px.key == c.stickyKey.value; }
    if c.lastPicked.Some? && c.lastPicked.value in Keys(q.proxies) { var px :| px in q.proxies && px.key == c.lastPicked.value; }
  }
}
