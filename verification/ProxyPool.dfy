// The live pool object (pool.go).  Every method is one critical section or, for
// Pick, RemoveKeys, ClearUnavailable and the full recheck, a sequence of them;
// what other goroutines do between two lock releases is a parameter.
module LivePool {
  import opened Proxies
  import opened Pool
  import opened Selection
  import opened OptimisticPick
  import opened Circular
  import Rotation

  const PICK_ATTEMPTS := 8

  // The operations other goroutines run in the first n gaps.
  ghost function Interference(env: nat -> seq<Op>, n: nat): seq<Op> {
    if n == 0 then [] else Interference(env, n - 1) + env(n - 1)
  }

  lemma GapSplit(p: Pool, env: nat -> seq<Op>, n: nat)
    ensures Run(p, Interference(env, n + 1)) == Run(Run(p, Interference(env, n)), env(n))
  {
    RunSplit(p, Interference(env, n), env(n));
  }

  lemma NoGap(p: Pool, env: nat -> seq<Op>)
    ensures Run(p, Interference(env, 0)) == p
  {
  }

  class ProxyPool {
    var proxies: seq<Proxy>
    var stats: map<Key, Stats>
    var cursors: map<string, Cursor>
    var recheckCursor: Option<Key>
    var healthGeneration: nat
    var cacheGeneration: nat
    var routingRevision: nat
    var statsRevision: nat
    var activeRevision: nat
    var cached: bool
    var timer: bool

    function State(): Pool
      reads this
    {
      Pool(proxies, stats, cursors, recheckCursor, healthGeneration, cacheGeneration,
           routingRevision, statsRevision, activeRevision, cached, timer)
    }

    ghost predicate Valid()
      reads this
    {
      Sorted(proxies)
    }

    constructor ()
      ensures State() == EMPTY && Valid()
    {
      proxies, stats, cursors, recheckCursor := [], map[], map[], None;
      healthGeneration, cacheGeneration, routingRevision, statsRevision, activeRevision := 0, 0, 0, 0, 0;
      cached, timer := false, false;
    }

    // ------------------------------------------------------ health mutators

    method QueuePersistence()
      modifies this`cacheGeneration, this`timer
      ensures State() == Queue(old(State()))
    {
      cacheGeneration := cacheGeneration + 1;
      if cached { timer := true; }
    }

    method ObserveHealthOutcome(key: Key, reachable: bool, allowed: bool, latencyMs: int, gen: Option<nat>, manual: bool, now: int)
      returns (observed: bool)
      modifies this
      ensures State() == ObserveHealth(old(State()), key, reachable, allowed, latencyMs, gen, manual, now)
      ensures observed <==> !Rejected(old(State()), gen) && Lookup(old(proxies), key).Some?
                            && !(reachable && StatsFor(old(State()), key).terminal && !manual)
    {
      if gen.Some? && healthGeneration != gen.value { return false; }
      if key in stats && reachable && stats[key].terminal && !manual { return false; }
      var i := Lookup(proxies, key);
      if i == None { return false; }
      var px, st := ApplyOutcome(proxies[i.value], if key in stats then stats[key] else UNSEEN,
                                 reachable, allowed, latencyMs, manual, now);
      PublishOutcome(i.value, px, key, st);
      observed := true;
    }

    method PublishOutcome(i: nat, px: Proxy, key: Key, st: Stats)
      requires i < |proxies|
      modifies this
      ensures var p1 := Replace(old(State()), i, px);
              State() == Queue(p1.(stats := p1.stats[key := st], statsRevision := p1.statsRevision + 1))
    {
      stats := stats[key := st];
      proxies := proxies[i := px];
      routingRevision := routingRevision + 1;
      statsRevision := statsRevision + 1;
      QueuePersistence();
    }

    static method ApplyOutcome(px0: Proxy, st0: Stats, reachable: bool, allowed: bool, latencyMs: int, manual: bool, now: int)
      returns (px: Proxy, st: Stats)
      ensures st == ObservedStats(st0, reachable, allowed, latencyMs, manual, now)
      ensures px == ObservedNode(px0, st, reachable, allowed, latencyMs)
    {
      px, st := px0, st0;
      if reachable {
        st := st.(healthFailures := 0, lastHealthSuccessAt := Some(now));
        if manual && allowed { st := st.(terminal := false); }
        if latencyMs > 0 { st := st.(lastLatencyMs := latencyMs); }
        px := px.(healthInvalidated := st.terminal, policyExcluded := !allowed);
        px := px.(available := allowed && !px.sourceRetired && !st.terminal, latencyMs := latencyMs);
      } else {
        px := px.(healthInvalidated := true, available := false, policyExcluded := false);
        st := st.(healthFailures := st.healthFailures + 1, terminal := true);
      }
    }

    method Invalidate() returns (changed: nat)
      modifies this
      ensures State() == InvalidateHealth(old(State()))
      ensures changed == |Available(old(proxies))|
    {
      healthGeneration := healthGeneration + 1;
      changed := InvalidateNodes();
      routingRevision := routingRevision + 1;
      QueuePersistence();
    }

    static lemma InvalidatedStep(before: seq<Proxy>, stats: map<Key, Stats>, i: nat)
      requires i < |before|
      ensures InvalidatedNodes(before[..i + 1]) + before[i + 1..]
           == (InvalidatedNodes(before[..i]) + before[i..])[i := before[i].(healthInvalidated := true, available := false)]
      ensures var k := before[i].key;
              var done, next := InvalidatedStats(stats, Keys(before[..i])), InvalidatedStats(stats, Keys(before[..i + 1]));
              if k in done
              then next == done[k := done[k].(healthFailures := 0, fullRecheckFailures := 0, lastHealthSuccessAt := None)]
              else next == done
    {
      assert before[..i + 1] == before[..i] + [before[i]];
      assert Keys(before[..i + 1]) == Keys(before[..i]) + {before[i].key};
    }

    static lemma NothingInvalidated(s: seq<Proxy>, stats: map<Key, Stats>)
      ensures InvalidatedNodes(s[..0]) + s[0..] == s && InvalidatedStats(stats, Keys(s[..0])) == stats && Available(s[..0]) == []
    {
    }

    // Walk the pool once, resetting every node and its failure streaks.
    method InvalidateNodes() returns (changed: nat)
      modifies this`proxies, this`stats
      ensures proxies == InvalidatedNodes(old(proxies))
      ensures stats == InvalidatedStats(old(stats), Keys(old(proxies)))
      ensures changed == |Available(old(proxies))|
    {
      hide InvalidatedNodes, InvalidatedStats, Available, Keys;
      changed := 0;
      ghost var before, statsBefore := proxies, stats;
      NothingInvalidated(before, statsBefore);
      for i := 0 to |proxies|
        invariant |proxies| == |before|
        invariant proxies == InvalidatedNodes(before[..i]) + before[i..]
        invariant stats == InvalidatedStats(statsBefore, Keys(before[..i]))
        invariant changed == |Available(before[..i])|
      {
        var px := proxies[i];
        InvalidatedStep(before, statsBefore, i);
        AvailableAppend(before[..i], px);
        assert before[..i + 1] == before[..i] + [px];
        if px.available { changed := changed + 1; }
        proxies := proxies[i := px.(healthInvalidated := true, available := false)];
        if px.key in stats {
          stats := stats[px.key := stats[px.key].(healthFailures := 0, fullRecheckFailures := 0, lastHealthSuccessAt := None)];
        }
      }
      assert before[..|before|] == before;
    }

    static lemma RetireStep(before: seq<Proxy>, on: Enabled, i: nat)
      requires i < |before|
      ensures RetireAll(before[..i + 1], on) + before[i + 1..] == (RetireAll(before[..i], on) + before[i..])[i := Retire(before[i], on)]
      ensures RetireAll(before[..i + 1], on) == before[..i + 1]
              <==> RetireAll(before[..i], on) == before[..i] && Retire(before[i], on) == before[i]
    {
      assert before[..i + 1] == before[..i] + [before[i]];
      assert RetireAll(before[..i + 1], on) == RetireAll(before[..i], on) + [Retire(before[i], on)];
      var a, b := RetireAll(before[..i + 1], on), before[..i + 1];
      assert a == b ==> a[..i] == b[..i] && a[i] == b[i];
    }

    // The nodes that a source check changes, by their place in the pool.
    static function NewlyRetired(s: seq<Proxy>, on: Enabled): set<nat> { set i: nat | i < |s| && Retire(s[i], on) != s[i] }

    static lemma NewlyRetiredStep(s: seq<Proxy>, on: Enabled, i: nat)
      requires i < |s|
      ensures |NewlyRetired(s[..i + 1], on)| == |NewlyRetired(s[..i], on)| + if Retire(s[i], on) != s[i] then 1 else 0
    {
      assert NewlyRetired(s[..i + 1], on) == NewlyRetired(s[..i], on) + if Retire(s[i], on) != s[i] then {i} else {};
    }

    method RetireSources(on: Enabled) returns (retired: nat, changed: bool)
      modifies this`proxies
      ensures proxies == RetireAll(old(proxies), on) && retired == |NewlyRetired(old(proxies), on)|
      ensures changed <==> RetireAll(old(proxies), on) != old(proxies)
    {
      retired, changed := 0, false;
      ghost var before := proxies;
      assert RetireAll(before[..0], on) + before[0..] == before && NewlyRetired(before[..0], on) == {};
      for i := 0 to |proxies|
        invariant |proxies| == |before|
        invariant proxies == RetireAll(before[..i], on) + before[i..]
        invariant changed <==> RetireAll(before[..i], on) != before[..i]
        invariant retired == |NewlyRetired(before[..i], on)|
      {
        var px := proxies[i];
        RetireStep(before, on, i);
        NewlyRetiredStep(before, on, i);
        if Owned(px) && !AllEnabled(px, on) {
          if !px.sourceRetired || px.available { retired, changed := retired + 1, true; }
          proxies := proxies[i := px.(sourceRetired := true, available := false)];
        }
      }
      assert before[..|before|] == before;
      assert RetireAll(before, on) + before[|before|..] == RetireAll(before, on);
    }

    method ApplySources(on: Enabled) returns (retired: nat)
      modifies this
      ensures State() == ApplyEnabledSources(old(State()), on) && retired == |NewlyRetired(old(proxies), on)|
    {
      var changed;
      retired, changed := RetireSources(on);
      if changed {
        routingRevision := routingRevision + 1;
        QueuePersistence();
      }
    }

    // --------------------------------------------------------- interference

    // What other goroutines do while this one holds no lock.
    method Interfere(ops: seq<Op>)
      requires Valid()
      modifies this
      ensures State() == Run(old(State()), ops) && Valid()
    {
      var p := Run(State(), ops);
      RunSorted(State(), ops);
      proxies, stats, cursors, recheckCursor := p.proxies, p.stats, p.cursors, p.recheckCursor;
      healthGeneration, cacheGeneration := p.healthGeneration, p.cacheGeneration;
      routingRevision, statsRevision, activeRevision := p.routingRevision, p.statsRevision, p.activeRevision;
      cached, timer := p.cached, p.timer;
    }

    // ------------------------------------------------------------------ pick

    // Write the cursor a successful pick leaves behind.
    method CommitCursor(name: string, strategy: Strategy, chosen: Key, preservePin: bool)
      modifies this`cursors, this`activeRevision
      ensures State() == CommitPick(old(State()), name, strategy, chosen, preservePin)
    {
      var gc := if name in cursors then cursors[name] else NO_CURSOR;
      var oldStickyKey := gc.stickyKey;
      if strategy == RoundRobin { gc := gc.(rrIdx := gc.rrIdx + 1); }
      if strategy == Sticky && !preservePin { gc := gc.(stickyKey := Some(chosen)); }
      gc := gc.(lastPicked := Some(chosen));
      cursors := cursors[name := gc];
      if IsAny(name) && gc.stickyKey != oldStickyKey { activeRevision := activeRevision + 1; }
    }

    // One optimistic attempt: scan, let others run, commit if nothing moved.
    method PickAttempt(name: string, sel: Selector, exclude: set<Key>, random: nat, gap: seq<Op>)
      returns (done: bool, r: Selected)
      requires Valid()
      modifies this
      ensures Valid()
      ensures done && r.NoNode? ==>
                State() == old(State())
                && IsSelection(proxies, stats, sel, CursorOf(State(), name), exclude, random, r)
      ensures done && r.Chosen? ==>
                var now := Run(old(State()), gap);
                && IsSelection(now.proxies, now.stats, sel, CursorOf(now, name), exclude, random, r)
                && State() == CommitPick(now, name, StrategyOf(sel), r.proxy.key, r.preservePin)
      ensures !done ==> State() == Run(old(State()), gap)
    {
      ghost var scan := State();
      var seenRouting, seenStats := routingRevision, statsRevision;
      var cursor := if name in cursors then cursors[name] else NO_CURSOR;
      r := SelectProxyLocked(proxies, stats, sel, cursor, exclude, random);
      if r.NoNode? { return true, r; }
      Interfere(gap);
      if routingRevision != seenRouting || (StrategyOf(sel) == ByScore && statsRevision != seenStats) { return false, r; }
      var gc := if name in cursors then cursors[name] else NO_CURSOR;
      if StrategyOf(sel) == RoundRobin && gc.rrIdx != cursor.rrIdx { return false, r; }
      if StrategyOf(sel) == Sticky && (gc.stickyKey != cursor.stickyKey || gc.pinned != cursor.pinned) { return false, r; }
      SelectionTransfers(scan, gap, name, sel, exclude, random, r);
      var index := Lookup(proxies, r.proxy.key);
      if index == None || !SelectableAtCommit(proxies, proxies[index.value], sel, exclude) { return false, r; }
      CommitCursor(name, StrategyOf(sel), r.proxy.key, r.preservePin);
      done := true;
    }

    // pick: up to eight optimistic attempts, then one under the write lock.
    // env(2a) runs before attempt a scans, env(2a+1) between its scan and its
    // commit.  Whatever the others do, the call behaves as one locked selection
    // in the state of some moment of the call, followed by the cursor update.
    method Pick(name: string, sel: Selector, exclude: set<Key>, random: nat -> nat, env: nat -> seq<Op>)
      returns (r: Selected, ghost gaps: nat, ghost draw: nat)
      requires Valid()
      modifies this
      ensures Valid()
      ensures gaps <= 2 * PICK_ATTEMPTS + 1
      ensures var at := Run(old(State()), Interference(env, gaps));
              && IsSelection(at.proxies, at.stats, sel, CursorOf(at, name), exclude, draw, r)
              && State() == if r.NoNode? then at else CommitPick(at, name, StrategyOf(sel), r.proxy.key, r.preservePin)
    {
      hide IsSelection, CommitPick, Run, Interference, UniqueKeys;
      ghost var start := State();
      NoGap(start, env);
      gaps := 0;
      for attempt := 0 to PICK_ATTEMPTS
        invariant Valid()
        invariant gaps == 2 * attempt
        invariant State() == Run(start, Interference(env, gaps))
      {
        GapSplit(start, env, gaps);
        Interfere(env(2 * attempt));
        GapSplit(start, env, gaps + 1);
        draw := random(attempt);
        var done;
        done, r := PickAttempt(name, sel, exclude, random(attempt), env(2 * attempt + 1));
        if done {
          gaps := if r.NoNode? then gaps + 1 else gaps + 2;
          return;
        }
        gaps := gaps + 2;
      }
      GapSplit(start, env, gaps);
      Interfere(env(2 * PICK_ATTEMPTS));
      gaps := gaps + 1;
      draw := random(PICK_ATTEMPTS);
      var cursor := if name in cursors then cursors[name] else NO_CURSOR;
      r := SelectProxyLocked(proxies, stats, sel, cursor, exclude, random(PICK_ATTEMPTS));
      if r.Chosen? { CommitCursor(name, StrategyOf(sel), r.proxy.key, r.preservePin); }
    }

    // ---------------------------------------------- detached mutation plans

    method ReserveGeneration()
      modifies this`cacheGeneration, this`timer
      ensures State() == Reserve(old(State()))
    {
      if cached {
        timer := false;
        cacheGeneration := cacheGeneration + 1;
      }
    }

    // The nodes, statistics and cursors that remain without some keys.
    method BuildDeletePlanLocked(gone: set<Key>) returns (plan: Plan)
      ensures plan == DeletePlan(State(), gone)
    {
      var kept, removed := [], [];
      for i := 0 to |proxies|
        invariant kept == Without(proxies[..i], gone) && removed == RemovedKeys(proxies[..i], gone)
      {
        assert proxies[..i + 1][..i] == proxies[..i];
        if proxies[i].key in gone {
          removed := removed + [proxies[i].key];
        } else {
          kept := kept + [proxies[i]];
        }
      }
      assert proxies[..|proxies|] == proxies;
      plan := Plan(kept, RestrictStats(stats, Keys(kept)), CleanCursors(cursors, Keys(kept)), removed);
    }

    // One exhaustive cycle applied to detached copies of the live state.
    method RunFullCycle(os: seq<Observation>, now: int) returns (c: Cycle)
      ensures c == FullCycle(State(), os, now)
    {
      c := Cycle(proxies, stats, {}, {});
      ghost var start := c;
      for n := 0 to |os|
        invariant c == RunCycle(start, os[..n], now)
      {
        var o := os[n];
        assert os[..n + 1][..n] == os[..n];
        var i := Lookup(c.proxies, o.key);
        if o.key in c.seen || i == None { continue; }
        var st := if o.key in c.stats then c.stats[o.key] else UNSEEN;
        var px, st', removed := ApplyObservation(c.proxies[i.value], st, o, now);
        c := Cycle(c.proxies[i.value := px], c.stats[o.key := st'], c.seen + {o.key},
                   if removed then c.remove + {o.key} else c.remove);
      }
      assert os[..|os|] == os;
    }

    static method ApplyObservation(px0: Proxy, st0: Stats, o: Observation, now: int) returns (px: Proxy, st: Stats, removed: bool)
      ensures px == CheckedNode(px0, o) && st == CheckedStats(st0, o, now)
      ensures removed <==> !o.reachable && st.fullRecheckFailures >= FULL_RECHECK_REMOVAL_THRESHOLD
    {
      px, st, removed := px0, st0, false;
      if o.credentials.Some? { px := px.(credential := o.credentials.value.0, alternates := o.credentials.value.1); }
      if o.exitIP != "" {
        px := px.(exitIP := o.exitIP);
        if o.country != "" { px := px.(country := o.country); }
      }
      if o.reachable {
        st := st.(healthFailures := 0, fullRecheckFailures := 0, lastHealthSuccessAt := Some(now), terminal := false);
        if o.latencyMs > 0 { st := st.(lastLatencyMs := o.latencyMs); }
        px := px.(healthInvalidated := false, policyExcluded := !o.allowed);
        px := px.(available := o.allowed && !px.sourceRetired, latencyMs := o.latencyMs);
      } else {
        st := st.(healthFailures := st.healthFailures + 1, fullRecheckFailures := st.fullRecheckFailures + 1, terminal := true);
        px := px.(healthInvalidated := true, available := false, policyExcluded := false);
        removed := st.fullRecheckFailures >= FULL_RECHECK_REMOVAL_THRESHOLD;
      }
    }

    method BuildFullHealthCommitPlanLocked(os: seq<Observation>, now: int) returns (plan: Plan, observed: nat)
      ensures plan == FullCommitPlan(State(), os, now)
      ensures observed == |FullCycle(State(), os, now).seen|
    {
      var c := RunFullCycle(os, now);
      observed := |c.seen|;
      if c.remove == {} { return Plan(c.proxies, c.stats, cursors, []), observed; }
      var kept, removed := [], [];
      for i := 0 to |c.proxies|
        invariant kept == Without(c.proxies[..i], c.remove) && removed == RemovedKeys(c.proxies[..i], c.remove)
      {
        assert c.proxies[..i + 1][..i] == c.proxies[..i];
        if c.proxies[i].key in c.remove {
          removed := removed + [c.proxies[i].key];
        } else {
          kept := kept + [c.proxies[i]];
        }
      }
      assert c.proxies[..|c.proxies|] == c.proxies;
      plan := Plan(kept, c.stats - c.remove, CleanCursors(cursors, Keys(kept)), removed);
    }

    method PublishDeletePlanLocked(plan: Plan)
      modifies this
      ensures State() == Publish(old(State()), plan)
    {
      proxies, stats, cursors := plan.proxies, plan.stats, plan.cursors;
      routingRevision := routingRevision + 1;
      statsRevision := statsRevision + 1;
    }

    // -------------------------------------------------------------- rotation

    // Walk the ring once from just behind the anchor to the next landing node.
    method NextFrom(healthy: bool, sticky: Option<Key>) returns (next: Option<nat>)
      requires proxies != []
      ensures var e := Rotation.Landing(proxies, healthy);
              && (next == None <==> Rank(e, |proxies|) == 0)
              && (next.Some? ==> next.value < |proxies| && next.value == Rotation.RotationTarget(proxies, healthy, sticky))
    {
      hide Rank, Nth, Mod;
      var n := |proxies|;
      var anchor := if sticky == None then None else Lookup(proxies, sticky.value);
      ghost var e, start := Rotation.Landing(proxies, healthy), Rotation.RotationStart(proxies, sticky);
      if anchor.Some? { SmallMod(anchor.value + 1, n); }
      for offset := 0 to n
        invariant Window(e, n, start, offset) == 0
      {
        var i := if anchor == None then offset else Mod(anchor.value + 1 + offset, n);
        WindowStep(e, n, start, offset);
        assert i == Mod(start + offset, n) by { RingIndex(anchor, start, offset, n); }
        if HardRoutable(proxies[i]) && (healthy ==> proxies[i].available) { return Some(i); }
      }
      WindowWhole(e, n, start);
      next := None;
    }

    static lemma RingIndex(anchor: Option<nat>, start: nat, offset: nat, n: nat)
      requires offset < n && (anchor.Some? ==> anchor.value < n)
      requires start == if anchor == None then 0 else Mod(anchor.value + 1, n)
      ensures Mod(start + offset, n) == if anchor == None then offset else Mod(anchor.value + 1 + offset, n)
    {
      if anchor == None {
        SmallMod(offset, n);
      } else {
        SmallMod(anchor.value + 1, n);
        SmallMod(start, n);
        ModAdd(anchor.value + 1, start, offset, n);
      }
    }

    // rotateSticky: move a group to its next node; a pinned group only when
    // forced.
    method RotateSticky(name: string, force: bool) returns (moved: Option<Proxy>)
      requires Valid()
      modifies this`cursors, this`activeRevision
      ensures var gc := CursorOf(old(State()), name);
              var healthy := Rotation.OnlyHealthy(proxies, name);
              var e := Rotation.Landing(proxies, healthy);
              && (moved.Some? <==> proxies != [] && (force || !gc.pinned) && Rank(e, |proxies|) > 0)
              && (moved.Some? ==>
                    var i := Rotation.RotationTarget(proxies, healthy, gc.stickyKey);
                    && i < |proxies| && moved.value == proxies[i]
                    && State() == SetCursor(old(State()), name,
                                            gc.(stickyKey := Some(proxies[i].key), lastPicked := Some(proxies[i].key))))
              && (moved == None ==> CursorOf(State(), name) == gc && activeRevision == old(activeRevision))
    {
      hide Rank, Rotation.Landing, Rotation.RotationTarget, Rotation.OnlyHealthy;
      if proxies == [] { return None; }
      var gc := if name in cursors then cursors[name] else NO_CURSOR;
      if name !in cursors { cursors := cursors[name := gc]; }
      if gc.pinned && !force { return None; }
      var healthy := Rotation.OnlyHealthy(proxies, name);
      var next := NextFrom(healthy, gc.stickyKey);
      if next == None { return None; }
      var px := proxies[next.value];
      cursors := cursors[name := gc.(stickyKey := Some(px.key), lastPicked := Some(px.key))];
      if IsAny(name) && Some(px.key) != gc.stickyKey { activeRevision := activeRevision + 1; }
      moved := Some(px);
    }

    // RecheckCandidates: the next due nodes, at most limit of them, and the
    // cursor moved past everything that was looked at.
    method RecheckCandidates(limit: int, now: int) returns (batch: seq<nat>)
      requires Valid()
      modifies this`recheckCursor
      ensures limit <= 0 || proxies == [] ==> batch == [] && recheckCursor == old(recheckCursor)
      ensures limit > 0 && proxies != [] ==>
                var e := Rotation.Due(proxies, stats, now);
                var start := Rotation.RecheckStart(proxies, old(recheckCursor));
                && Rotation.Batch(e, |proxies|, start, limit, batch)
                && StartsAt(e, |proxies|, Rotation.RecheckStart(proxies, recheckCursor), Rank(e, start) + |batch|)
    {
      hide Rank, Nth, Mod, Met, Rotation.Due, Rotation.Batch, StartsAt, Rotation.RecheckStart;
      batch := [];
      if limit <= 0 || proxies == [] { return; }
      var start := FindStart(recheckCursor);
      var last;
      ghost var next;
      batch, last, next := ScanDue(start, limit, now);
      recheckCursor := Some(proxies[last].key);
      StartBehindLast(proxies, last);
    }

    // The slot behind the cursor's node, or the front.
    method FindStart(cursor: Option<Key>) returns (start: nat)
      requires proxies != []
      ensures start == Rotation.RecheckStart(proxies, cursor) < |proxies|
    {
      start := 0;
      if cursor.Some? {
        var at := Lookup(proxies, cursor.value);
        if at.Some? {
          SmallMod(at.value + 1, |proxies|);
          start := Mod(at.value + 1, |proxies|);
        }
      }
    }

    static lemma StartBehindLast(s: seq<Proxy>, last: nat)
      requires Sorted(s) && last < |s|
      ensures Rotation.RecheckStart(s, Some(s[last].key)) == Mod(last + 1, |s|)
    {
      SortedIsUnique(s);
      Rotation.LookupAt(s, last);
    }

    method ScanDue(start: nat, limit: nat, now: int) returns (batch: seq<nat>, last: nat, ghost next: nat)
      requires start < |proxies| && limit > 0
      ensures last < |proxies| && next == Mod(last + 1, |proxies|)
      ensures var e := Rotation.Due(proxies, stats, now);
              && Rotation.Batch(e, |proxies|, start, limit, batch)
              && StartsAt(e, |proxies|, next, Rank(e, start) + |batch|)
    {
      hide Rank, Nth, Mod, Met;
      var n := |proxies|;
      ghost var e := Rotation.Due(proxies, stats, now);
      var scanned;
      batch, scanned, last := [], 0, start;
      while scanned < n && |batch| < limit
        invariant scanned <= n && |batch| == Window(e, n, start, scanned) <= limit
        invariant Rotation.Meets(e, n, Rank(e, start), batch)
        invariant last < n && (scanned > 0 ==> last == Mod(start + scanned - 1, n))
        invariant |batch| == limit ==> scanned > 0 && last == batch[|batch|-1]
      {
        last := Mod(start + scanned, n);
        WindowStep(e, n, start, scanned);
        if Rotation.IsDue(proxies[last], stats, now) {
          Rotation.MeetsAppend(e, n, Rank(e, start), batch, last);
          batch := batch + [last];
        }
        scanned := scanned + 1;
      }
      next := BatchDone(e, n, start, limit, batch, scanned, last);
    }

    static lemma BatchDone(e: nat -> bool, n: nat, start: nat, limit: nat, batch: seq<nat>, scanned: nat, last: nat) returns (next: nat)
      requires start < n && limit > 0 && 0 < scanned <= n && |batch| == Window(e, n, start, scanned) <= limit
      requires scanned == n || |batch| == limit
      requires Rotation.Meets(e, n, Rank(e, start), batch)
      requires last == Mod(start + scanned - 1, n)
      requires |batch| == limit ==> last == batch[|batch|-1]
      ensures next == Mod(last + 1, n)
      ensures Rotation.Batch(e, n, start, limit, batch)
      ensures StartsAt(e, n, next, Rank(e, start) + |batch|)
    {
      WindowWhole(e, n, start);
      WindowBound(e, n, start, scanned);
      Rotation.BatchAdvances(e, n, start, limit, batch);
      next := Mod(last + 1, n);
      if |batch| < limit { assert next == start by { RingBack(start, n); } }
    }

    static lemma RingBack(start: nat, n: nat)
      requires start < n
      ensures Mod(Mod(start + n - 1, n) + 1, n) == start
    {
      SmallMod(start + n - 1, n);
      if start == 0 { SmallMod(n, n); } else { SmallMod(start, n); }
    }

    static lemma WindowBound(e: nat -> bool, n: nat, start: nat, w: nat)
      requires start < n && w <= n
      ensures Window(e, n, start, w) <= Rank(e, n)
    {
      if start + w <= n {
        RankMono(e, start + w, n);
      } else {
        RankMono(e, start + w - n, start);
      }
    }
  }
}
