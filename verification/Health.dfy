// Health over whole runs (pool.go).  From an empty pool, over every sequence of
// production operations: availability is exactly the absence of hard exclusions,
// no terminal failure is routable, only results of the current health generation
// can make a node available, and the full-recheck counter counts what it should.
module Health {
  import opened Proxies
  import opened Pool

  function NodeOf(s: seq<Proxy>, key: Key): Option<Proxy> {
    var i := Lookup(s, key);
    if i.Some? then Some(s[i.value]) else None
  }

  lemma NodeOfIs(s: seq<Proxy>, px: Proxy)
    requires UniqueKeys(s) && px in s
    ensures NodeOf(s, px.key) == Some(px)
  {
    var i :| 0 <= i < |s| && s[i] == px;
    var j := Lookup(s, px.key).value;
    assert i == j;
  }

  lemma NodeOfIn(s: seq<Proxy>, key: Key)
    ensures key in Keys(s) <==> NodeOf(s, key).Some?
    ensures NodeOf(s, key).Some? ==> NodeOf(s, key).value in s && NodeOf(s, key).value.key == key
  {
    if key in Keys(s) {
      var px :| px in s && px.key == key;
    }
  }

  // What production runs: every automatic or manual observation, refresh,
  // promotion and full recheck carries the health generation it was measured
  // under, and a refresh always reconciles the enabled sources.
  predicate Production(op: Op) {
    match op
    case OpObserve(_, _, _, _, gen, _, _) => gen.Some?
    case OpRefresh(_, _, _, on, gen, _) => gen.Some? && on.Some?
    case OpSetAvailable(_, _) => false
    case OpSetPolicy(_, _, _) => false
    case _ => true
  }

  predicate AllProduction(ops: seq<Op>) { forall op | op in ops :: Production(op) }

  predicate NodeOk(px: Proxy, st: Stats) {
    && (px.available <==> HardRoutable(px))
    && (st.terminal ==> !HardRoutable(px))
  }

  ghost predicate Healthy(p: Pool) {
    && Sorted(p.proxies)
    && forall px | px in p.proxies :: NodeOk(px, StatsFor(p, px.key))
  }

  // ------------------------------------------------------------ full cycles

  function FirstObservation(os: seq<Observation>, key: Key): Option<Observation> {
    if os == [] then None
    else
      var r := FirstObservation(os[..|os|-1], key);
      if r.Some? then r else if os[|os|-1].key == key then Some(os[|os|-1]) else None
  }

  function CycleStats(c: Cycle, key: Key): Stats { if key in c.stats then c.stats[key] else UNSEEN }

  lemma ReplaceNode(s: seq<Proxy>, i: nat, px: Proxy, key: Key)
    requires UniqueKeys(s) && i < |s| && px.key == s[i].key
    ensures UniqueKeys(s[i := px])
    ensures NodeOf(s[i := px], key) == if key == px.key then Some(px) else NodeOf(s, key)
  {
    var t := s[i := px];
    assert UniqueKeys(t);
    if key == px.key {
      assert t[i] == px;
      NodeOfIs(t, px);
    } else if Lookup(s, key).Some? {
      var j := Lookup(s, key).value;
      assert t[j] == s[j] && s[j] in t;
      NodeOfIs(t, s[j]);
    }
  }

  // What a cycle has done to one key, given its first observation so far.
  ghost predicate CycleAt(c0: Cycle, c: Cycle, first: Option<Observation>, now: int, key: Key) {
    if NodeOf(c0.proxies, key) == None || first == None
    then
      && NodeOf(c.proxies, key) == NodeOf(c0.proxies, key)
      && CycleStats(c, key) == CycleStats(c0, key) && (key in c.stats <==> key in c0.stats)
      && key !in c.seen && key !in c.remove
    else
      && NodeOf(c.proxies, key) == Some(CheckedNode(NodeOf(c0.proxies, key).value, first.value))
      && key in c.stats && CycleStats(c, key) == CheckedStats(CycleStats(c0, key), first.value, now)
      && key in c.seen
      && (key in c.remove <==>
            !first.value.reachable && CycleStats(c0, key).fullRecheckFailures + 1 >= FULL_RECHECK_REMOVAL_THRESHOLD)
  }

  lemma OtherKeyUntouched(c: Cycle, o: Observation, now: int, key: Key)
    requires UniqueKeys(c.proxies) && o.key != key
    ensures var c' := CycleStep(c, o, now);
            && UniqueKeys(c'.proxies)
            && NodeOf(c'.proxies, key) == NodeOf(c.proxies, key)
            && CycleStats(c', key) == CycleStats(c, key) && (key in c'.stats <==> key in c.stats)
            && (key in c'.seen <==> key in c.seen) && (key in c'.remove <==> key in c.remove)
  {
    var i := Lookup(c.proxies, o.key);
    if i.Some? { ReplaceNode(c.proxies, i.value, CheckedNode(c.proxies[i.value], o), key); }
  }

  lemma ThisKeyStep(c0: Cycle, c: Cycle, first: Option<Observation>, o: Observation, now: int)
    requires UniqueKeys(c.proxies) && CycleAt(c0, c, first, now, o.key)
    ensures var c' := CycleStep(c, o, now);
            UniqueKeys(c'.proxies) && CycleAt(c0, c', if first.Some? then first else Some(o), now, o.key)
  {
    var i := Lookup(c.proxies, o.key);
    if i.Some? { ReplaceNode(c.proxies, i.value, CheckedNode(c.proxies[i.value], o), o.key); }
  }

  // What one completed cycle does to one key: exactly what its first
  // observation says, later duplicates being ignored.
  lemma {:induction false} CycleOfKey(c0: Cycle, os: seq<Observation>, now: int, key: Key)
    requires UniqueKeys(c0.proxies) && c0.seen == {} && c0.remove == {}
    ensures UniqueKeys(RunCycle(c0, os, now).proxies)
    ensures CycleAt(c0, RunCycle(c0, os, now), FirstObservation(os, key), now, key)
  {
    if os != [] {
      var init, o := os[..|os|-1], os[|os|-1];
      CycleOfKey(c0, init, now, key);
      var c := RunCycle(c0, init, now);
      if o.key == key {
        ThisKeyStep(c0, c, FirstObservation(init, key), o, now);
      } else {
        OtherKeyUntouched(c, o, now, key);
      }
    }
  }

  lemma CommitOfKey(p: Pool, os: seq<Observation>, now: int, key: Key)
    requires UniqueKeys(p.proxies)
    ensures var c := FullCycle(p, os, now);
            var plan := FullCommitPlan(p, os, now);
            && UniqueKeys(plan.proxies)
            && (key in c.remove ==> NodeOf(plan.proxies, key) == None && key !in plan.stats)
            && (key !in c.remove ==>
                  && NodeOf(plan.proxies, key) == NodeOf(c.proxies, key)
                  && (if key in plan.stats then plan.stats[key] else UNSEEN) == CycleStats(c, key))
  {
    var c := FullCycle(p, os, now);
    CycleOfKey(Cycle(p.proxies, p.stats, {}, {}), os, now, key);
    WithoutOfKey(c.proxies, c.remove, key);
  }

  lemma WithoutOfKey(s: seq<Proxy>, gone: set<Key>, key: Key)
    requires UniqueKeys(s)
    ensures UniqueKeys(Without(s, gone))
    ensures NodeOf(Without(s, gone), key) == if key in gone then None else NodeOf(s, key)
  {
    WithoutUnique(s, gone);
    WithoutAre(s, gone);
    NodeOfIn(s, key);
    NodeOfIn(Without(s, gone), key);
    if key !in gone && NodeOf(s, key).Some? {
      NodeOfIs(Without(s, gone), NodeOf(s, key).value);
    }
  }

  lemma {:induction false} WithoutUnique(s: seq<Proxy>, gone: set<Key>)
    requires UniqueKeys(s)
    ensures UniqueKeys(Without(s, gone))
  {
    if s != [] {
      var init, last := s[..|s|-1], s[|s|-1];
      WithoutUnique(init, gone);
      WithoutAre(init, gone);
      var w := Without(init, gone);
      forall i | 0 <= i < |w| ensures w[i].key != last.key {
        assert w[i] in init;
        var j :| 0 <= j < |init| && init[j] == w[i];
        assert s[j].key != s[|s|-1].key;
      }
    }
  }

  // ------------------------------------------------------------ refreshes

  // What a refresh does to one key of the merged map.
  // What folding in fresh nodes of the given keys does to one key.
  ghost predicate Folded(m: Merging, r: Merging, found: set<Key>, key: Key) {
    && Coherent(r.nodes)
    && (key in r.nodes ==>
          || (key in m.nodes && r.nodes[key] == m.nodes[key])
          || (r.nodes[key].available && HardRoutable(r.nodes[key])
              && key in r.stats && !r.stats[key].terminal && key in found))
    && (key in r.stats ==>
          if key in m.stats
          then r.stats[key].terminal == m.stats[key].terminal
               && r.stats[key].fullRecheckFailures == m.stats[key].fullRecheckFailures
          else !r.stats[key].terminal && r.stats[key].fullRecheckFailures == 0)
    && (key in m.stats ==> key in r.stats)
    && (key in m.nodes ==> key in r.nodes)
  }

  lemma FoldedOne(m: Merging, px: Proxy, now: int, key: Key)
    requires Coherent(m.nodes)
    ensures Folded(m, FreshStep(m, px, now), {px.key}, key)
  {
  }

  lemma FoldedThen(m: Merging, b: Merging, r: Merging, first: set<Key>, second: set<Key>, key: Key)
    requires Folded(m, b, first, key) && Folded(b, r, second, key)
    ensures Folded(m, r, first + second, key)
  {
    hide Coherent;
  }

  lemma {:induction false} FoldOfKey(m: Merging, found: seq<Proxy>, now: int, key: Key)
    requires Coherent(m.nodes)
    ensures Folded(m, FoldFresh(m, found, now), Keys(found), key)
  {
    if found != [] {
      hide Folded, FreshStep;
      var init, last := found[..|found|-1], found[|found|-1];
      FoldOfKey(m, init, now, key);
      var b := FoldFresh(m, init, now);
      FoldFreshCoherent(m, init, now);
      FoldedOne(b, last, now, key);
      FoldedThen(m, b, FreshStep(b, last, now), Keys(init), {last.key}, key);
      assert Keys(found) == Keys(init) + {last.key} by {
        assert forall px :: px in found <==> px in init || px == last;
      }
    }
  }

  // What the merge makes of one key: the last fresh declaration of it, its
  // exclusions lifted, or what was there.
  ghost predicate FoldedExactly(m: Merging, r: Merging, last: Option<Proxy>, key: Key) {
    if last.Some? && key.protocol != "proxyip" && !(key in m.stats && m.stats[key].terminal) then
      && key in r.nodes && key in r.freshKeys && r.nodes[key].available && HardRoutable(r.nodes[key])
      && r.nodes[key].sourceIDs == last.value.sourceIDs && r.nodes[key].sourceNames == last.value.sourceNames
    else
      && (key in r.nodes <==> key in m.nodes) && (key in r.nodes ==> r.nodes[key] == m.nodes[key])
      && (key in r.freshKeys <==> key in m.freshKeys)
  }

  lemma {:induction false} FoldExact(m: Merging, found: seq<Proxy>, now: int, key: Key)
    requires Coherent(m.nodes)
    ensures FoldedExactly(m, FoldFresh(m, found, now), LastOf(found, key), key)
  {
    if found != [] {
      hide Coherent, Keys;
      var init, last := found[..|found|-1], found[|found|-1];
      FoldExact(m, init, now, key);
      FoldFreshCoherent(m, init, now);
      FoldOfKey(m, init, now, key);
    }
  }

  // A node after a refresh: what the merge left of it, then the source check.
  lemma RefreshOfKey(p: Pool, found: seq<Proxy>, failed: set<Key>, filtered: set<Key>, on: Enabled, now: int, key: Key)
    requires UniqueKeys(p.proxies)
    ensures var q := Refresh(p, found, failed, filtered, Some(on), Some(p.healthGeneration), now);
            var m := FoldFresh(Merging(AsMap(p.proxies), p.stats, {}), found, now);
            var kept := m.nodes - Unreachable(m, failed);
            && NodeOf(q.proxies, key) == (if key in kept
                                          then Some(Retire(Exclude(kept, filtered)[key], on)) else None)
            && StatsFor(q, key) == (if key in m.stats && key !in Unreachable(m, failed) then m.stats[key] else UNSEEN)
  {
    var start := Merging(AsMap(p.proxies), p.stats, {});
    var m := FoldFresh(start, found, now);
    FoldFreshCoherent(start, found, now);
    var kept := m.nodes - Unreachable(m, failed);
    var nodes := RefreshedNodes(p, found, failed, filtered, now);
    var q := Refresh(p, found, failed, filtered, Some(on), Some(p.healthGeneration), now);
    RefreshedAre(p, found, failed, filtered, now);
    assert q.proxies == RetireAll(nodes, on);
    SortedIsUnique(nodes);
    RetireOfKey(nodes, on, key);
    NodeOfIn(nodes, key);
    if key in kept {
      assert Exclude(kept, filtered)[key] in nodes;
      NodeOfIs(nodes, Exclude(kept, filtered)[key]);
    }
  }

  lemma RetireOfKey(s: seq<Proxy>, on: Enabled, key: Key)
    requires UniqueKeys(s)
    ensures UniqueKeys(RetireAll(s, on))
    ensures NodeOf(RetireAll(s, on), key) == if NodeOf(s, key).Some? then Some(Retire(NodeOf(s, key).value, on)) else None
  {
    var t := RetireAll(s, on);
    assert forall i | 0 <= i < |s| :: t[i].key == s[i].key;
    if Lookup(s, key).Some? {
      var j := Lookup(s, key).value;
      assert t[j] in t && t[j].key == key;
      NodeOfIs(t, t[j]);
    }
  }

  // -------------------------------------------------------- one key, one step

  // The operation reports this key as usable.
  predicate Vouches(op: Op, key: Key) {
    match op
    case OpObserve(k, reachable, allowed, _, _, _, _) => k == key && reachable && allowed
    case OpRefresh(found, _, _, _, _, _) => key in Keys(found)
    case OpPromote(px, _, _, _, _) => px.key == key
    case OpFullCommit(os, _, _) => exists o | o in os :: o.key == key && o.reachable && o.allowed
    case _ => false
  }

  // The health generation the operation's results were measured under.
  function MeasuredUnder(op: Op): Option<nat> {
    match op
    case OpObserve(_, _, _, _, gen, _, _) => gen
    case OpRefresh(_, _, _, _, gen, _) => gen
    case OpPromote(_, _, gen, _, _) => Some(gen)
    case OpFullCommit(_, gen, _) => Some(gen)
    case _ => None
  }

  // A current result accepted this key.
  predicate Accepts(p: Pool, op: Op, key: Key) {
    Vouches(op, key) && MeasuredUnder(op) == Some(p.healthGeneration)
  }

  // The node is in the pool and available.
  predicate IsUp(p: Pool, key: Key) { NodeOf(p.proxies, key).Some? && NodeOf(p.proxies, key).value.available }

  // Of a declaration owned by sources, one is not enabled: by stable id if it has
  // any, else by name.
  ghost predicate SourcesOff(px: Proxy, on: Enabled) {
    if px.sourceIDs != [] then exists id | id in px.sourceIDs :: id !in on.ids
    else exists name | name in px.sourceNames :: name !in on.names
  }

  // The last declaration of the key in a refresh.
  function LastOf(found: seq<Proxy>, key: Key): Option<Proxy> {
    if found == [] then None else if found[|found|-1].key == key then Some(found[|found|-1]) else LastOf(found[..|found|-1], key)
  }

  // A refresh takes this node as found alive.
  predicate IsFresh(p: Pool, found: seq<Proxy>, key: Key) {
    LastOf(found, key).Some? && key.protocol != "proxyip" && !StatsFor(p, key).terminal
  }

  // The operation makes this node available, whatever it was before.
  ghost predicate Admits(p: Pool, op: Op, key: Key) {
    match op
    case OpObserve(k, reachable, allowed, _, gen, manual, _) =>
      && k == key && gen == Some(p.healthGeneration) && reachable && allowed
      && NodeOf(p.proxies, key).Some? && !NodeOf(p.proxies, key).value.sourceRetired && (manual || !StatsFor(p, key).terminal)
    case OpRefresh(found, _, filtered, on, gen, _) =>
      && gen == Some(p.healthGeneration) && IsFresh(p, found, key) && key !in filtered
      && on.Some? && !SourcesOff(LastOf(found, key).value, on.value)
    case OpPromote(px, on, gen, _, _) => px.key == key && gen == p.healthGeneration && !SourcesOff(px, on)
    case OpFullCommit(os, gen, _) =>
      var first := FirstObservation(os, key);
      && gen == p.healthGeneration && first.Some? && first.value.reachable && first.value.allowed
      && NodeOf(p.proxies, key).Some? && !NodeOf(p.proxies, key).value.sourceRetired
    case _ => false
  }

  // The operation takes an available node out of service.
  ghost predicate Excludes(p: Pool, op: Op, key: Key) {
    match op
    case OpObserve(k, reachable, allowed, _, gen, _, _) => k == key && gen == Some(p.healthGeneration) && !(reachable && allowed)
    case OpInvalidate => true
    case OpEnabledSources(on) => NodeOf(p.proxies, key).Some? && SourcesOff(NodeOf(p.proxies, key).value, on)
    case OpRefresh(found, failed, filtered, on, gen, _) =>
      && gen == Some(p.healthGeneration)
      && (|| key in filtered || (key in failed && !IsFresh(p, found, key))
          || (on.Some? && if IsFresh(p, found, key) then SourcesOff(LastOf(found, key).value, on.value)
                          else NodeOf(p.proxies, key).Some? && SourcesOff(NodeOf(p.proxies, key).value, on.value)))
    case OpRemove(gone) => key in gone
    case OpFullCommit(os, gen, _) =>
      var first := FirstObservation(os, key);
      gen == p.healthGeneration && first.Some? && !(first.value.reachable && first.value.allowed)
    case _ => false
  }

  // The operation marks the node as failed for good.
  ghost predicate Fails(p: Pool, op: Op, key: Key) {
    match op
    case OpObserve(k, reachable, _, _, gen, _, _) => k == key && gen == Some(p.healthGeneration) && !reachable
    case OpFullCommit(os, gen, _) =>
      gen == p.healthGeneration && FirstObservation(os, key).Some? && !FirstObservation(os, key).value.reachable
    case _ => false
  }

  // The ways back: an allowed manual check, a promotion, a full recheck.
  ghost predicate Clears(p: Pool, op: Op, key: Key) {
    match op
    case OpObserve(k, reachable, allowed, _, gen, manual, _) => k == key && gen == Some(p.healthGeneration) && reachable && allowed && manual
    case OpPromote(px, on, gen, _, _) => px.key == key && gen == p.healthGeneration && !SourcesOff(px, on)
    case OpFullCommit(os, gen, _) =>
      gen == p.healthGeneration && FirstObservation(os, key).Some? && FirstObservation(os, key).value.reachable
    case _ => false
  }

  lemma SourcesOffIs(px: Proxy, on: Enabled)
    ensures SourcesOff(px, on) <==> !AllEnabled(px, on)
    ensures SourcesOff(px, on) ==> Owned(px)
  {
  }

  function Count(p: Pool, key: Key): nat { StatsFor(p, key).fullRecheckFailures }

  // How the full-recheck counter of one key moves: up on an unreachable
  // observation of a current full cycle, to zero on a reachable one, on
  // invalidation and on removal, and not at all otherwise.
  function CountAfter(p: Pool, op: Op, key: Key, before: nat): nat {
    if NodeOf(p.proxies, key) == None || NodeOf(Step(p, op).proxies, key) == None then 0
    else match op
         case OpInvalidate => 0
         case OpFullCommit(os, gen, _) =>
           if gen != p.healthGeneration || FirstObservation(os, key) == None then before
           else if FirstObservation(os, key).value.reachable then 0 else before + 1
         case _ => before
  }

  ghost predicate CountsOk(p: Pool) {
    forall key :: Count(p, key) < FULL_RECHECK_REMOVAL_THRESHOLD && (NodeOf(p.proxies, key) == None ==> Count(p, key) == 0)
  }

  ghost predicate Good(p: Pool) {
    && Sorted(p.proxies)
    && (forall key :: NodeOf(p.proxies, key).Some? ==> NodeOk(NodeOf(p.proxies, key).value, StatsFor(p, key)))
    && CountsOk(p)
  }

  // What one production step may do to one key.
  ghost predicate Effect(p: Pool, op: Op, key: Key) {
    var q := Step(p, op);
    && (NodeOf(q.proxies, key).Some? ==> NodeOk(NodeOf(q.proxies, key).value, StatsFor(q, key)))
    && (NodeOf(q.proxies, key).Some? && NodeOf(q.proxies, key).value.available ==>
          && q.healthGeneration == p.healthGeneration
          && (Accepts(p, op, key) || (NodeOf(p.proxies, key).Some? && NodeOf(p.proxies, key).value.available)))
    && (IsUp(q, key) <==> Admits(p, op, key) || (IsUp(p, key) && !Excludes(p, op, key)))
    && (NodeOf(p.proxies, key).Some? && NodeOf(q.proxies, key).Some? ==>
          (StatsFor(q, key).terminal <==> Fails(p, op, key) || (StatsFor(p, key).terminal && !Clears(p, op, key))))
    && Count(q, key) == CountAfter(p, op, key, Count(p, key))
    && Count(q, key) < FULL_RECHECK_REMOVAL_THRESHOLD
  }

  ghost predicate KeyGood(p: Pool, key: Key) {
    && (NodeOf(p.proxies, key).Some? ==> NodeOk(NodeOf(p.proxies, key).value, StatsFor(p, key)))
    && Count(p, key) < FULL_RECHECK_REMOVAL_THRESHOLD
    && (NodeOf(p.proxies, key) == None ==> Count(p, key) == 0)
  }

  // The exclusion bits and the availability of a node.
  function Bits(px: Proxy): (bool, bool, bool, bool) {
    (px.sourceRetired, px.healthInvalidated, px.policyExcluded, px.available)
  }

  lemma EffectNone(p: Pool, op: Op, key: Key)
    requires KeyGood(p, key) && !op.OpInvalidate? && !op.OpFullCommit? && !Admits(p, op, key) && !Excludes(p, op, key)
    requires !Fails(p, op, key) && !Clears(p, op, key)
    requires var q := Step(p, op);
             && q.healthGeneration == p.healthGeneration
             && (NodeOf(q.proxies, key).Some? <==> NodeOf(p.proxies, key).Some?)
             && (NodeOf(q.proxies, key).Some? ==> Bits(NodeOf(q.proxies, key).value) == Bits(NodeOf(p.proxies, key).value))
             && StatsFor(q, key).terminal == StatsFor(p, key).terminal && Count(q, key) == Count(p, key)
    ensures Effect(p, op, key)
  {
  }

  lemma ReplacedBits(s: seq<Proxy>, i: nat, px: Proxy, key: Key)
    requires UniqueKeys(s) && i < |s| && px.key == s[i].key && Bits(px) == Bits(s[i])
    ensures NodeOf(s[i := px], key).Some? <==> NodeOf(s, key).Some?
    ensures NodeOf(s, key).Some? ==> Bits(NodeOf(s[i := px], key).value) == Bits(NodeOf(s, key).value)
  {
    ReplaceNode(s, i, px, key);
    assert s[i] in s;
    NodeOfIs(s, s[i]);
  }

  lemma EffectRecord(p: Pool, k: Key, ok: bool, lat: int, key: Key)
    requires UniqueKeys(p.proxies) && KeyGood(p, key)
    ensures Effect(p, OpRecord(k, ok, lat), key)
  {
  }

  lemma EffectObserve(p: Pool, k: Key, reachable: bool, allowed: bool, lat: int, gen: nat, manual: bool, now: int, key: Key)
    requires UniqueKeys(p.proxies) && KeyGood(p, key)
    ensures Effect(p, OpObserve(k, reachable, allowed, lat, Some(gen), manual, now), key)
  {
    var op := OpObserve(k, reachable, allowed, lat, Some(gen), manual, now);
    var i := Lookup(p.proxies, k);
    if gen != p.healthGeneration || (reachable && StatsFor(p, k).terminal && !manual) || i == None {
      assert Step(p, op) == p;
    } else {
      var st' := ObservedStats(StatsFor(p, k), reachable, allowed, lat, manual, now);
      var px' := ObservedNode(p.proxies[i.value], st', reachable, allowed, lat);
      ReplaceNode(p.proxies, i.value, px', key);
      ObserveApplied(p, op, i.value, st', px', key);
    }
  }

  lemma ObserveApplied(p: Pool, op: Op, i: nat, st': Stats, px': Proxy, key: Key)
    requires op.OpObserve? && op.gen == Some(p.healthGeneration) && UniqueKeys(p.proxies) && KeyGood(p, key)
    requires !(op.reachable && StatsFor(p, op.key).terminal && !op.manual) && Lookup(p.proxies, op.key) == Some(i)
    requires st' == ObservedStats(StatsFor(p, op.key), op.reachable, op.allowed, op.latencyMs, op.manual, op.now)
    requires px' == ObservedNode(p.proxies[i], st', op.reachable, op.allowed, op.latencyMs)
    requires NodeOf(p.proxies[i := px'], key) == if key == px'.key then Some(px') else NodeOf(p.proxies, key)
    ensures Effect(p, op, key)
  {
    var q := Step(p, op);
    assert q.proxies == p.proxies[i := px'] && q.stats == p.stats[op.key := st'];
    if key == op.key {
      assert NodeOf(p.proxies, key) == Some(p.proxies[i]);
      assert NodeOf(q.proxies, key) == Some(px') && StatsFor(q, key) == st';
    } else {
      assert StatsFor(q, key) == StatsFor(p, key);
    }
  }

  lemma EffectLatency(p: Pool, k: Key, lat: int, key: Key)
    requires UniqueKeys(p.proxies) && KeyGood(p, key)
    ensures Effect(p, OpLatency(k, lat), key)
  {
    var i := Lookup(p.proxies, k);
    if i.Some? { ReplacedBits(p.proxies, i.value, p.proxies[i.value].(latencyMs := lat), key); }
    EffectNone(p, OpLatency(k, lat), key);
  }

  lemma EffectSpeed(p: Pool, k: Key, kbps: real, key: Key)
    requires UniqueKeys(p.proxies) && KeyGood(p, key)
    ensures Effect(p, OpSpeed(k, kbps), key)
  {
    var i := Lookup(p.proxies, k);
    if i.Some? { ReplacedBits(p.proxies, i.value, p.proxies[i.value].(speedKbps := kbps), key); }
    EffectNone(p, OpSpeed(k, kbps), key);
  }

  lemma CredentialsKeepBits(p: Pool, k: Key, c: Credential, alts: seq<Credential>, gen: nat, key: Key)
    requires UniqueKeys(p.proxies)
    ensures var q := UpdateCredentials(p, k, c, alts, gen);
            && q.healthGeneration == p.healthGeneration && q.stats == p.stats
            && (NodeOf(q.proxies, key).Some? <==> NodeOf(p.proxies, key).Some?)
            && (NodeOf(q.proxies, key).Some? ==> Bits(NodeOf(q.proxies, key).value) == Bits(NodeOf(p.proxies, key).value))
  {
    hide NodeOf;
    var i := Lookup(p.proxies, k);
    if i.Some? { ReplacedBits(p.proxies, i.value, p.proxies[i.value].(credential := c, alternates := alts), key); }
  }

  lemma EffectCredentials(p: Pool, k: Key, c: Credential, alts: seq<Credential>, gen: nat, key: Key)
    requires UniqueKeys(p.proxies) && KeyGood(p, key)
    ensures Effect(p, OpCredentials(k, c, alts, gen), key)
  {
    hide UpdateCredentials, NodeOf, Bits, KeyGood, Effect;
    CredentialsKeepBits(p, k, c, alts, gen, key);
    EffectNone(p, OpCredentials(k, c, alts, gen), key);
  }

  function Located(px: Proxy, exitIP: string, country: string): Proxy {
    if country != "" then px.(exitIP := exitIP, country := country) else px.(exitIP := exitIP)
  }

  lemma GeoIsReplace(p: Pool, k: Key, exitIP: string, country: string, gen: Option<nat>)
    ensures var q := UpdateGeo(p, k, exitIP, country, gen);
            || q == p
            || (exists i | 0 <= i < |p.proxies| :: q == Queue(Replace(p, i, Located(p.proxies[i], exitIP, country))))
  {
    var i := Lookup(p.proxies, k);
    if !Rejected(p, gen) && i.Some? {
      assert UpdateGeo(p, k, exitIP, country, gen) == Queue(Replace(p, i.value, Located(p.proxies[i.value], exitIP, country)));
    }
  }

  lemma EffectGeo(p: Pool, k: Key, exitIP: string, country: string, gen: Option<nat>, key: Key)
    requires UniqueKeys(p.proxies) && KeyGood(p, key)
    ensures Effect(p, OpGeo(k, exitIP, country, gen), key)
  {
    hide NodeOf, HardRoutable;
    var op := OpGeo(k, exitIP, country, gen);
    GeoIsReplace(p, k, exitIP, country, gen);
    if Step(p, op) != p {
      var i :| 0 <= i < |p.proxies| && Step(p, op) == Queue(Replace(p, i, Located(p.proxies[i], exitIP, country)));
      ReplacedBits(p.proxies, i, Located(p.proxies[i], exitIP, country), key);
    }
    EffectNone(p, op, key);
  }

  lemma InvalidatedOfKey(s: seq<Proxy>, key: Key)
    ensures var t := InvalidatedNodes(s);
            NodeOf(t, key) == if NodeOf(s, key).Some?
                              then Some(NodeOf(s, key).value.(healthInvalidated := true, available := false)) else None
  {
    var t := InvalidatedNodes(s);
    assert forall i | 0 <= i < |t| :: t[i].key == s[i].key;
    SameLookup(s, t, key);
  }

  lemma {:induction false} SameLookup(s: seq<Proxy>, t: seq<Proxy>, key: Key)
    requires |s| == |t| && forall i | 0 <= i < |t| :: t[i].key == s[i].key
    ensures Lookup(t, key) == Lookup(s, key)
  {
    if s != [] { SameLookup(s[..|s|-1], t[..|t|-1], key); }
  }

  lemma EffectInvalidate(p: Pool, key: Key)
    requires UniqueKeys(p.proxies) && KeyGood(p, key)
    ensures Effect(p, OpInvalidate, key)
  {
    hide NodeOf, Lookup, InvalidatedNodes;
    InvalidatedOfKey(p.proxies, key);
    if NodeOf(p.proxies, key).Some? { NodeOfIn(p.proxies, key); }
  }

  lemma EffectSources(p: Pool, on: Enabled, key: Key)
    requires UniqueKeys(p.proxies) && KeyGood(p, key)
    ensures Effect(p, OpEnabledSources(on), key)
  {
    hide Keys, NodeOf, RetireAll;
    RetireOfKey(p.proxies, on, key);
  }

  lemma EffectPromote(p: Pool, px: Proxy, on: Enabled, gen: nat, kbps: real, now: int, key: Key)
    requires UniqueKeys(p.proxies) && KeyGood(p, key)
    ensures Effect(p, OpPromote(px, on, gen, kbps, now), key)
  {
    var op := OpPromote(px, on, gen, kbps, now);
    if !AllEnabled(px, on) || p.healthGeneration != gen {
      assert Step(p, op) == p;
    } else {
      var i := Lookup(p.proxies, px.key);
      var admitted := (if i.Some? then MergeFresh(p.proxies[i.value], Accepted(px)) else Accepted(px)).(speedKbps := kbps);
      if i.Some? {
        ReplaceNode(p.proxies, i.value, admitted, key);
      } else {
        InsertOfKey(p.proxies, admitted, key);
      }
      PromoteApplied(p, op, admitted, key);
    }
  }

  lemma PromoteApplied(p: Pool, op: Op, admitted: Proxy, key: Key)
    requires op.OpPromote? && AllEnabled(op.px, op.on) && p.healthGeneration == op.generation && KeyGood(p, key)
    requires admitted.key == op.px.key && admitted.available && HardRoutable(admitted)
    requires NodeOf(Step(p, op).proxies, key) == if key == op.px.key then Some(admitted) else NodeOf(p.proxies, key)
    ensures Effect(p, op, key)
  {
    var q := Step(p, op);
    if key == op.px.key {
      assert !StatsFor(q, key).terminal && Count(q, key) == Count(p, key);
    } else {
      assert StatsFor(q, key) == StatsFor(p, key);
    }
  }

  lemma InsertOfKey(s: seq<Proxy>, px: Proxy, key: Key)
    requires UniqueKeys(s)
    ensures NodeOf(ByAddr(AsMap(s)[px.key := px]), key) == if key == px.key then Some(px) else NodeOf(s, key)
  {
    var m := AsMap(s)[px.key := px];
    var t := ByAddr(m);
    ByAddrSorted(m);
    SortedIsUnique(t);
    AsMapHolds(s);
    NodeOfIn(s, key);
    NodeOfIn(t, key);
    if key in m {
      assert m[key] in t;
      NodeOfIs(t, m[key]);
      if key != px.key { NodeOfIs(s, m[key]); }
    }
  }

  lemma EffectDelete(p: Pool, gone: set<Key>, key: Key)
    requires UniqueKeys(p.proxies) && KeyGood(p, key)
    ensures var plan := DeletePlan(p, gone);
            && NodeOf(plan.proxies, key) == (if key in gone then None else NodeOf(p.proxies, key))
            && (NodeOf(plan.proxies, key).Some? ==> (if key in plan.stats then plan.stats[key] else UNSEEN) == StatsFor(p, key))
            && (NodeOf(plan.proxies, key) == None ==> key !in plan.stats)
  {
    WithoutOfKey(p.proxies, gone, key);
    NodeOfIn(Without(p.proxies, gone), key);
  }

  lemma EffectRemove(p: Pool, gone: set<Key>, key: Key)
    requires UniqueKeys(p.proxies) && KeyGood(p, key)
    ensures Effect(p, OpRemove(gone), key)
  {
    hide Without, NodeOf, HardRoutable;
    EffectDelete(p, gone, key);
    RemovedAre(p.proxies, gone);
    NodeOfIn(p.proxies, key);
  }

  lemma EffectClear(p: Pool, key: Key)
    requires UniqueKeys(p.proxies) && KeyGood(p, key)
    ensures Effect(p, OpClearUnavailable, key)
  {
    hide Without, NodeOf, HardRoutable, Lookup;
    EffectDelete(p, UnavailableKeys(p), key);
    RemovedAre(p.proxies, UnavailableKeys(p));
    NodeOfIn(p.proxies, key);
    if key in UnavailableKeys(p) {
      var px :| px in p.proxies && !px.available && px.key == key;
      NodeOfIs(p.proxies, px);
    }
  }

  lemma FirstObservationIn(os: seq<Observation>, key: Key)
    ensures FirstObservation(os, key).Some? ==> FirstObservation(os, key).value in os && FirstObservation(os, key).value.key == key
  {
  }

  lemma EffectIdleCommit(p: Pool, os: seq<Observation>, gen: nat, now: int, key: Key)
    requires UniqueKeys(p.proxies) && KeyGood(p, key) && (gen != p.healthGeneration || FullCycle(p, os, now).seen == {})
    ensures Effect(p, OpFullCommit(os, gen, now), key)
  {
    hide RunCycle;
    CycleOfKey(Cycle(p.proxies, p.stats, {}, {}), os, now, key);
  }

  lemma EffectLiveCommit(p: Pool, os: seq<Observation>, now: int, key: Key)
    requires UniqueKeys(p.proxies) && KeyGood(p, key) && FullCycle(p, os, now).seen != {}
    ensures Effect(p, OpFullCommit(os, p.healthGeneration, now), key)
  {
    hide RunCycle, FullCommitPlan, FirstObservation, NodeOf, Lookup;
    CycleOfKey(Cycle(p.proxies, p.stats, {}, {}), os, now, key);
    CommitOfKey(p, os, now, key);
    FirstObservationIn(os, key);
  }

  lemma EffectFullCommit(p: Pool, os: seq<Observation>, gen: nat, now: int, key: Key)
    requires UniqueKeys(p.proxies) && KeyGood(p, key)
    ensures Effect(p, OpFullCommit(os, gen, now), key)
  {
    hide *;
    if gen == p.healthGeneration && FullCycle(p, os, now).seen != {} {
      EffectLiveCommit(p, os, now, key);
    } else {
      EffectIdleCommit(p, os, gen, now, key);
    }
  }

  lemma EffectRefresh(p: Pool, found: seq<Proxy>, failed: set<Key>, filtered: set<Key>, on: Enabled, gen: nat, now: int, key: Key)
    requires UniqueKeys(p.proxies) && KeyGood(p, key)
    ensures Effect(p, OpRefresh(found, failed, filtered, Some(on), Some(gen), now), key)
  {
    var op := OpRefresh(found, failed, filtered, Some(on), Some(gen), now);
    if gen != p.healthGeneration {
      assert Step(p, op) == p;
    } else {
      var start := Merging(AsMap(p.proxies), p.stats, {});
      RefreshOfKey(p, found, failed, filtered, on, now, key);
      FoldOfKey(start, found, now, key);
      FoldExact(start, found, now, key);
      MapOfKey(p.proxies, key);
      RefreshApplied(p, op, FoldFresh(start, found, now), key);
    }
  }

  lemma MapOfKey(s: seq<Proxy>, key: Key)
    requires UniqueKeys(s)
    ensures NodeOf(s, key) == if key in AsMap(s) then Some(AsMap(s)[key]) else None
  {
    AsMapHolds(s);
    NodeOfIn(s, key);
    if key in AsMap(s) { NodeOfIs(s, AsMap(s)[key]); }
  }

  lemma RefreshApplied(p: Pool, op: Op, m: Merging, key: Key)
    requires op.OpRefresh? && op.gen == Some(p.healthGeneration) && op.sources.Some? && KeyGood(p, key)
    requires key in m.nodes ==>
               || NodeOf(p.proxies, key) == Some(m.nodes[key])
               || (m.nodes[key].available && HardRoutable(m.nodes[key])
                   && key in m.stats && !m.stats[key].terminal && key in Keys(op.found))
    requires NodeOf(p.proxies, key).Some? ==> key in m.nodes
    requires if IsFresh(p, op.found, key) then
               && key in m.nodes && key in m.freshKeys && m.nodes[key].available && HardRoutable(m.nodes[key])
               && m.nodes[key].sourceIDs == LastOf(op.found, key).value.sourceIDs
               && m.nodes[key].sourceNames == LastOf(op.found, key).value.sourceNames
             else
               && key !in m.freshKeys && (key in m.nodes <==> NodeOf(p.proxies, key).Some?)
               && (key in m.nodes ==> NodeOf(p.proxies, key) == Some(m.nodes[key]))
    requires if key in m.stats
             then m.stats[key].terminal == StatsFor(p, key).terminal
                  && m.stats[key].fullRecheckFailures == StatsFor(p, key).fullRecheckFailures
             else StatsFor(p, key) == UNSEEN
    requires var kept := m.nodes - Unreachable(m, op.failed);
             && NodeOf(Step(p, op).proxies, key)
                == (if key in kept then Some(Retire(Exclude(kept, op.filtered)[key], op.sources.value)) else None)
             && StatsFor(Step(p, op), key) == (if key in m.stats && key !in Unreachable(m, op.failed) then m.stats[key] else UNSEEN)
    ensures Effect(p, op, key)
  {
    hide NodeOf, FoldFresh, RefreshedNodes, CleanCursors, RetireAll, Lookup, FirstObservation;
  }

  // Every production step keeps the health invariants.
  lemma StepEffect(p: Pool, op: Op, key: Key)
    requires UniqueKeys(p.proxies) && KeyGood(p, key) && Production(op)
    ensures Effect(p, op, key)
  {
    match op {
      case OpRecord(k, ok, lat) => EffectRecord(p, k, ok, lat, key);
      case OpObserve(k, reachable, allowed, lat, gen, manual, now) => EffectObserve(p, k, reachable, allowed, lat, gen.value, manual, now, key);
      case OpLatency(k, lat) => EffectLatency(p, k, lat, key);
      case OpInvalidate => EffectInvalidate(p, key);
      case OpCredentials(k, c, alts, gen) => EffectCredentials(p, k, c, alts, gen, key);
      case OpGeo(k, exitIP, country, gen) => EffectGeo(p, k, exitIP, country, gen, key);
      case OpSpeed(k, kbps) => EffectSpeed(p, k, kbps, key);
      case OpEnabledSources(on) => EffectSources(p, on, key);
      case OpRefresh(found, failed, filtered, on, gen, now) => EffectRefresh(p, found, failed, filtered, on.value, gen.value, now, key);
      case OpPromote(px, on, gen, kbps, now) => EffectPromote(p, px, on, gen, kbps, now, key);
      case OpRemove(gone) => EffectRemove(p, gone, key);
      case OpClearUnavailable => EffectClear(p, key);
      case OpFullCommit(os, gen, now) => EffectFullCommit(p, os, gen, now, key);
      case _ => EffectNone(p, op, key);
    }
  }

  // ------------------------------------------------------------- whole runs

  lemma {:induction false} RunGood(ops: seq<Op>, key: Key)
    requires AllProduction(ops)
    ensures Sorted(Run(EMPTY, ops).proxies) && UniqueKeys(Run(EMPTY, ops).proxies) && KeyGood(Run(EMPTY, ops), key)
  {
    RunSorted(EMPTY, ops);
    SortedIsUnique(Run(EMPTY, ops).proxies);
    if ops != [] {
      var init, op := ops[..|ops|-1], ops[|ops|-1];
      assert op in ops && forall o | o in init :: o in ops;
      RunGood(init, key);
      StepEffect(Run(EMPTY, init), op, key);
      assert Effect(Run(EMPTY, init), op, key);
    }
  }

  // In every reachable pool a node is available exactly when no hard exclusion
  // is set, and a terminal failure is never routable.
  lemma AvailabilityOnRuns(ops: seq<Op>, px: Proxy)
    requires AllProduction(ops) && px in Run(EMPTY, ops).proxies
    ensures px.available <==> HardRoutable(px)
    ensures StatsFor(Run(EMPTY, ops), px.key).terminal ==> !HardRoutable(px) && !px.available
  {
    RunGood(ops, px.key);
    NodeOfIs(Run(EMPTY, ops).proxies, px);
  }

  // The last word on a node: an operation that admits it, and none after it that
  // excludes it.
  ghost predicate AdmittedAt(ops: seq<Op>, i: int, key: Key) {
    && 0 <= i < |ops|
    && Admits(Run(EMPTY, ops[..i]), ops[i], key)
    && forall j | i < j < |ops| :: !Excludes(Run(EMPTY, ops[..j]), ops[j], key)
  }

  // The last step of a run, for one key.
  lemma LastStep(ops: seq<Op>, key: Key)
    requires AllProduction(ops) && ops != []
    ensures var p, op, q := Run(EMPTY, ops[..|ops|-1]), ops[|ops|-1], Run(EMPTY, ops);
            && (IsUp(q, key) <==> Admits(p, op, key) || (IsUp(p, key) && !Excludes(p, op, key)))
            && (NodeOf(p.proxies, key).Some? && NodeOf(q.proxies, key).Some? ==>
                  (StatsFor(q, key).terminal <==> Fails(p, op, key) || (StatsFor(p, key).terminal && !Clears(p, op, key))))
            && (StatsFor(q, key).terminal ==> !IsUp(q, key))
  {
    hide Step, Accepts, Admits, Excludes, Fails, Clears, CountAfter, StatsFor;
    var init, op := ops[..|ops|-1], ops[|ops|-1];
    assert op in ops && forall o | o in init :: o in ops;
    RunGood(init, key);
    StepEffect(Run(EMPTY, init), op, key);
    assert Effect(Run(EMPTY, init), op, key);
  }

  lemma NothingUp(key: Key)
    ensures !IsUp(Run(EMPTY, []), key)
  {
  }

  // Over every run a node is available iff it was admitted and not excluded
  // since: an accepted node stays in service until something takes it out.
  lemma {:induction false} UpExactlyWhen(ops: seq<Op>, key: Key)
    requires AllProduction(ops)
    ensures IsUp(Run(EMPTY, ops), key) <==> exists i :: AdmittedAt(ops, i, key)
  {
    hide Run, Step, Admits, Excludes, IsUp, StatsFor, Production;
    if ops == [] {
      NothingUp(key);
    } else {
      var init, op := ops[..|ops|-1], ops[|ops|-1];
      assert forall o | o in init :: o in ops;
      assert forall j | 0 <= j < |init| :: init[..j] == ops[..j] && init[j] == ops[j];
      UpExactlyWhen(init, key);
      LastStep(ops, key);
      if Admits(Run(EMPTY, init), op, key) {
        assert AdmittedAt(ops, |init|, key);
      } else if IsUp(Run(EMPTY, init), key) && !Excludes(Run(EMPTY, init), op, key) {
        var i :| AdmittedAt(init, i, key);
        assert AdmittedAt(ops, i, key);
      }
      if i :| AdmittedAt(ops, i, key) {
        if i < |init| { assert AdmittedAt(init, i, key); }
      }
    }
  }

  // A node that failed is out of service until a manual check, a promotion or a
  // full recheck finds it well again, whatever else happens to it.
  lemma {:induction false} FailedStaysOut(ops: seq<Op>, i: nat, key: Key)
    requires AllProduction(ops) && i < |ops| && Fails(Run(EMPTY, ops[..i]), ops[i], key)
    requires forall j | i <= j <= |ops| :: NodeOf(Run(EMPTY, ops[..j]).proxies, key).Some?
    requires forall j | i < j < |ops| :: !Clears(Run(EMPTY, ops[..j]), ops[j], key)
    ensures StatsFor(Run(EMPTY, ops), key).terminal && !IsUp(Run(EMPTY, ops), key)
  {
    hide Run, Step, Admits, Excludes, Fails, Clears, IsUp, StatsFor, NodeOf, Production;
    var init := ops[..|ops|-1];
    assert ops[..|ops|] == ops;
    assert forall o | o in init :: o in ops;
    assert forall j | 0 <= j <= |init| :: init[..j] == ops[..j];
    if i < |init| { FailedStaysOut(init, i, key); }
    LastStep(ops, key);
  }

  ghost predicate AcceptedAt(ops: seq<Op>, i: int, key: Key) {
    && 0 <= i < |ops|
    && Accepts(Run(EMPTY, ops[..i]), ops[i], key)
    && Run(EMPTY, ops[..i]).healthGeneration == Run(EMPTY, ops).healthGeneration
    && MeasuredUnder(ops[i]) == Some(Run(EMPTY, ops).healthGeneration)
  }

  // Every available node was accepted by a result measured under the health
  // generation that is still current: a stale result never revives a node.
  lemma {:induction false} AvailableWasAccepted(ops: seq<Op>, key: Key)
    requires AllProduction(ops)
    requires NodeOf(Run(EMPTY, ops).proxies, key).Some? && NodeOf(Run(EMPTY, ops).proxies, key).value.available
    ensures exists i :: AcceptedAt(ops, i, key)
  {
    if ops == [] {
      assert false;
    } else {
      var init, op := ops[..|ops|-1], ops[|ops|-1];
      assert op in ops && forall o | o in init :: o in ops;
      var p := Run(EMPTY, init);
      RunGood(init, key);
      StepEffect(p, op, key);
      assert Effect(p, op, key);
      if Accepts(p, op, key) {
        assert AcceptedAt(ops, |init|, key);
      } else {
        AvailableWasAccepted(init, key);
        var i :| AcceptedAt(init, i, key);
        assert init[..i] == ops[..i];
        assert AcceptedAt(ops, i, key);
      }
    }
  }

  // ------------------------------------------------- the full-recheck counter

  // The run as this key sees it: true for a completed, current full cycle that
  // found it unreachable; false for anything that starts the count again.
  ghost function Verdicts(ops: seq<Op>, key: Key): seq<bool> {
    if ops == [] then []
    else
      var init, op := ops[..|ops|-1], ops[|ops|-1];
      var p := Run(EMPTY, init);
      Verdicts(init, key) +
      if NodeOf(p.proxies, key) == None || NodeOf(Step(p, op).proxies, key) == None || op.OpInvalidate? then [false]
      else if op.OpFullCommit? && op.generation == p.healthGeneration && FirstObservation(op.observations, key).Some?
      then [!FirstObservation(op.observations, key).value.reachable]
      else []
  }

  ghost function TrailingTrue(s: seq<bool>): nat {
    if s == [] || !s[|s|-1] then 0 else TrailingTrue(s[..|s|-1]) + 1
  }

  lemma TrailingAppend(s: seq<bool>, b: bool)
    ensures TrailingTrue(s + [b]) == if b then TrailingTrue(s) + 1 else 0
  {
    assert (s + [b])[..|s + [b]|-1] == s;
  }

  // The counter is the number of trailing unreachable full cycles.
  lemma {:induction false} CounterCountsTrailingFailures(ops: seq<Op>, key: Key)
    requires AllProduction(ops)
    ensures Count(Run(EMPTY, ops), key) == TrailingTrue(Verdicts(ops, key)) < FULL_RECHECK_REMOVAL_THRESHOLD
  {
    if ops != [] {
      hide Step, NodeOf, NodeOk, Good, Accepts, StatsFor;
      var init, op := ops[..|ops|-1], ops[|ops|-1];
      assert op in ops && forall o | o in init :: o in ops;
      var p := Run(EMPTY, init);
      CounterCountsTrailingFailures(init, key);
      RunGood(init, key);
      StepEffect(p, op, key);
      assert Effect(p, op, key);
      TrailingAppend(Verdicts(init, key), true);
      TrailingAppend(Verdicts(init, key), false);
      assert Verdicts(init, key) + [] == Verdicts(init, key);
    }
  }

  // A full cycle removes a node exactly when it is current, its first
  // observation of the node is unreachable, and that is the third in a row.
  lemma RemovedAtThree(ops: seq<Op>, os: seq<Observation>, gen: nat, now: int, key: Key)
    requires AllProduction(ops) && NodeOf(Run(EMPTY, ops).proxies, key).Some?
    ensures var p := Run(EMPTY, ops);
            NodeOf(Step(p, OpFullCommit(os, gen, now)).proxies, key) == None
            <==> && gen == p.healthGeneration
                 && FirstObservation(os, key).Some? && !FirstObservation(os, key).value.reachable
                 && TrailingTrue(Verdicts(ops, key)) == 2
  {
    hide RunCycle, CycleStep, Verdicts;
    var p := Run(EMPTY, ops);
    RunGood(ops, key);
    CounterCountsTrailingFailures(ops, key);
    CycleOfKey(Cycle(p.proxies, p.stats, {}, {}), os, now, key);
    CommitOfKey(p, os, now, key);
  }

  // Stale full cycles and repeated observations change nothing.
  lemma StaleCycleIgnored(p: Pool, os: seq<Observation>, gen: nat, now: int)
    requires gen != p.healthGeneration
    ensures Step(p, OpFullCommit(os, gen, now)) == p
  {
  }

  lemma DuplicateObservationIgnored(p: Pool, os: seq<Observation>, o: Observation, now: int, key: Key)
    requires UniqueKeys(p.proxies) && FirstObservation(os, o.key).Some?
    ensures NodeOf(FullCycle(p, os + [o], now).proxies, key) == NodeOf(FullCycle(p, os, now).proxies, key)
    ensures CycleStats(FullCycle(p, os + [o], now), key) == CycleStats(FullCycle(p, os, now), key)
    ensures key in FullCycle(p, os + [o], now).remove <==> key in FullCycle(p, os, now).remove
  {
    assert (os + [o])[..|os + [o]|-1] == os;
    CycleOfKey(Cycle(p.proxies, p.stats, {}, {}), os, now, key);
    CycleOfKey(Cycle(p.proxies, p.stats, {}, {}), os + [o], now, key);
  }
}
