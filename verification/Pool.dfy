// The live pool as a value, and every critical section that changes it as one
// function (pool.go).  Each function is what happens while p.mu is held.
module Pool {
  import opened Proxies
  import Lexicographic

  datatype Pool = Pool(
    proxies: seq<Proxy>,
    stats: map<Key, Stats>,
    cursors: map<string, Cursor>,
    recheckCursor: Option<Key>,
    healthGeneration: nat,
    cacheGeneration: nat,
    routingRevision: nat,
    statsRevision: nat,
    activeRevision: nat,
    cached: bool,  // a disk cache is attached
    timer: bool)   // a debounced write is scheduled

  const EMPTY := Pool([], map[], map[], None, 0, 0, 0, 0, 0, false, false)

  // ------------------------------------------------------ order by address

  predicate Before(a: Key, b: Key) {
    Lexicographic.PairLess(a.addr, a.protocol, b.addr, b.protocol)
  }

  ghost predicate Sorted(s: seq<Proxy>) {
    forall i, j | 0 <= i < j < |s| :: Before(s[i].key, s[j].key)
  }

  lemma BeforeIsStrict(a: Key, b: Key, c: Key)
    ensures !Before(a, a)
    ensures Before(a, b) && Before(b, c) ==> Before(a, c)
    ensures Before(a, b) || a == b || Before(b, a)
    ensures Before(a, b) ==> !Before(b, a) && a != b
  {
    Lexicographic.PairIrreflexive(a.addr, a.protocol);
    Lexicographic.PairTrichotomy(a.addr, a.protocol, b.addr, b.protocol);
    if Before(a, b) {
      Lexicographic.PairAsymmetric(a.addr, a.protocol, b.addr, b.protocol);
      if Before(b, c) {
        Lexicographic.PairTransitive(a.addr, a.protocol, b.addr, b.protocol, c.addr, c.protocol);
      }
    }
  }

  lemma SortedIsUnique(s: seq<Proxy>)
    requires Sorted(s)
    ensures UniqueKeys(s)
  {
    forall i, j | 0 <= i < j < |s| ensures s[i].key != s[j].key {
      BeforeIsStrict(s[i].key, s[j].key, s[j].key);
    }
  }

  predicate IsLeast(ks: set<Key>, k: Key) {
    k in ks && forall o | o in ks :: o == k || Before(k, o)
  }

  lemma LeastExists(ks: set<Key>)
    requires ks != {}
    ensures exists k :: k in ks && IsLeast(ks, k)
    decreases |ks|
  {
    var k :| k in ks;
    var rest := ks - {k};
    assert forall o | o in ks :: o == k || o in rest;
    if rest == {} {
      assert IsLeast(ks, k);
    } else {
      LeastExists(rest);
      var m :| m in rest && IsLeast(rest, m);
      var least := if Before(k, m) then k else m;
      forall o | o in ks ensures o == least || Before(least, o) {
        BeforeIsStrict(k, m, o);
        BeforeIsStrict(m, k, o);
      }
      assert IsLeast(ks, least);
    }
  }

  lemma LeastUnique(ks: set<Key>)
    ensures forall k, m | IsLeast(ks, k) && IsLeast(ks, m) :: k == m
  {
    forall k, m | IsLeast(ks, k) && IsLeast(ks, m) ensures k == m {
      BeforeIsStrict(k, m, k);
    }
  }

  function Least(ks: set<Key>): (k: Key)
    requires ks != {}
    ensures IsLeast(ks, k)
  {
    LeastExists(ks);
    LeastUnique(ks);
    var k :| k in ks && IsLeast(ks, k);
    k
  }

  predicate Coherent(m: map<Key, Proxy>) { forall k | k in m :: m[k].key == k }

  lemma DropKey(m: map<Key, Proxy>, k: Key)
    requires k in m
    ensures (m - {k}).Keys == m.Keys - {k} && |m - {k}| == |m| - 1
  {
    assert |(m - {k}).Keys| == |m.Keys| - 1;
  }

  // A map of nodes as the slice sort.Slice produces from it.
  function ByAddr(m: map<Key, Proxy>): seq<Proxy>
    decreases |m|
  {
    if m == map[] then []
    else
      var k := Least(m.Keys);
      DropKey(m, k);
      [m[k]] + ByAddr(m - {k})
  }

  lemma {:induction false} ByAddrSorted(m: map<Key, Proxy>)
    requires Coherent(m)
    ensures Sorted(ByAddr(m))
    ensures forall px :: px in ByAddr(m) <==> px.key in m && m[px.key] == px
    decreases |m|
  {
    if m != map[] {
      var k := Least(m.Keys);
      DropKey(m, k);
      ByAddrSorted(m - {k});
      var rest := ByAddr(m - {k});
      assert ByAddr(m) == [m[k]] + rest;
      forall j | 0 <= j < |rest| ensures Before(k, rest[j].key) {
        assert rest[j] in rest;
      }
    }
  }

  function AsMap(s: seq<Proxy>): (m: map<Key, Proxy>)
    ensures Coherent(m) && m.Keys == Keys(s)
  {
    if s == [] then map[]
    else
      assert s == s[..|s|-1] + [s[|s|-1]];
      AsMap(s[..|s|-1])[s[|s|-1].key := s[|s|-1]]
  }

  lemma {:induction false} AsMapHolds(s: seq<Proxy>)
    requires UniqueKeys(s)
    ensures forall px | px in s :: px.key in AsMap(s) && AsMap(s)[px.key] == px
    ensures forall k | k in AsMap(s) :: AsMap(s)[k] in s
  {
    if s != [] {
      var init, last := s[..|s|-1], s[|s|-1];
      assert s == init + [last];
      AsMapHolds(init);
      forall px | px in init ensures px.key != last.key {
        var i :| 0 <= i < |init| && init[i] == px;
        assert s[i].key != s[|s|-1].key;
      }
    }
  }

  // ------------------------------------------------------------- small steps

  function Lookup(s: seq<Proxy>, key: Key): (r: Option<nat>)
    ensures r.Some? ==> r.value < |s| && s[r.value].key == key
    ensures r == None ==> forall px | px in s :: px.key != key
  {
    if s == [] then None
    else
      var r := Lookup(s[..|s|-1], key);
      assert s == s[..|s|-1] + [s[|s|-1]];
      if r.Some? then r else if s[|s|-1].key == key then Some(|s| - 1) else None
  }

  function StatsFor(p: Pool, key: Key): Stats {
    if key in p.stats then p.stats[key] else UNSEEN
  }

  // queuePersistenceLocked
  function Queue(p: Pool): Pool {
    p.(cacheGeneration := p.cacheGeneration + 1, timer := p.timer || p.cached)
  }

  // mutateProxyLocked, once the node is found
  function Replace(p: Pool, i: nat, px: Proxy): Pool
    requires i < |p.proxies|
  {
    p.(proxies := p.proxies[i := px], routingRevision := p.routingRevision + 1)
  }

  function CleanCursor(c: Cursor, live: set<Key>): Cursor {
    var lostSticky := c.stickyKey.Some? && c.stickyKey.value !in live;
    var lostPicked := c.lastPicked.Some? && c.lastPicked.value !in live;
    var c1 := if lostSticky then c.(stickyKey := None, pinned := false) else c;
    if lostPicked then c1.(lastPicked := None) else c1
  }

  // cleanedGroupState
  function CleanCursors(cs: map<string, Cursor>, live: set<Key>): map<string, Cursor> {
    map name | name in cs && (CleanCursor(cs[name], live).stickyKey.Some? || CleanCursor(cs[name], live).lastPicked.Some?)
      :: CleanCursor(cs[name], live)
  }

  // --------------------------------------------------------------- mutators

  function RecordResult(p: Pool, key: Key, ok: bool, latencyMs: int): Pool {
    var st := StatsFor(p, key);
    var st' := if ok
               then st.(successes := st.successes + 1, healthFailures := 0,
                        lastLatencyMs := if latencyMs > 0 then latencyMs else st.lastLatencyMs)
               else st.(failures := st.failures + 1);
    Queue(p.(stats := p.stats[key := st'], statsRevision := p.statsRevision + 1))
  }

  predicate Rejected(p: Pool, gen: Option<nat>) { gen.Some? && p.healthGeneration != gen.value }

  function ObservedStats(st: Stats, reachable: bool, allowed: bool, latencyMs: int, manual: bool, now: int): Stats {
    if reachable
    then st.(healthFailures := 0, lastHealthSuccessAt := Some(now),
             terminal := st.terminal && !(manual && allowed),
             lastLatencyMs := if latencyMs > 0 then latencyMs else st.lastLatencyMs)
    else st.(healthFailures := st.healthFailures + 1, terminal := true)
  }

  function ObservedNode(px: Proxy, st': Stats, reachable: bool, allowed: bool, latencyMs: int): Proxy {
    if reachable
    then px.(healthInvalidated := st'.terminal, policyExcluded := !allowed,
             available := allowed && !px.sourceRetired && !st'.terminal, latencyMs := latencyMs)
    else px.(healthInvalidated := true, available := false, policyExcluded := false)
  }

  // observeHealthOutcome
  function ObserveHealth(p: Pool, key: Key, reachable: bool, allowed: bool, latencyMs: int, gen: Option<nat>, manual: bool, now: int): Pool {
    if Rejected(p, gen) then p
    else if reachable && StatsFor(p, key).terminal && !manual then p
    else
      var i := Lookup(p.proxies, key);
      if i == None then p
      else
        var st' := ObservedStats(StatsFor(p, key), reachable, allowed, latencyMs, manual, now);
        var px' := ObservedNode(p.proxies[i.value], st', reachable, allowed, latencyMs);
        var p1 := Replace(p, i.value, px');
        Queue(p1.(stats := p1.stats[key := st'], statsRevision := p1.statsRevision + 1))
  }

  function UpdateLatency(p: Pool, key: Key, latencyMs: int): Pool {
    var i := Lookup(p.proxies, key);
    if i == None then p else Queue(Replace(p, i.value, p.proxies[i.value].(latencyMs := latencyMs)))
  }

  function SetAvailable(p: Pool, key: Key, available: bool): Pool {
    var i := Lookup(p.proxies, key);
    if i == None then p
    else
      var px := p.proxies[i.value];
      var p1 := Replace(p, i.value, px.(available := available && HardRoutable(px)));
      Queue(if available && key in p1.stats
            then p1.(stats := p1.stats[key := p1.stats[key].(healthFailures := 0)]) else p1)
  }

  function SetPolicyExcluded(p: Pool, key: Key, excluded: bool, gen: nat): Pool {
    var i := Lookup(p.proxies, key);
    if p.healthGeneration != gen || i == None then p
    else
      var px, terminal := p.proxies[i.value], StatsFor(p, key).terminal;
      Queue(Replace(p, i.value, px.(healthInvalidated := terminal, policyExcluded := excluded,
                                    available := px.available && !excluded && !terminal)))
  }

  function InvalidatedNodes(s: seq<Proxy>): seq<Proxy> {
    seq(|s|, i requires 0 <= i < |s| => s[i].(healthInvalidated := true, available := false))
  }

  function InvalidatedStats(stats: map<Key, Stats>, live: set<Key>): map<Key, Stats> {
    map k | k in stats ::
      if k in live then stats[k].(healthFailures := 0, fullRecheckFailures := 0, lastHealthSuccessAt := None) else stats[k]
  }

  function InvalidateHealth(p: Pool): Pool {
    Queue(p.(healthGeneration := p.healthGeneration + 1,
             proxies := InvalidatedNodes(p.proxies),
             stats := InvalidatedStats(p.stats, Keys(p.proxies)),
             routingRevision := p.routingRevision + 1))
  }

  function UpdateCredentials(p: Pool, key: Key, credential: Credential, alternates: seq<Credential>, gen: nat): Pool {
    var i := Lookup(p.proxies, key);
    if p.healthGeneration != gen || i == None then p
    else
      var px := p.proxies[i.value];
      var p1 := Replace(p, i.value, px.(credential := credential, alternates := alternates));
      if px.credential == credential && px.alternates == alternates then p1 else Queue(p1)
  }

  function UpdateGeo(p: Pool, key: Key, exitIP: string, country: string, gen: Option<nat>): Pool {
    var i := Lookup(p.proxies, key);
    if Rejected(p, gen) || i == None then p
    else
      var px := p.proxies[i.value].(exitIP := exitIP);
      Queue(Replace(p, i.value, if country != "" then px.(country := country) else px))
  }

  function UpdateSpeed(p: Pool, key: Key, kbps: real): Pool {
    var i := Lookup(p.proxies, key);
    if i == None then p else Queue(Replace(p, i.value, p.proxies[i.value].(speedKbps := kbps)))
  }

  // The enabled sources, by stable id and by display name.
  datatype Enabled = Enabled(ids: set<string>, names: set<string>)

  predicate Owned(px: Proxy) { px.sourceIDs != [] || px.sourceNames != [] }

  predicate AllEnabled(px: Proxy, on: Enabled) {
    if px.sourceIDs != [] then forall id | id in px.sourceIDs :: id in on.ids
    else forall name | name in px.sourceNames :: name in on.names
  }

  function Retire(px: Proxy, on: Enabled): Proxy {
    if Owned(px) && !AllEnabled(px, on) then px.(sourceRetired := true, available := false) else px
  }

  function RetireAll(s: seq<Proxy>, on: Enabled): seq<Proxy> {
    seq(|s|, i requires 0 <= i < |s| => Retire(s[i], on))
  }

  function ApplyEnabledSources(p: Pool, on: Enabled): Pool {
    if RetireAll(p.proxies, on) == p.proxies then p
    else Queue(p.(proxies := RetireAll(p.proxies, on), routingRevision := p.routingRevision + 1))
  }

  // mergeFreshProxy
  function MergeFresh(existing: Proxy, found: Proxy): Proxy {
    var f1 := found.(speedKbps := existing.speedKbps);
    var f2 := if f1.credential.username == "" then f1.(credential := existing.credential) else f1;
    var f3 := if f2.exitIP == "" then f2.(exitIP := existing.exitIP) else f2;
    if f3.country == "" then f3.(country := existing.country) else f3
  }

  function Accepted(px: Proxy): Proxy {
    px.(available := true, sourceRetired := false, healthInvalidated := false, policyExcluded := false)
  }

  datatype Merging = Merging(nodes: map<Key, Proxy>, stats: map<Key, Stats>, freshKeys: set<Key>)

  // The nodes this refresh found alive, folded over what the pool holds.
  function FoldFresh(m: Merging, found: seq<Proxy>, now: int): Merging {
    if found == [] then m else FreshStep(FoldFresh(m, found[..|found|-1], now), found[|found|-1], now)
  }

  function FreshStep(before: Merging, found: Proxy, now: int): Merging {
    var px := Accepted(found);
    var st := if px.key in before.stats then before.stats[px.key] else UNSEEN;
    if px.key.protocol == "proxyip" || st.terminal then before
    else
      var merged := if px.key in before.nodes then MergeFresh(before.nodes[px.key], px) else px;
      Merging(before.nodes[px.key := merged],
              before.stats[px.key := st.(healthFailures := 0, lastHealthSuccessAt := Some(now))],
              before.freshKeys + {px.key})
  }

  function Unreachable(m: Merging, failed: set<Key>): set<Key> {
    set k | k in failed && k !in m.freshKeys && k in m.nodes
  }

  function Exclude(nodes: map<Key, Proxy>, filtered: set<Key>): map<Key, Proxy> {
    map k | k in nodes ::
      if k in filtered then nodes[k].(healthInvalidated := false, policyExcluded := true, available := false) else nodes[k]
  }

  lemma {:induction false} FoldFreshCoherent(m: Merging, found: seq<Proxy>, now: int)
    requires Coherent(m.nodes)
    ensures Coherent(FoldFresh(m, found, now).nodes)
  {
    if found != [] { FoldFreshCoherent(m, found[..|found|-1], now); }
  }

  function RefreshedNodes(p: Pool, found: seq<Proxy>, failed: set<Key>, filtered: set<Key>, now: int): seq<Proxy> {
    var start := Merging(AsMap(p.proxies), p.stats, {});
    var m := FoldFresh(start, found, now);
    FoldFreshCoherent(start, found, now);
    ByAddr(Exclude(m.nodes - Unreachable(m, failed), filtered))
  }

  // update: one refresh, published as a single routing transition.
  function Refresh(p: Pool, found: seq<Proxy>, failed: set<Key>, filtered: set<Key>, on: Option<Enabled>, gen: Option<nat>, now: int): Pool {
    if Rejected(p, gen) then p
    else
      var m := FoldFresh(Merging(AsMap(p.proxies), p.stats, {}), found, now);
      var gone := Unreachable(m, failed);
      var nodes := RefreshedNodes(p, found, failed, filtered, now);
      var proxies := if on.Some? then RetireAll(nodes, on.value) else nodes;
      var p1 := p.(proxies := proxies, stats := m.stats - gone,
                   routingRevision := p.routingRevision + 1,
                   cacheGeneration := p.cacheGeneration + 1, timer := false);
      if gone == {} then p1
      else p1.(cursors := CleanCursors(p.cursors, Keys(proxies)),
               recheckCursor := if p.recheckCursor.Some? && p.recheckCursor.value !in Keys(proxies) then None else p.recheckCursor,
               statsRevision := p.statsRevision + 1)
  }

  // PromoteCandidateSpeed
  function Promote(p: Pool, px: Proxy, on: Enabled, gen: nat, kbps: real, now: int): Pool {
    if !AllEnabled(px, on) || p.healthGeneration != gen then p
    else
      var found := Accepted(px);
      var i := Lookup(p.proxies, px.key);
      var st := StatsFor(p, px.key).(healthFailures := 0, terminal := false, lastHealthSuccessAt := Some(now));
      var admitted := (if i.Some? then MergeFresh(p.proxies[i.value], found) else found).(speedKbps := kbps);
      var proxies := if i.Some? then p.proxies[i.value := admitted] else ByAddr(AsMap(p.proxies)[px.key := admitted]);
      Queue(p.(proxies := proxies, stats := p.stats[px.key := st], routingRevision := p.routingRevision + 1))
  }

  // --------------------------------------------- persist-then-publish plans

  datatype Plan = Plan(proxies: seq<Proxy>, stats: map<Key, Stats>, cursors: map<string, Cursor>, removed: seq<Key>)

  function Without(s: seq<Proxy>, gone: set<Key>): seq<Proxy> {
    if s == [] then []
    else Without(s[..|s|-1], gone) + (if s[|s|-1].key in gone then [] else [s[|s|-1]])
  }

  function RemovedKeys(s: seq<Proxy>, gone: set<Key>): seq<Key> {
    if s == [] then []
    else RemovedKeys(s[..|s|-1], gone) + (if s[|s|-1].key in gone then [s[|s|-1].key] else [])
  }

  function RestrictStats(stats: map<Key, Stats>, live: set<Key>): map<Key, Stats> {
    map k | k in stats && k in live :: stats[k]
  }

  // buildDeletePlanLocked: the inventory without some nodes.
  function DeletePlan(p: Pool, gone: set<Key>): Plan {
    var proxies := Without(p.proxies, gone);
    Plan(proxies, RestrictStats(p.stats, Keys(proxies)), CleanCursors(p.cursors, Keys(proxies)), RemovedKeys(p.proxies, gone))
  }

  // The nodes ClearUnavailable purges.
  function UnavailableKeys(p: Pool): set<Key> { set px | px in p.proxies && !px.available :: px.key }

  datatype Observation = Observation(
    key: Key, reachable: bool, allowed: bool, latencyMs: int,
    credentials: Option<(Credential, seq<Credential>)>, exitIP: string, country: string)

  const FULL_RECHECK_REMOVAL_THRESHOLD := 3

  datatype Cycle = Cycle(proxies: seq<Proxy>, stats: map<Key, Stats>, seen: set<Key>, remove: set<Key>)

  function CheckedNode(px: Proxy, o: Observation): Proxy {
    var c := if o.credentials.Some? then px.(credential := o.credentials.value.0, alternates := o.credentials.value.1) else px;
    var g := if o.exitIP == "" then c
             else if o.country != "" then c.(exitIP := o.exitIP, country := o.country) else c.(exitIP := o.exitIP);
    if o.reachable
    then g.(healthInvalidated := false, policyExcluded := !o.allowed, available := o.allowed && !g.sourceRetired, latencyMs := o.latencyMs)
    else g.(healthInvalidated := true, available := false, policyExcluded := false)
  }

  function CheckedStats(st: Stats, o: Observation, now: int): Stats {
    if o.reachable
    then st.(healthFailures := 0, fullRecheckFailures := 0, lastHealthSuccessAt := Some(now), terminal := false,
             lastLatencyMs := if o.latencyMs > 0 then o.latencyMs else st.lastLatencyMs)
    else st.(healthFailures := st.healthFailures + 1, fullRecheckFailures := st.fullRecheckFailures + 1, terminal := true)
  }

  function CycleStep(c: Cycle, o: Observation, now: int): Cycle {
    var i := Lookup(c.proxies, o.key);
    if o.key in c.seen || i == None then c
    else
      var st := if o.key in c.stats then c.stats[o.key] else UNSEEN;
      var st' := CheckedStats(st, o, now);
      Cycle(c.proxies[i.value := CheckedNode(c.proxies[i.value], o)],
            c.stats[o.key := st'], c.seen + {o.key},
            if !o.reachable && st'.fullRecheckFailures >= FULL_RECHECK_REMOVAL_THRESHOLD then c.remove + {o.key} else c.remove)
  }

  function RunCycle(c: Cycle, os: seq<Observation>, now: int): Cycle {
    if os == [] then c else CycleStep(RunCycle(c, os[..|os|-1], now), os[|os|-1], now)
  }

  // buildFullHealthCommitPlanLocked
  function FullCycle(p: Pool, os: seq<Observation>, now: int): Cycle {
    RunCycle(Cycle(p.proxies, p.stats, {}, {}), os, now)
  }

  function FullCommitPlan(p: Pool, os: seq<Observation>, now: int): Plan {
    var c := FullCycle(p, os, now);
    if c.remove == {} then Plan(c.proxies, c.stats, p.cursors, [])
    else
      var proxies := Without(c.proxies, c.remove);
      Plan(proxies, c.stats - c.remove, CleanCursors(p.cursors, Keys(proxies)), RemovedKeys(c.proxies, c.remove))
  }

  // Reserving a cache generation for a plan cancels the scheduled write.
  function Reserve(p: Pool): Pool {
    if p.cached then p.(cacheGeneration := p.cacheGeneration + 1, timer := false) else p
  }

  // publishDeletePlanLocked
  function Publish(p: Pool, plan: Plan): Pool {
    p.(proxies := plan.proxies, stats := plan.stats, cursors := plan.cursors,
       routingRevision := p.routingRevision + 1, statsRevision := p.statsRevision + 1)
  }

  // ------------------------------------------------------------ the cursors

  predicate IsAny(name: string) { name == "ANY" || name == "" }

  function CursorOf(p: Pool, name: string): Cursor {
    if name in p.cursors then p.cursors[name] else NO_CURSOR
  }

  function SetCursor(p: Pool, name: string, c: Cursor): Pool {
    p.(cursors := p.cursors[name := c],
       activeRevision := if IsAny(name) && c.stickyKey != CursorOf(p, name).stickyKey then p.activeRevision + 1 else p.activeRevision)
  }

  // The cursor a successful pick leaves behind.
  function PickedCursor(c: Cursor, strategy: Strategy, chosen: Key, preservePin: bool): Cursor {
    var c1 := if strategy == RoundRobin then c.(rrIdx := c.rrIdx + 1) else c;
    var c2 := if strategy == Sticky && !preservePin then c1.(stickyKey := Some(chosen)) else c1;
    c2.(lastPicked := Some(chosen))
  }

  function CommitPick(p: Pool, name: string, strategy: Strategy, chosen: Key, preservePin: bool): Pool {
    SetCursor(p, name, PickedCursor(CursorOf(p, name), strategy, chosen, preservePin))
  }

  // forceSticky: a manual switch to a node that is healthy now.
  function ForceSticky(p: Pool, name: string, key: Key): Pool {
    var i := Lookup(p.proxies, key);
    if i == None || !p.proxies[i.value].available || !HardRoutable(p.proxies[i.value]) then p
    else SetCursor(p, name, CursorOf(p, name).(stickyKey := Some(key), lastPicked := Some(key), pinned := true))
  }

  function SetAuto(p: Pool, name: string): Pool {
    if name in p.cursors then p.(cursors := p.cursors[name := p.cursors[name].(pinned := false)]) else p
  }

  // -------------------------------------------------------------- operations

  // Every critical section other goroutines may run between two lock releases.
  datatype Op =
    | OpRecord(key: Key, ok: bool, latencyMs: int)
    | OpObserve(key: Key, reachable: bool, allowed: bool, latencyMs: int, gen: Option<nat>, manual: bool, now: int)
    | OpLatency(key: Key, latencyMs: int)
    | OpSetAvailable(key: Key, available: bool)
    | OpSetPolicy(key: Key, excluded: bool, generation: nat)
    | OpInvalidate
    | OpCredentials(key: Key, credential: Credential, alternates: seq<Credential>, generation: nat)
    | OpGeo(key: Key, exitIP: string, country: string, gen: Option<nat>)
    | OpSpeed(key: Key, kbps: real)
    | OpEnabledSources(on: Enabled)
    | OpRefresh(found: seq<Proxy>, failed: set<Key>, filtered: set<Key>, sources: Option<Enabled>, gen: Option<nat>, now: int)
    | OpPromote(px: Proxy, on: Enabled, generation: nat, kbps: real, now: int)
    | OpRemove(gone: set<Key>)                             // RemoveKeys publishes
    | OpClearUnavailable                                   // ClearUnavailable publishes
    | OpFullCommit(observations: seq<Observation>, generation: nat, now: int)  // a full recheck publishes
    | OpPick(name: string, strategy: Strategy, chosen: Key, preservePin: bool) // another pick commits
    | OpForceSticky(name: string, key: Key)
    | OpSetAuto(name: string)
    | OpRotate(name: string, key: Key)                     // rotateSticky moves the cursor

  function Step(p: Pool, op: Op): Pool {
    match op
    case OpRecord(key, ok, lat) => RecordResult(p, key, ok, lat)
    case OpObserve(key, reachable, allowed, lat, gen, manual, now) => ObserveHealth(p, key, reachable, allowed, lat, gen, manual, now)
    case OpLatency(key, lat) => UpdateLatency(p, key, lat)
    case OpSetAvailable(key, available) => SetAvailable(p, key, available)
    case OpSetPolicy(key, excluded, gen) => SetPolicyExcluded(p, key, excluded, gen)
    case OpInvalidate => InvalidateHealth(p)
    case OpCredentials(key, c, alts, gen) => UpdateCredentials(p, key, c, alts, gen)
    case OpGeo(key, exitIP, country, gen) => UpdateGeo(p, key, exitIP, country, gen)
    case OpSpeed(key, kbps) => UpdateSpeed(p, key, kbps)
    case OpEnabledSources(on) => ApplyEnabledSources(p, on)
    case OpRefresh(found, failed, filtered, on, gen, now) => Refresh(p, found, failed, filtered, on, gen, now)
    case OpPromote(px, on, gen, kbps, now) => Promote(p, px, on, gen, kbps, now)
    case OpRemove(gone) =>
      if DeletePlan(p, gone).removed == [] then p else Publish(Reserve(p), DeletePlan(p, gone))
    case OpClearUnavailable =>
      if DeletePlan(p, UnavailableKeys(p)).removed == [] then p else Publish(Reserve(p), DeletePlan(p, UnavailableKeys(p)))
    case OpFullCommit(os, gen, now) =>
      if p.healthGeneration != gen || FullCycle(p, os, now).seen == {} then p else Publish(Reserve(p), FullCommitPlan(p, os, now))
    case OpPick(name, strategy, chosen, preservePin) => CommitPick(p, name, strategy, chosen, preservePin)
    case OpForceSticky(name, key) => ForceSticky(p, name, key)
    case OpSetAuto(name) => SetAuto(p, name)
    case OpRotate(name, key) => SetCursor(p, name, CursorOf(p, name).(stickyKey := Some(key), lastPicked := Some(key)))
  }

  function Run(p: Pool, ops: seq<Op>): Pool {
    if ops == [] then p else Step(Run(p, ops[..|ops|-1]), ops[|ops|-1])
  }

  lemma {:induction false} RunSplit(p: Pool, a: seq<Op>, b: seq<Op>)
    ensures Run(p, a + b) == Run(Run(p, a), b)
  {
    if b == [] {
      assert a + b == a;
    } else {
      RunSplit(p, a, b[..|b|-1]);
      assert (a + b)[..|a + b|-1] == a + b[..|b|-1];
    }
  }

  // --------------------------------------------------- what every step keeps

  lemma {:induction false} WithoutAre(s: seq<Proxy>, gone: set<Key>)
    ensures forall px :: px in Without(s, gone) <==> px in s && px.key !in gone
  {
    if s != [] {
      WithoutAre(s[..|s|-1], gone);
      assert s == s[..|s|-1] + [s[|s|-1]];
    }
  }

  lemma {:induction false} RemovedAre(s: seq<Proxy>, gone: set<Key>)
    ensures forall k :: k in RemovedKeys(s, gone) <==> k in gone && exists px | px in s :: px.key == k
    ensures |Without(s, gone)| + |RemovedKeys(s, gone)| == |s|
  {
    if s != [] {
      RemovedAre(s[..|s|-1], gone);
      assert s == s[..|s|-1] + [s[|s|-1]];
    }
  }

  lemma {:induction false} WithoutSorted(s: seq<Proxy>, gone: set<Key>)
    requires Sorted(s)
    ensures Sorted(Without(s, gone))
  {
    if s != [] {
      var init := s[..|s|-1];
      WithoutSorted(init, gone);
      WithoutAre(init, gone);
      var w := Without(init, gone);
      forall i | 0 <= i < |w| ensures Before(w[i].key, s[|s|-1].key) {
        assert w[i] in init;
        var j :| 0 <= j < |init| && init[j] == w[i];
        assert Before(s[j].key, s[|s|-1].key);
      }
    }
  }

  lemma SortedByKeys(s: seq<Proxy>, t: seq<Proxy>)
    requires Sorted(s) && SameKeys(s, t)
    ensures Sorted(t)
  {
  }

  lemma {:induction false} RunCycleKeys(c: Cycle, os: seq<Observation>, now: int)
    ensures SameKeys(c.proxies, RunCycle(c, os, now).proxies)
  {
    hide CycleStep;
    if os != [] {
      RunCycleKeys(c, os[..|os|-1], now);
      CycleStepKeys(RunCycle(c, os[..|os|-1], now), os[|os|-1], now);
    }
  }

  lemma CycleStepKeys(c: Cycle, o: Observation, now: int)
    ensures SameKeys(c.proxies, CycleStep(c, o, now).proxies)
  {
    hide CheckedStats;
  }

  lemma RefreshedAre(p: Pool, found: seq<Proxy>, failed: set<Key>, filtered: set<Key>, now: int)
    ensures Sorted(RefreshedNodes(p, found, failed, filtered, now))
    ensures var m := FoldFresh(Merging(AsMap(p.proxies), p.stats, {}), found, now);
            var kept := Exclude(m.nodes - Unreachable(m, failed), filtered);
            forall px :: px in RefreshedNodes(p, found, failed, filtered, now) <==> px.key in kept && kept[px.key] == px
  {
    var start := Merging(AsMap(p.proxies), p.stats, {});
    var m := FoldFresh(start, found, now);
    FoldFreshCoherent(start, found, now);
    ByAddrSorted(Exclude(m.nodes - Unreachable(m, failed), filtered));
  }

  lemma RefreshSorted(p: Pool, found: seq<Proxy>, failed: set<Key>, filtered: set<Key>, on: Option<Enabled>, gen: Option<nat>, now: int)
    requires Sorted(p.proxies)
    ensures Sorted(Refresh(p, found, failed, filtered, on, gen, now).proxies)
  {
    hide RefreshedNodes, FoldFresh, Unreachable, AsMap, CleanCursors, Keys, Sorted, Exclude;
    if !Rejected(p, gen) {
      RefreshedAre(p, found, failed, filtered, now);
      SortedByKeys(RefreshedNodes(p, found, failed, filtered, now), Refresh(p, found, failed, filtered, on, gen, now).proxies);
    }
  }

  lemma PromoteSorted(p: Pool, px: Proxy, on: Enabled, gen: nat, kbps: real, now: int)
    requires Sorted(p.proxies)
    ensures Sorted(Promote(p, px, on, gen, kbps, now).proxies)
  {
    if Lookup(p.proxies, px.key) == None {
      ByAddrSorted(AsMap(p.proxies)[px.key := Accepted(px).(speedKbps := kbps)]);
    } else {
      SortedByKeys(p.proxies, Promote(p, px, on, gen, kbps, now).proxies);
    }
  }

  lemma CommitSorted(p: Pool, os: seq<Observation>, now: int)
    requires Sorted(p.proxies)
    ensures Sorted(FullCommitPlan(p, os, now).proxies)
  {
    RunCycleKeys(Cycle(p.proxies, p.stats, {}, {}), os, now);
    var c := FullCycle(p, os, now);
    SortedByKeys(p.proxies, c.proxies);
    WithoutSorted(c.proxies, c.remove);
  }

  predicate Rebuilds(op: Op) {
    op.OpRefresh? || op.OpPromote? || op.OpRemove? || op.OpClearUnavailable? || op.OpFullCommit?
  }

  ghost predicate SameKeys(s: seq<Proxy>, t: seq<Proxy>) {
    |s| == |t| && forall i | 0 <= i < |s| :: s[i].key == t[i].key
  }

  lemma ObserveKeys(p: Pool, key: Key, reachable: bool, allowed: bool, latencyMs: int, gen: Option<nat>, manual: bool, now: int)
    ensures SameKeys(p.proxies, ObserveHealth(p, key, reachable, allowed, latencyMs, gen, manual, now).proxies)
  {
    hide ObservedStats, HardRoutable;
  }

  lemma FlagKeys(p: Pool, key: Key, flag: bool, gen: nat)
    ensures SameKeys(p.proxies, SetAvailable(p, key, flag).proxies)
    ensures SameKeys(p.proxies, SetPolicyExcluded(p, key, flag, gen).proxies)
  {
    hide HardRoutable;
  }

  lemma InvalidateKeys(p: Pool)
    ensures SameKeys(p.proxies, InvalidateHealth(p).proxies)
  {
  }

  lemma HealthOpKeys(p: Pool, op: Op)
    requires op.OpObserve? || op.OpSetAvailable? || op.OpSetPolicy? || op.OpInvalidate?
    ensures SameKeys(p.proxies, Step(p, op).proxies)
  {
    hide ObserveHealth, SetAvailable, SetPolicyExcluded, InvalidateHealth, SameKeys;
    match op {
      case OpObserve(key, reachable, allowed, lat, gen, manual, now) => ObserveKeys(p, key, reachable, allowed, lat, gen, manual, now);
      case OpSetAvailable(key, available) => FlagKeys(p, key, available, 0);
      case OpSetPolicy(key, excluded, gen) => FlagKeys(p, key, excluded, gen);
      case OpInvalidate => InvalidateKeys(p);
    }
  }

  lemma LatencyKeys(p: Pool, key: Key, lat: int)
    ensures SameKeys(p.proxies, UpdateLatency(p, key, lat).proxies)
  {
  }

  lemma CredentialsKeys(p: Pool, key: Key, c: Credential, alts: seq<Credential>, gen: nat)
    ensures SameKeys(p.proxies, UpdateCredentials(p, key, c, alts, gen).proxies)
  {
  }

  lemma SpeedKeys(p: Pool, key: Key, kbps: real)
    ensures SameKeys(p.proxies, UpdateSpeed(p, key, kbps).proxies)
  {
  }

  lemma GeoKeys(p: Pool, key: Key, exitIP: string, country: string, gen: Option<nat>)
    ensures SameKeys(p.proxies, UpdateGeo(p, key, exitIP, country, gen).proxies)
  {
  }

  lemma SourcesKeys(p: Pool, on: Enabled)
    ensures SameKeys(p.proxies, ApplyEnabledSources(p, on).proxies)
  {
  }

  lemma MeasureOpKeys(p: Pool, op: Op)
    requires op.OpLatency? || op.OpCredentials? || op.OpGeo? || op.OpSpeed? || op.OpEnabledSources?
    ensures SameKeys(p.proxies, Step(p, op).proxies)
  {
    hide UpdateLatency, UpdateCredentials, UpdateGeo, UpdateSpeed, ApplyEnabledSources, SameKeys;
    match op {
      case OpLatency(key, lat) => LatencyKeys(p, key, lat);
      case OpCredentials(key, c, alts, gen) => CredentialsKeys(p, key, c, alts, gen);
      case OpGeo(key, exitIP, country, gen) => GeoKeys(p, key, exitIP, country, gen);
      case OpSpeed(key, kbps) => SpeedKeys(p, key, kbps);
      case OpEnabledSources(on) => SourcesKeys(p, on);
    }
  }

  lemma InPlaceKeys(p: Pool, op: Op)
    requires !Rebuilds(op)
    ensures SameKeys(p.proxies, Step(p, op).proxies)
  {
    if op.OpObserve? || op.OpSetAvailable? || op.OpSetPolicy? || op.OpInvalidate? {
      HealthOpKeys(p, op);
    } else if op.OpLatency? || op.OpCredentials? || op.OpGeo? || op.OpSpeed? || op.OpEnabledSources? {
      MeasureOpKeys(p, op);
    } else {
      assert Step(p, op).proxies == p.proxies;
    }
  }

  // Address order, and with it unique keys, survive every operation.
  lemma StepSorted(p: Pool, op: Op)
    requires Sorted(p.proxies)
    ensures Sorted(Step(p, op).proxies)
  {
    if !Rebuilds(op) {
      InPlaceKeys(p, op);
      SortedByKeys(p.proxies, Step(p, op).proxies);
    } else {
      RebuildSorted(p, op);
    }
  }

  lemma RebuildSorted(p: Pool, op: Op)
    requires Sorted(p.proxies) && Rebuilds(op)
    ensures Sorted(Step(p, op).proxies)
  {
    match op {
      case OpRefresh(found, failed, filtered, on, gen, now) => RefreshSorted(p, found, failed, filtered, on, gen, now);
      case OpPromote(px, on, gen, kbps, now) => PromoteSorted(p, px, on, gen, kbps, now);
      case OpRemove(gone) => WithoutSorted(p.proxies, gone);
      case OpClearUnavailable => WithoutSorted(p.proxies, UnavailableKeys(p));
      case OpFullCommit(os, gen, now) => CommitSorted(p, os, now);
    }
  }

  lemma {:induction false} RunSorted(p: Pool, ops: seq<Op>)
    requires Sorted(p.proxies)
    ensures Sorted(Run(p, ops).proxies)
  {
    if ops != [] {
      RunSorted(p, ops[..|ops|-1]);
      StepSorted(Run(p, ops[..|ops|-1]), ops[|ops|-1]);
    }
  }
}
