// What one health result does to a node and its statistics (pool.go), field by
// field, and that it touches no other node.
module HealthOutcomes {
  import opened Proxies
  import opened Pool
  import opened Health

  // What no health result changes.
  ghost predicate SameNode(a: Proxy, b: Proxy) {
    && a.key == b.key && a.sourceIDs == b.sourceIDs && a.sourceNames == b.sourceNames && a.sourceRetired == b.sourceRetired
    && a.speedKbps == b.speedKbps
  }

  ghost predicate SameAddress(a: Proxy, b: Proxy) {
    SameNode(a, b) && a.credential == b.credential && a.alternates == b.alternates && a.country == b.country && a.exitIP == b.exitIP
  }

  ghost predicate SameTraffic(st: Stats, su: Stats) { su.successes == st.successes && su.failures == st.failures }

  ghost predicate OthersUntouched(p: Pool, q: Pool, key: Key) {
    forall k | k != key :: NodeOf(q.proxies, k) == NodeOf(p.proxies, k) && StatsFor(q, k) == StatsFor(p, k)
  }

  // A single check of a node of the pool, measured under the current generation,
  // automatic or manual.
  ghost predicate Counts(p: Pool, key: Key, reachable: bool, gen: Option<nat>, manual: bool) {
    && NodeOf(p.proxies, key).Some?
    && (gen == None || gen == Some(p.healthGeneration))
    && (reachable && StatsFor(p, key).terminal ==> manual)
  }

  // It says whether the node may serve: reachable, allowed, its sources enabled,
  // and not failed for good, which only an allowed manual check lifts.
  ghost predicate Checked(before: Proxy, after: Proxy, st: Stats, su: Stats, reachable: bool, allowed: bool, lat: int, manual: bool, now: int) {
    && (after.available <==> reachable && allowed && !before.sourceRetired && (manual || !st.terminal))
    && (after.policyExcluded <==> reachable && !allowed)
    && (after.healthInvalidated <==> su.terminal)
    && (su.terminal <==> !reachable || (st.terminal && !allowed))
    && after.latencyMs == (if reachable then lat else before.latencyMs)
    && SameAddress(before, after)
    && su.healthFailures == (if reachable then 0 else st.healthFailures + 1)
    && su.lastHealthSuccessAt == (if reachable then Some(now) else st.lastHealthSuccessAt)
    && su.lastLatencyMs == (if reachable && lat > 0 then lat else st.lastLatencyMs)
    && su.fullRecheckFailures == st.fullRecheckFailures && SameTraffic(st, su)
  }

  lemma ObservedIs(before: Proxy, st: Stats, reachable: bool, allowed: bool, lat: int, manual: bool, now: int)
    requires reachable && st.terminal ==> manual
    ensures var su := ObservedStats(st, reachable, allowed, lat, manual, now);
            Checked(before, ObservedNode(before, su, reachable, allowed, lat), st, su, reachable, allowed, lat, manual, now)
  {
  }

  lemma CheckDecides(p: Pool, key: Key, reachable: bool, allowed: bool, lat: int, gen: Option<nat>, manual: bool, now: int)
    requires UniqueKeys(p.proxies) && Counts(p, key, reachable, gen, manual)
    ensures var q := Step(p, OpObserve(key, reachable, allowed, lat, gen, manual, now));
            && NodeOf(q.proxies, key).Some?
            && Checked(NodeOf(p.proxies, key).value, NodeOf(q.proxies, key).value, StatsFor(p, key), StatsFor(q, key),
                       reachable, allowed, lat, manual, now)
            && OthersUntouched(p, q, key) && q.healthGeneration == p.healthGeneration
  {
    hide Checked, ObservedStats, ObservedNode, OthersUntouched;
    var q := Step(p, OpObserve(key, reachable, allowed, lat, gen, manual, now));
    var i := Lookup(p.proxies, key).value;
    var st' := ObservedStats(StatsFor(p, key), reachable, allowed, lat, manual, now);
    var px' := ObservedNode(p.proxies[i], st', reachable, allowed, lat);
    ObservedIs(p.proxies[i], StatsFor(p, key), reachable, allowed, lat, manual, now);
    ObservedSame(p.proxies[i], st', reachable, allowed, lat);
    WrittenAt(p, q, i, px', st');
  }

  // A node and its statistics written in place.
  lemma WrittenAt(p: Pool, q: Pool, i: nat, px: Proxy, st: Stats)
    requires UniqueKeys(p.proxies) && i < |p.proxies| && p.proxies[i].key == px.key
    requires q.proxies == p.proxies[i := px] && q.stats == p.stats[px.key := st]
    ensures NodeOf(q.proxies, px.key) == Some(px) && StatsFor(q, px.key) == st && OthersUntouched(p, q, px.key)
  {
    hide NodeOf;
    forall k ensures NodeOf(q.proxies, k) == if k == px.key then Some(px) else NodeOf(p.proxies, k) {
      ReplaceNode(p.proxies, i, px, k);
    }
  }

  lemma ObservedSame(px: Proxy, st: Stats, reachable: bool, allowed: bool, lat: int)
    ensures ObservedNode(px, st, reachable, allowed, lat).key == px.key
  {
  }

  // Any other single check changes nothing.
  lemma CheckIgnored(p: Pool, key: Key, reachable: bool, allowed: bool, lat: int, gen: Option<nat>, manual: bool, now: int)
    requires !Counts(p, key, reachable, gen, manual)
    ensures Step(p, OpObserve(key, reachable, allowed, lat, gen, manual, now)) == p
  {
  }

  // The node as a full recheck leaves its address and credentials.
  ghost predicate Renewed(before: Proxy, after: Proxy, o: Observation) {
    && after.exitIP == (if o.exitIP != "" then o.exitIP else before.exitIP)
    && after.country == (if o.exitIP != "" && o.country != "" then o.country else before.country)
    && (o.credentials.Some? ==> after.credential == o.credentials.value.0 && after.alternates == o.credentials.value.1)
    && (o.credentials == None ==> after.credential == before.credential && after.alternates == before.alternates)
    && SameNode(before, after)
  }

  ghost predicate Rechecked(before: Proxy, after: Proxy, st: Stats, su: Stats, o: Observation, now: int) {
    && (after.available <==> o.reachable && o.allowed && !before.sourceRetired)
    && (after.policyExcluded <==> o.reachable && !o.allowed)
    && (after.healthInvalidated <==> !o.reachable) && (su.terminal <==> !o.reachable)
    && after.latencyMs == (if o.reachable then o.latencyMs else before.latencyMs)
    && Renewed(before, after, o)
    && su.healthFailures == (if o.reachable then 0 else st.healthFailures + 1)
    && su.fullRecheckFailures == (if o.reachable then 0 else st.fullRecheckFailures + 1)
    && su.lastHealthSuccessAt == (if o.reachable then Some(now) else st.lastHealthSuccessAt)
    && su.lastLatencyMs == (if o.reachable && o.latencyMs > 0 then o.latencyMs else st.lastLatencyMs)
    && SameTraffic(st, su)
  }

  lemma CheckedIs(before: Proxy, st: Stats, o: Observation, now: int)
    ensures Rechecked(before, CheckedNode(before, o), st, CheckedStats(st, o, now), o, now)
  {
  }

  // A full recheck decides on every node by its first observation alone, and
  // removes one that was unreachable for the third time.
  lemma RecheckDecides(p: Pool, os: seq<Observation>, now: int, key: Key)
    requires UniqueKeys(p.proxies) && NodeOf(p.proxies, key).Some? && FirstObservation(os, key).Some?
    ensures var q, o := Step(p, OpFullCommit(os, p.healthGeneration, now)), FirstObservation(os, key).value;
            && (NodeOf(q.proxies, key) == None <==> !o.reachable && StatsFor(p, key).fullRecheckFailures >= 2)
            && (NodeOf(q.proxies, key).Some? ==>
                  Rechecked(NodeOf(p.proxies, key).value, NodeOf(q.proxies, key).value, StatsFor(p, key), StatsFor(q, key), o, now))
  {
    hide RunCycle, FullCommitPlan, FirstObservation, NodeOf, CheckedNode, CheckedStats, Rechecked;
    CycleOfKey(Cycle(p.proxies, p.stats, {}, {}), os, now, key);
    CommitOfKey(p, os, now, key);
    CheckedIs(NodeOf(p.proxies, key).value, StatsFor(p, key), FirstObservation(os, key).value, now);
  }

  // A node it did not observe stays as it was.
  lemma RecheckLeavesUnobserved(p: Pool, os: seq<Observation>, gen: nat, now: int, key: Key)
    requires UniqueKeys(p.proxies) && FirstObservation(os, key) == None
    ensures var q := Step(p, OpFullCommit(os, gen, now));
            NodeOf(q.proxies, key) == NodeOf(p.proxies, key) && StatsFor(q, key) == StatsFor(p, key)
  {
    hide RunCycle, FullCommitPlan, FirstObservation;
    CycleOfKey(Cycle(p.proxies, p.stats, {}, {}), os, now, key);
    CommitOfKey(p, os, now, key);
  }

  // A new criterion puts every node out of service until it is checked again, and
  // starts the counters over.
  lemma InvalidationResets(p: Pool, key: Key)
    requires UniqueKeys(p.proxies) && NodeOf(p.proxies, key).Some?
    ensures var q := Step(p, OpInvalidate);
            q.healthGeneration > p.healthGeneration && NodeOf(q.proxies, key).Some?
    ensures var q := Step(p, OpInvalidate);
            var before, after := NodeOf(p.proxies, key).value, NodeOf(q.proxies, key).value;
            var st, su := StatsFor(p, key), StatsFor(q, key);
            && !after.available && after.healthInvalidated && after.policyExcluded == before.policyExcluded
            && after.latencyMs == before.latencyMs && SameAddress(before, after)
            && su.healthFailures == 0 && su.fullRecheckFailures == 0 && su.lastHealthSuccessAt == None
            && su.terminal == st.terminal && su.lastLatencyMs == st.lastLatencyMs && SameTraffic(st, su)
  {
    InvalidatedOfKey(p.proxies, key);
    NodeOfIn(p.proxies, key);
  }

  // Traffic results count; they never decide on availability.
  lemma TrafficCounts(p: Pool, key: Key, ok: bool, lat: int)
    ensures var q := Step(p, OpRecord(key, ok, lat));
            var st, su := StatsFor(p, key), StatsFor(q, key);
            && q.proxies == p.proxies
            && su.successes == st.successes + (if ok then 1 else 0) && su.failures == st.failures + (if ok then 0 else 1)
            && su.healthFailures == (if ok then 0 else st.healthFailures)
            && su.lastLatencyMs == (if ok && lat > 0 then lat else st.lastLatencyMs)
            && su.terminal == st.terminal && su.fullRecheckFailures == st.fullRecheckFailures
            && su.lastHealthSuccessAt == st.lastHealthSuccessAt
            && forall k | k != key :: StatsFor(q, k) == StatsFor(p, k)
  {
  }

  // ------------------------------------------------------ refresh and promotion

  // The same node, statistics and freshness of one key.
  ghost predicate AgreeOn(a: Merging, b: Merging, key: Key) {
    && (key in a.nodes <==> key in b.nodes) && (key in a.nodes ==> a.nodes[key] == b.nodes[key])
    && (key in a.stats <==> key in b.stats) && (key in a.stats ==> a.stats[key] == b.stats[key])
    && (key in a.freshKeys <==> key in b.freshKeys)
  }

  lemma StepLeaves(m: Merging, px: Proxy, now: int, key: Key)
    requires px.key != key
    ensures AgreeOn(FreshStep(m, px, now), m, key)
  {
    hide MergeFresh;
  }

  lemma StepAgrees(a: Merging, b: Merging, px: Proxy, now: int)
    requires AgreeOn(a, b, px.key)
    ensures AgreeOn(FreshStep(a, px, now), FreshStep(b, px, now), px.key)
  {
    hide MergeFresh;
  }

  lemma {:induction false} FoldLeaves(m: Merging, found: seq<Proxy>, now: int, key: Key)
    requires key !in Keys(found)
    ensures AgreeOn(FoldFresh(m, found, now), m, key)
  {
    hide FreshStep;
    if found != [] {
      var init, last := found[..|found|-1], found[|found|-1];
      assert last in found && forall px | px in init :: px in found;
      FoldLeaves(m, init, now, key);
      StepLeaves(FoldFresh(m, init, now), last, now, key);
    }
  }

  // Of distinct declarations, each is merged with what the pool held of it.
  lemma {:induction false} FoldOnce(m: Merging, found: seq<Proxy>, now: int, px: Proxy)
    requires UniqueKeys(found) && px in found
    ensures AgreeOn(FoldFresh(m, found, now), FreshStep(m, px, now), px.key)
  {
    hide FreshStep;
    var init, last := found[..|found|-1], found[|found|-1];
    assert found == init + [last];
    if px == last {
      assert px.key !in Keys(init);
      FoldLeaves(m, init, now, px.key);
      StepAgrees(FoldFresh(m, init, now), m, px, now);
    } else {
      FoldOnce(m, init, now, px);
      var i :| 0 <= i < |init| && init[i] == px;
      assert found[i].key != found[|found|-1].key;
      StepLeaves(FoldFresh(m, init, now), last, now, px.key);
    }
  }

  // A node declared again: the new declaration, with the speed, and where the
  // declaration is blank the credential, exit address and country, of the node.
  ghost predicate DeclaredAgain(before: Proxy, found: Proxy, after: Proxy) {
    && after.key == found.key && after.sourceIDs == found.sourceIDs && after.sourceNames == found.sourceNames
    && after.alternates == found.alternates && after.latencyMs == found.latencyMs
    && after.credential == (if found.credential.username != "" then found.credential else before.credential)
    && after.exitIP == (if found.exitIP != "" then found.exitIP else before.exitIP)
    && after.country == (if found.country != "" then found.country else before.country)
  }

  lemma FreshIs(m: Merging, px: Proxy, now: int)
    requires px.key.protocol != "proxyip" && !(px.key in m.stats && m.stats[px.key].terminal)
    ensures var r := FreshStep(m, px, now);
            && px.key in r.nodes && px.key in r.stats
            && (px.key in m.nodes ==> DeclaredAgain(m.nodes[px.key], px, r.nodes[px.key]) && r.nodes[px.key].speedKbps == m.nodes[px.key].speedKbps)
            && (px.key !in m.nodes ==> DeclaredAgain(px, px, r.nodes[px.key]) && r.nodes[px.key].speedKbps == px.speedKbps)
            && r.nodes[px.key].available && HardRoutable(r.nodes[px.key])
            && r.stats[px.key].healthFailures == 0 && r.stats[px.key].lastHealthSuccessAt == Some(now)
            && SameTraffic(if px.key in m.stats then m.stats[px.key] else UNSEEN, r.stats[px.key])
  {
  }

  // A current refresh: what becomes of a node it found alive.
  lemma RefreshRenews(p: Pool, found: seq<Proxy>, failed: set<Key>, filtered: set<Key>, on: Enabled, now: int, px: Proxy)
    requires UniqueKeys(p.proxies) && UniqueKeys(found) && px in found && px.key.protocol != "proxyip" && !StatsFor(p, px.key).terminal
    ensures var q := Step(p, OpRefresh(found, failed, filtered, Some(on), Some(p.healthGeneration), now));
            NodeOf(q.proxies, px.key).Some?
    ensures var q := Step(p, OpRefresh(found, failed, filtered, Some(on), Some(p.healthGeneration), now));
            var was, after, su := NodeOf(p.proxies, px.key), NodeOf(q.proxies, px.key).value, StatsFor(q, px.key);
            && DeclaredAgain(if was.Some? then was.value else px, px, after)
            && after.speedKbps == (if was.Some? then was.value.speedKbps else px.speedKbps)
            && (after.available <==> px.key !in filtered && !SourcesOff(px, on))
            && (after.policyExcluded <==> px.key in filtered) && (after.sourceRetired <==> SourcesOff(px, on))
            && su.healthFailures == 0 && su.lastHealthSuccessAt == Some(now) && SameTraffic(StatsFor(p, px.key), su)
  {
    hide FoldFresh, FreshStep, NodeOf, RefreshedNodes, ByAddr;
    var start := Merging(AsMap(p.proxies), p.stats, {});
    RefreshOfKey(p, found, failed, filtered, on, now, px.key);
    MapOfKey(p.proxies, px.key);
    FoldOnce(start, found, now, px);
    FreshIs(start, px, now);
    FoldFreshFresh(start, px, now);
  }

  lemma FoldFreshFresh(m: Merging, px: Proxy, now: int)
    requires px.key.protocol != "proxyip" && !(px.key in m.stats && m.stats[px.key].terminal)
    ensures px.key in FreshStep(m, px, now).freshKeys
  {
  }

  // What becomes of a node it did not find: gone if it failed its check, else
  // what the policy filter and the sources leave of it.
  lemma RefreshLeaves(p: Pool, found: seq<Proxy>, failed: set<Key>, filtered: set<Key>, on: Enabled, now: int, key: Key)
    requires UniqueKeys(p.proxies) && key !in Keys(found)
    ensures var q := Step(p, OpRefresh(found, failed, filtered, Some(on), Some(p.healthGeneration), now));
            && (NodeOf(q.proxies, key).Some? <==> NodeOf(p.proxies, key).Some? && key !in failed)
            && (NodeOf(q.proxies, key).Some? ==>
                  var before, after := NodeOf(p.proxies, key).value, NodeOf(q.proxies, key).value;
                  && SameAddress(before, after.(sourceRetired := before.sourceRetired)) && after.latencyMs == before.latencyMs
                  && (after.available <==> before.available && key !in filtered && !SourcesOff(before, on))
                  && (after.policyExcluded <==> before.policyExcluded || key in filtered)
                  && (after.sourceRetired <==> before.sourceRetired || SourcesOff(before, on))
                  && StatsFor(q, key) == StatsFor(p, key))
  {
    hide FoldFresh, NodeOf, RefreshedNodes, ByAddr;
    var start := Merging(AsMap(p.proxies), p.stats, {});
    RefreshOfKey(p, found, failed, filtered, on, now, key);
    MapOfKey(p.proxies, key);
    FoldLeaves(start, found, now, key);
  }

  // A promotion under the current generation: in service, whatever it was.
  lemma PromotionAdmits(p: Pool, px: Proxy, on: Enabled, kbps: real, now: int)
    requires UniqueKeys(p.proxies) && !SourcesOff(px, on)
    ensures var q := Step(p, OpPromote(px, on, p.healthGeneration, kbps, now));
            NodeOf(q.proxies, px.key).Some?
    ensures var q := Step(p, OpPromote(px, on, p.healthGeneration, kbps, now));
            var was, after, su := NodeOf(p.proxies, px.key), NodeOf(q.proxies, px.key).value, StatsFor(q, px.key);
            && DeclaredAgain(if was.Some? then was.value else px, px, after)
            && after.available && HardRoutable(after) && after.speedKbps == kbps
            && !su.terminal && su.healthFailures == 0 && su.lastHealthSuccessAt == Some(now)
            && SameTraffic(StatsFor(p, px.key), su) && OthersUntouched(p, q, px.key)
  {
    hide ByAddr, AsMap;
    var q := Step(p, OpPromote(px, on, p.healthGeneration, kbps, now));
    SourcesOffIs(px, on);
    var i := Lookup(p.proxies, px.key);
    var admitted := (if i.Some? then MergeFresh(p.proxies[i.value], Accepted(px)) else Accepted(px)).(speedKbps := kbps);
    forall k ensures NodeOf(q.proxies, k) == if k == px.key then Some(admitted) else NodeOf(p.proxies, k) {
      if i.Some? { ReplaceNode(p.proxies, i.value, admitted, k); } else { InsertOfKey(p.proxies, admitted, k); }
    }
  }

  // ------------------------------------------------------------- single fields

  ghost predicate Becomes(p: Pool, q: Pool, key: Key, px: Proxy) {
    && (forall k :: NodeOf(q.proxies, k) == if k == key then Some(px) else NodeOf(p.proxies, k))
    && q.stats == p.stats && q.healthGeneration == p.healthGeneration
  }

  lemma BecomesWritten(p: Pool, q: Pool, key: Key, px: Proxy)
    requires UniqueKeys(p.proxies) && Lookup(p.proxies, key).Some? && px.key == key
    requires q.proxies == p.proxies[Lookup(p.proxies, key).value := px] && q.stats == p.stats && q.healthGeneration == p.healthGeneration
    ensures Becomes(p, q, key, px)
  {
    hide NodeOf;
    forall k ensures NodeOf(q.proxies, k) == if k == key then Some(px) else NodeOf(p.proxies, k) {
      ReplaceNode(p.proxies, Lookup(p.proxies, key).value, px, k);
    }
  }

  // Measurements, credentials and addresses are written to the named node, and
  // nothing else is.
  lemma LatencyWritten(p: Pool, key: Key, lat: int)
    requires UniqueKeys(p.proxies) && NodeOf(p.proxies, key).Some?
    ensures var px := NodeOf(p.proxies, key).value; Becomes(p, Step(p, OpLatency(key, lat)), key, px.(latencyMs := lat))
  {
    hide Becomes;
    var px := NodeOf(p.proxies, key).value;
    BecomesWritten(p, Step(p, OpLatency(key, lat)), key, px.(latencyMs := lat));
  }

  lemma SpeedWritten(p: Pool, key: Key, kbps: real)
    requires UniqueKeys(p.proxies) && NodeOf(p.proxies, key).Some?
    ensures var px := NodeOf(p.proxies, key).value; Becomes(p, Step(p, OpSpeed(key, kbps)), key, px.(speedKbps := kbps))
  {
    hide Becomes;
    var px := NodeOf(p.proxies, key).value;
    BecomesWritten(p, Step(p, OpSpeed(key, kbps)), key, px.(speedKbps := kbps));
  }

  lemma CredentialsWritten(p: Pool, key: Key, c: Credential, alts: seq<Credential>)
    requires UniqueKeys(p.proxies) && NodeOf(p.proxies, key).Some?
    ensures var px := NodeOf(p.proxies, key).value; Becomes(p, Step(p, OpCredentials(key, c, alts, p.healthGeneration)), key, px.(credential := c, alternates := alts))
  {
    hide Becomes;
    var px := NodeOf(p.proxies, key).value;
    BecomesWritten(p, Step(p, OpCredentials(key, c, alts, p.healthGeneration)), key, px.(credential := c, alternates := alts));
  }

  lemma AddressWritten(p: Pool, key: Key, exitIP: string, country: string)
    requires UniqueKeys(p.proxies) && NodeOf(p.proxies, key).Some?
    ensures var px := NodeOf(p.proxies, key).value;
            Becomes(p, Step(p, OpGeo(key, exitIP, country, None)), key, px.(exitIP := exitIP, country := if country != "" then country else px.country))
  {
    hide Becomes;
    var px := NodeOf(p.proxies, key).value;
    BecomesWritten(p, Step(p, OpGeo(key, exitIP, country, None)), key, px.(exitIP := exitIP, country := if country != "" then country else px.country));
  }

  // The plain flag puts a node in service unless something rules it out for good,
  // and touches neither cooldown nor terminal failure.
  lemma FlagWritten(p: Pool, key: Key, flag: bool)
    requires UniqueKeys(p.proxies) && NodeOf(p.proxies, key).Some?
    ensures var q := Step(p, OpSetAvailable(key, flag));
            var px := NodeOf(p.proxies, key).value;
            forall k :: NodeOf(q.proxies, k)
                        == if k != key then NodeOf(p.proxies, k)
                           else Some(px.(available := flag && !px.sourceRetired && !px.healthInvalidated && !px.policyExcluded))
    ensures var q := Step(p, OpSetAvailable(key, flag));
            forall k :: StatsFor(q, k) == if k == key && flag then StatsFor(p, k).(healthFailures := 0) else StatsFor(p, k)
  {
    var q, i := Step(p, OpSetAvailable(key, flag)), Lookup(p.proxies, key).value;
    var px := p.proxies[i];
    var px' := px.(available := flag && !px.sourceRetired && !px.healthInvalidated && !px.policyExcluded);
    assert q.proxies == p.proxies[i := px'];
    hide Step, NodeOf;
    forall k ensures NodeOf(q.proxies, k) == if k == key then Some(px') else NodeOf(p.proxies, k) { ReplaceNode(p.proxies, i, px', k); }
  }

  // A policy verdict of the current generation: excluding takes the node out of
  // service, admitting leaves it as available as it was, unless it failed for good.
  lemma PolicyWritten(p: Pool, key: Key, excluded: bool)
    requires UniqueKeys(p.proxies) && NodeOf(p.proxies, key).Some?
    ensures var q := Step(p, OpSetPolicy(key, excluded, p.healthGeneration));
            var px, st := NodeOf(p.proxies, key).value, StatsFor(p, key);
            Becomes(p, q, key, px.(policyExcluded := excluded, healthInvalidated := st.terminal,
                                   available := if excluded || st.terminal then false else px.available))
  {
    hide Becomes;
    var px, st := NodeOf(p.proxies, key).value, StatsFor(p, key);
    BecomesWritten(p, Step(p, OpSetPolicy(key, excluded, p.healthGeneration)), key,
                   px.(policyExcluded := excluded, healthInvalidated := st.terminal,
                       available := if excluded || st.terminal then false else px.available));
  }

  // Sources that were switched off retire their nodes; no other node changes.
  lemma SourcesRetire(p: Pool, on: Enabled, key: Key)
    requires UniqueKeys(p.proxies)
    ensures var q := Step(p, OpEnabledSources(on));
            NodeOf(q.proxies, key)
            == match NodeOf(p.proxies, key)
               case None => None
               case Some(px) => Some(if SourcesOff(px, on) then px.(sourceRetired := true, available := false) else px)
    ensures Step(p, OpEnabledSources(on)).stats == p.stats
  {
    RetireOfKey(p.proxies, on, key);
    if NodeOf(p.proxies, key).Some? { SourcesOffIs(NodeOf(p.proxies, key).value, on); }
  }
}
