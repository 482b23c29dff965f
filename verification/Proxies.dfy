// Values shared by the pool models: nodes, reliability statistics, groups.
module Proxies {

  datatype Option<+T> = None | Some(value: T)

  datatype Credential = Credential(username: string, password: string)

  // Proxy.Key(): protocol://addr, injective on normalised nodes.
  datatype Key = Key(protocol: string, addr: string)

  datatype Proxy = Proxy(
    key: Key,
    credential: Credential,
    alternates: seq<Credential>,
    country: string,
    exitIP: string,
    sourceIDs: seq<string>,
    sourceNames: seq<string>,
    sourceRetired: bool,
    healthInvalidated: bool,
    policyExcluded: bool,
    available: bool,
    latencyMs: int,
    speedKbps: real)

  datatype Stats = Stats(
    successes: nat,
    failures: nat,
    lastLatencyMs: int,
    healthFailures: nat,
    fullRecheckFailures: nat,
    lastHealthSuccessAt: Option<int>,
    terminal: bool)

  const UNSEEN := Stats(0, 0, 0, 0, 0, None, false)

  predicate HardRoutable(px: Proxy) {
    !px.sourceRetired && !px.healthInvalidated && !px.policyExcluded
  }

  predicate UniqueKeys(s: seq<Proxy>) {
    forall i, j | 0 <= i < j < |s| :: s[i].key != s[j].key
  }

  function Keys(s: seq<Proxy>): set<Key> { set px | px in s :: px.key }

  function StatsOf(stats: map<Key, Stats>, key: Key): Option<Stats> {
    if key in stats then Some(stats[key]) else None
  }

  // The quality score: success rate first, then latency, then measured speed.
  function Score(px: Proxy, st: Option<Stats>): real {
    var successRate :=
      if st.Some? && st.value.successes + st.value.failures > 0
      then st.value.successes as real / (st.value.successes + st.value.failures) as real
      else 0.75;
    var lat := if st.Some? && st.value.lastLatencyMs > 0 then st.value.lastLatencyMs else px.latencyMs;
    var latScore := if lat > 0 then 1.0 / (1.0 + lat as real / 1000.0) else 1.0;
    var speedScore :=
      if px.speedKbps > 0.0 then (if px.speedKbps / 10000.0 < 1.0 then px.speedKbps / 10000.0 else 1.0) else 0.0;
    100.0 * (0.6 * successRate + 0.3 * latScore + 0.1 * speedScore)
  }

  datatype Strategy = Sticky | RoundRobin | Random | Latency | Speed | ByScore

  // A saved allowlist entry: a full key, or a bare address of any protocol.
  datatype NodeRef = OneKey(key: Key) | AnyProtocol(addr: string)

  datatype Group = Group(
    name: string,
    strategy: Strategy,
    nodes: seq<NodeRef>,
    countries: seq<string>,
    protocols: seq<string>,
    sources: seq<string>)

  predicate RefersTo(r: NodeRef, px: Proxy) {
    match r
    case OneKey(k) => k == px.key
    case AnyProtocol(a) => a == px.key.addr
  }

  predicate GroupMatches(g: Group, px: Proxy) {
    && (g.nodes == [] || exists r | r in g.nodes :: RefersTo(r, px))
    && (g.countries == [] || px.country in g.countries)
    && (g.protocols == [] || px.key.protocol in g.protocols)
    && (g.sources == [] || exists n | n in px.sourceNames :: n in g.sources)
  }

  // What a group reference resolves to.
  datatype Selector = AnyNode | InCountry(code: string) | Named(group: Group) | Unresolved

  predicate Matches(sel: Selector, px: Proxy) {
    match sel
    case AnyNode => true
    case InCountry(code) => px.country == code
    case Named(g) => GroupMatches(g, px)
    case Unresolved => false
  }

  function StrategyOf(sel: Selector): Strategy {
    match sel
    case AnyNode => Sticky
    case InCountry(_) => Latency
    case Named(g) => g.strategy
    case Unresolved => Sticky
  }

  datatype Cursor = Cursor(stickyKey: Option<Key>, rrIdx: nat, lastPicked: Option<Key>, pinned: bool)

  const NO_CURSOR := Cursor(None, 0, None, false)
}
