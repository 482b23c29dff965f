// What a selection gives its caller (pool.go, status_views.go), in terms of the
// nodes themselves: who may be chosen, and which of them is the best.
module SelectionMeaning {
  import opened Proxies
  import opened Selection

  // May serve: not retired, not invalidated, not excluded by policy or by the
  // caller, and of the group.
  ghost predicate MayServe(px: Proxy, sel: Selector, exclude: set<Key>) {
    && !px.sourceRetired && !px.healthInvalidated && !px.policyExcluded && px.key !in exclude
    && match sel
       case AnyNode => true
       case InCountry(code) => px.country == code
       case Named(g) =>
         && (|g.nodes| > 0 ==> OneKey(px.key) in g.nodes || AnyProtocol(px.key.addr) in g.nodes)
         && (|g.countries| > 0 ==> px.country in g.countries)
         && (|g.protocols| > 0 ==> px.key.protocol in g.protocols)
         && (|g.sources| > 0 ==> exists name | name in px.sourceNames :: name in g.sources)
       case Unresolved => false
  }

  // Competes for a connection: an unavailable node only if none is available.
  ghost predicate Rival(px: Proxy, s: seq<Proxy>, sel: Selector, exclude: set<Key>) {
    && px in s && MayServe(px, sel, exclude)
    && ((exists q | q in s :: MayServe(q, sel, exclude) && q.available) ==> px.available)
  }

  // The lowest latency, the highest speed or score wins.
  predicate WantsLatency(sel: Selector) { sel.InCountry? || (sel.Named? && sel.group.strategy == Latency) }

  predicate WantsSpeed(sel: Selector) { sel.Named? && sel.group.strategy == Speed }

  predicate WantsScore(sel: Selector) { sel.Named? && sel.group.strategy == ByScore }

  predicate WantsSticky(sel: Selector) { sel.AnyNode? || (sel.Named? && sel.group.strategy == Sticky) }

  // No rival is better; a zero was never measured and loses to any measurement.
  ghost predicate Best(px: Proxy, s: seq<Proxy>, stats: map<Key, Stats>, sel: Selector, exclude: set<Key>) {
    && Rival(px, s, sel, exclude)
    && (WantsLatency(sel) ==>
          forall q | Rival(q, s, sel, exclude) && q.latencyMs != 0 :: px.latencyMs != 0 && px.latencyMs <= q.latencyMs)
    && (WantsSpeed(sel) ==>
          forall q | Rival(q, s, sel, exclude) && q.speedKbps != 0.0 :: px.speedKbps != 0.0 && px.speedKbps >= q.speedKbps)
    && (WantsScore(sel) ==>
          forall q | Rival(q, s, sel, exclude) :: Score(px, StatsOf(stats, px.key)) >= Score(q, StatsOf(stats, q.key)))
  }

  lemma CandidateIs(px: Proxy, sel: Selector, exclude: set<Key>)
    ensures Candidate(px, sel, exclude) <==> MayServe(px, sel, exclude)
  {
    if sel.Named? {
      var g := sel.group;
      if exists r | r in g.nodes :: RefersTo(r, px) {
        var r :| r in g.nodes && RefersTo(r, px);
        assert r == OneKey(px.key) || r == AnyProtocol(px.key.addr);
      }
    }
  }

  lemma PreferredAre(s: seq<Proxy>, sel: Selector, exclude: set<Key>)
    ensures forall px :: px in Preferred(Members(s, sel, exclude)) <==> Rival(px, s, sel, exclude)
  {
    hide Candidate, MayServe;
    var m := Members(s, sel, exclude);
    forall px ensures (px in m <==> px in s && MayServe(px, sel, exclude)) && (px in Available(m) <==> px in m && px.available) {
      MembersAre(s, sel, exclude, px);
      AvailableAre(m, px);
      CandidateIs(px, sel, exclude);
    }
    if Available(m) != [] { assert Available(m)[0] in Available(m); }
  }

  lemma ScorePositive(px: Proxy, st: Option<Stats>)
    ensures Score(px, st) > 0.0
  {
    var lat := if st.Some? && st.value.lastLatencyMs > 0 then st.value.lastLatencyMs else px.latencyMs;
    if st.Some? && st.value.successes + st.value.failures > 0 {
      Quotient(st.value.successes as real, (st.value.successes + st.value.failures) as real);
    }
    if lat > 0 { Fraction(lat as real / 1000.0); }
  }

  lemma Quotient(a: real, b: real)
    requires a >= 0.0 && b > 0.0
    ensures a / b >= 0.0
  {
  }

  lemma Fraction(x: real)
    requires x > 0.0
    ensures 1.0 / (1.0 + x) > 0.0
  {
  }

  // The best of the list by its metric is the best rival.
  lemma BestIs(s: seq<Proxy>, stats: map<Key, Stats>, sel: Selector, exclude: set<Key>, i: int)
    requires var list := Preferred(Members(s, sel, exclude));
             Measured(StrategyOf(sel)) && IsBest(Metrics(StrategyOf(sel), list, stats), HigherWins(StrategyOf(sel)), i)
    ensures Best(Preferred(Members(s, sel, exclude))[i], s, stats, sel, exclude)
  {
    hide Rival, Members, Score, Available;
    PreferredAre(s, sel, exclude);
    var list := Preferred(Members(s, sel, exclude));
    var ms := Metrics(StrategyOf(sel), list, stats);
    assert list[i] in list;
    forall q | Rival(q, s, sel, exclude)
      ensures WantsLatency(sel) && q.latencyMs != 0 ==> list[i].latencyMs != 0 && list[i].latencyMs <= q.latencyMs
      ensures WantsSpeed(sel) && q.speedKbps != 0.0 ==> list[i].speedKbps != 0.0 && list[i].speedKbps >= q.speedKbps
      ensures WantsScore(sel) ==> Score(list[i], StatsOf(stats, list[i].key)) >= Score(q, StatsOf(stats, q.key))
    {
      assert q in list;
      var j :| 0 <= j < |list| && list[j] == q;
      ScorePositive(q, StatsOf(stats, q.key));
      assert ms[j] == MetricOf(StrategyOf(sel), q, stats) && ms[i] == MetricOf(StrategyOf(sel), list[i], stats);
    }
  }

  // What a pick returns: some rival if there is one, the best where the group
  // asks for the best, and the node the cursor holds as long as it is a rival.
  lemma PickMeans(s: seq<Proxy>, stats: map<Key, Stats>, sel: Selector, cursor: Cursor, exclude: set<Key>, random: nat, r: Selected)
    requires IsSelection(s, stats, sel, cursor, exclude, random, r)
    ensures r.Chosen? <==> exists q :: Rival(q, s, sel, exclude)
    ensures r.Chosen? ==> Best(r.proxy, s, stats, sel, exclude)
    ensures r.Chosen? && WantsSticky(sel) && (exists q :: Rival(q, s, sel, exclude) && Some(q.key) == cursor.stickyKey) ==>
              Some(r.proxy.key) == cursor.stickyKey && !r.preservePin
    ensures r.Chosen? && WantsSticky(sel) && (forall q | Rival(q, s, sel, exclude) :: Some(q.key) != cursor.stickyKey) ==>
              r.preservePin == cursor.pinned
  {
    hide Rival, Members, Available, Score, MetricOf, HigherWins;
    PreferredAre(s, sel, exclude);
    var list := Preferred(Members(s, sel, exclude));
    if r.Chosen? {
      var n := RandomIn(random, |list|);
      var i :| IsChoice(StrategyOf(sel), cursor, list, stats, n, i) && r.proxy == list[i];
      if Measured(StrategyOf(sel)) { BestIs(s, stats, sel, exclude, i); }
      assert list[i] in list;
    } else {
      assert list == [];
    }
  }

  lemma DrawnAt(list: seq<Proxy>, stats: map<Key, Stats>, cursor: Cursor, i: nat)
    requires i < |list|
    ensures SelectedFrom(list, stats, Random, cursor, i, Chosen(list[i], false))
  {
    hide IsBest, IsPointed, Metrics;
    assert RandomIn(i, |list|) == i;
    assert IsChoice(Random, cursor, list, stats, RandomIn(i, |list|), i);
  }

  // A random group can draw any of its rivals.
  lemma AnyMayBeDrawn(s: seq<Proxy>, stats: map<Key, Stats>, sel: Selector, cursor: Cursor, exclude: set<Key>, px: Proxy)
    requires sel.Named? && sel.group.strategy == Random && Rival(px, s, sel, exclude)
    ensures exists random :: IsSelection(s, stats, sel, cursor, exclude, random, Chosen(px, false))
  {
    hide Rival, Preferred, Members, SelectedFrom;
    PreferredAre(s, sel, exclude);
    var list := Preferred(Members(s, sel, exclude));
    var i :| 0 <= i < |list| && list[i] == px;
    DrawnAt(list, stats, cursor, i);
    assert IsSelection(s, stats, sel, cursor, exclude, i, Chosen(px, false));
  }

  // What the dashboard shows as current: the same, and the last picked node of a
  // group that changes with every connection.
  lemma CurrentMeans(s: seq<Proxy>, stats: map<Key, Stats>, sel: Selector, cursor: Cursor, r: Current)
    requires IsCurrent(ResolveGroup(s, sel), StrategyOf(sel), cursor, stats, r)
    ensures r.Current? <==> exists q :: Rival(q, s, sel, {})
    ensures r.Current? ==> Best(r.proxy, s, stats, sel, {})
    ensures r.Current? && WantsSticky(sel) && (exists q :: Rival(q, s, sel, {}) && Some(q.key) == cursor.stickyKey) ==>
              Some(r.proxy.key) == cursor.stickyKey
    ensures r.Current? && r.dynamic && (exists q :: Rival(q, s, sel, {}) && Some(q.key) == cursor.lastPicked) ==>
              Some(r.proxy.key) == cursor.lastPicked
    ensures r.Current? ==> (r.dynamic <==> sel.Named? && (sel.group.strategy == RoundRobin || sel.group.strategy == Random))
  {
    hide Rival, Members, Available, Score, MetricOf, HigherWins;
    PreferredAre(s, sel, {});
    var list := ResolveGroup(s, sel);
    if r.Current? {
      var i :| (if Measured(StrategyOf(sel)) then IsBest(Metrics(StrategyOf(sel), list, stats), HigherWins(StrategyOf(sel)), i)
                else IsPointed(list, if r.dynamic then cursor.lastPicked else cursor.stickyKey, i)) && r.proxy == list[i];
      if Measured(StrategyOf(sel)) { BestIs(s, stats, sel, {}, i); }
      assert list[i] in list;
    } else {
      assert list == [];
    }
  }

  // ---------------------------------------------------------------- the score

  ghost predicate Quicker(a: Proxy, b: Proxy, st: Option<Stats>, su: Option<Stats>) {
    || (st == su && a.speedKbps == b.speedKbps && (st.Some? ==> st.value.lastLatencyMs <= 0) && 0 < a.latencyMs < b.latencyMs)
    || (a == b && st.Some? && su.Some? && st.value == su.value.(lastLatencyMs := st.value.lastLatencyMs)
        && 0 < st.value.lastLatencyMs < su.value.lastLatencyMs)
  }

  ghost predicate Faster(a: Proxy, b: Proxy, st: Option<Stats>, su: Option<Stats>) {
    st == su && a.latencyMs == b.latencyMs && 0.0 <= b.speedKbps < a.speedKbps <= 10000.0
  }

  ghost predicate Steadier(a: Proxy, b: Proxy, st: Option<Stats>, su: Option<Stats>) {
    && a == b && st.Some? && su.Some? && st.value == su.value.(successes := st.value.successes)
    && st.value.successes > su.value.successes && su.value.failures > 0
  }

  // Of two numbers the larger has the smaller inverse.
  lemma Inverses(a: real, b: real, u: real, v: real)
    requires 0.0 < a < b && u > 0.0 && v > 0.0 && u * a == 1.0 && v * b == 1.0
    ensures u > v
  {
    Products(u, v, a);
    Products(a, b, v);
    assert a * v == v * a && b * v == v * b;
  }

  lemma InverseOf(a: real)
    requires a > 0.0
    ensures 1.0 / a > 0.0 && (1.0 / a) * a == 1.0
  {
  }

  lemma LessLatency(x: real, y: real)
    requires 0.0 < x < y
    ensures 1.0 > 1.0 / (1.0 + x) > 1.0 / (1.0 + y)
  {
    InverseOf(1.0 + x);
    InverseOf(1.0 + y);
    Inverses(1.0 + x, 1.0 + y, 1.0 / (1.0 + x), 1.0 / (1.0 + y));
    Inverses(1.0, 1.0 + x, 1.0, 1.0 / (1.0 + x));
  }

  lemma Products(a: real, b: real, c: real)
    requires c > 0.0
    ensures a <= b ==> a * c <= b * c
    ensures a < b ==> a * c < b * c
  {
  }

  // Of two nodes alike but for one thing, the one that answered faster, was
  // measured faster, or succeeded more often has the higher score.
  lemma ScoreOrders(a: Proxy, b: Proxy, st: Option<Stats>, su: Option<Stats>)
    ensures Quicker(a, b, st, su) || Faster(a, b, st, su) || Steadier(a, b, st, su) ==> Score(a, st) > Score(b, su)
  {
    if 0 < a.latencyMs < b.latencyMs { LessLatency(a.latencyMs as real / 1000.0, b.latencyMs as real / 1000.0); }
    if st.Some? && su.Some? {
      if 0 < st.value.lastLatencyMs < su.value.lastLatencyMs {
        LessLatency(st.value.lastLatencyMs as real / 1000.0, su.value.lastLatencyMs as real / 1000.0);
      }
      if st.value.successes > su.value.successes && su.value.failures == st.value.failures && su.value.failures > 0 {
        MoreSuccesses(st.value.successes, su.value.successes, su.value.failures);
      }
    }
  }

  lemma MoreSuccesses(x: nat, y: nat, f: nat)
    requires x > y && f > 0
    ensures x as real / (x + f) as real > y as real / (y + f) as real
  {
    var a, b := (x + f) as real, (y + f) as real;
    var p, q := x as real / a, y as real / b;
    assert p * a == x as real && q * b == y as real;
    assert p * (a * b) == (p * a) * b && q * (a * b) == (q * b) * a;
    Crossed(x, y, f);
    Products(p, q, a * b);
  }

  lemma Crossed(x: nat, y: nat, f: nat)
    requires x > y && f > 0
    ensures x as real * (y + f) as real > y as real * (x + f) as real
  {
    assert x * (y + f) == x * y + x * f && y * (x + f) == x * y + y * f;
    assert x * f > y * f;
    assert (x * (y + f)) as real > (y * (x + f)) as real;
    assert x as real * (y + f) as real == (x * (y + f)) as real;
    assert y as real * (x + f) as real == (y * (x + f)) as real;
  }

  // The nodes the dashboard counts as available.
  lemma ForwardingAre(all: seq<Proxy>)
    ensures Forwarding(all)
            == set i: nat | i < |all| && all[i].available && MayServe(all[i], AnyNode, {})
                            && (all[i].key.protocol == "socks5" || all[i].key.protocol == "http" || all[i].key.protocol == "https")
  {
  }
}
