// Which node a group uses (pool.go, status_views.go, status_snapshot.go).  The
// program writes the same selection three times: an allocation-free double scan
// of the pool, a list filter followed by a search, and a single streaming pass
// with two running selections.  All three are proved against one declarative
// choice on the filtered list.
module Selection {
  import opened Proxies

  // ----------------------------------------------------------- the candidates

  predicate Candidate(px: Proxy, sel: Selector, exclude: set<Key>) {
    HardRoutable(px) && Matches(sel, px) && px.key !in exclude
  }

  function Members(s: seq<Proxy>, sel: Selector, exclude: set<Key>): seq<Proxy> {
    if s == [] then []
    else Members(s[..|s|-1], sel, exclude) + (if Candidate(s[|s|-1], sel, exclude) then [s[|s|-1]] else [])
  }

  function Available(s: seq<Proxy>): seq<Proxy> {
    if s == [] then []
    else Available(s[..|s|-1]) + (if s[|s|-1].available then [s[|s|-1]] else [])
  }

  // Healthy members if there are any, otherwise all of them.
  function Preferred(members: seq<Proxy>): seq<Proxy> {
    if Available(members) != [] then Available(members) else members
  }

  // The list form: what resolveGroup hands to the status views.
  function ResolveGroup(all: seq<Proxy>, sel: Selector): seq<Proxy> {
    Preferred(Members(all, sel, {}))
  }

  lemma MembersStep(s: seq<Proxy>, sel: Selector, exclude: set<Key>, i: nat)
    requires i < |s|
    ensures Members(s[..i + 1], sel, exclude)
         == Members(s[..i], sel, exclude) + (if Candidate(s[i], sel, exclude) then [s[i]] else [])
  {
    assert s[..i + 1][..i] == s[..i];
  }

  lemma AvailableAppend(s: seq<Proxy>, px: Proxy)
    ensures Available(s + [px]) == Available(s) + (if px.available then [px] else [])
  {
    assert (s + [px])[..|s|] == s;
  }

  lemma {:induction false} MembersPrefix(s: seq<Proxy>, sel: Selector, exclude: set<Key>, i: nat)
    requires i <= |s|
    ensures Members(s[..i], sel, exclude) <= Members(s, sel, exclude)
    ensures Available(Members(s[..i], sel, exclude)) <= Available(Members(s, sel, exclude))
    decreases |s| - i
  {
    if i < |s| {
      MembersStep(s, sel, exclude, i);
      AvailableAppend(Members(s[..i], sel, exclude), s[i]);
      assert Members(s[..i], sel, exclude) + [] == Members(s[..i], sel, exclude);
      MembersPrefix(s, sel, exclude, i + 1);
    } else {
      assert s[..i] == s;
    }
  }

  lemma {:induction false} MembersAre(s: seq<Proxy>, sel: Selector, exclude: set<Key>, px: Proxy)
    ensures px in Members(s, sel, exclude) <==> px in s && Candidate(px, sel, exclude)
  {
    if s != [] {
      MembersAre(s[..|s|-1], sel, exclude, px);
      assert s == s[..|s|-1] + [s[|s|-1]];
    }
  }

  lemma {:induction false} AvailableAre(s: seq<Proxy>, px: Proxy)
    ensures px in Available(s) <==> px in s && px.available
  {
    if s != [] {
      AvailableAre(s[..|s|-1], px);
      assert s == s[..|s|-1] + [s[|s|-1]];
    }
  }

  lemma {:induction false} MembersUnique(s: seq<Proxy>, sel: Selector, exclude: set<Key>)
    requires UniqueKeys(s)
    ensures UniqueKeys(Members(s, sel, exclude)) && UniqueKeys(Available(Members(s, sel, exclude)))
  {
    hide HardRoutable, Matches, Candidate;
    if s != [] {
      var init, last := s[..|s|-1], s[|s|-1];
      MembersUnique(init, sel, exclude);
      var m := Members(init, sel, exclude);
      forall i | 0 <= i < |m| ensures m[i].key != last.key {
        MembersAre(init, sel, exclude, m[i]);
        var j :| 0 <= j < |init| && init[j] == m[i];
        assert s[j].key != s[|s|-1].key;
      }
      if Candidate(last, sel, exclude) {
        AvailableAppend(m, last);
        var a := Available(m);
        forall i | 0 <= i < |a| ensures a[i].key != last.key {
          AvailableAre(m, a[i]);
          var j :| 0 <= j < |m| && m[j] == a[i];
        }
      } else {
        assert m + [] == m;
      }
    }
  }

  // --------------------------------------------------------------- the choice

  predicate Better(a: real, b: real, higher: bool) { if higher then a > b else a < b }

  // Zero means "never measured": such entries lose to every measured one and
  // the first of them wins only when nothing was measured.  Among measured
  // entries the best value wins and ties go to the earliest.
  ghost predicate IsBest(ms: seq<real>, higher: bool, i: int) {
    && 0 <= i < |ms|
    && (forall j | 0 <= j < |ms| && ms[j] != 0.0 ::
          && ms[i] != 0.0
          && !Better(ms[j], ms[i], higher)
          && (j < i ==> Better(ms[i], ms[j], higher)))
    && (ms[i] == 0.0 ==> i == 0)
  }

  lemma BestUnique(ms: seq<real>, higher: bool, i: int, j: int)
    requires IsBest(ms, higher, i) && IsBest(ms, higher, j)
    ensures i == j
  {
  }

  predicate Replaces(m: real, best: real, higher: bool) {
    m != 0.0 && (best == 0.0 || Better(m, best, higher))
  }

  // One running comparison, the step shared by all three implementations.
  lemma BestStep(ms: seq<real>, higher: bool, i: int, m: real)
    requires IsBest(ms, higher, i)
    ensures IsBest(ms + [m], higher, if Replaces(m, ms[i], higher) then |ms| else i)
  {
  }

  function MetricOf(strategy: Strategy, px: Proxy, stats: map<Key, Stats>): real {
    match strategy
    case Latency => px.latencyMs as real
    case Speed => px.speedKbps
    case ByScore => Score(px, StatsOf(stats, px.key))
    case _ => 0.0
  }

  predicate HigherWins(strategy: Strategy) { strategy != Latency }

  predicate Measured(strategy: Strategy) { strategy == Latency || strategy == Speed || strategy == ByScore }

  function MetricFor(strategy: Strategy, stats: map<Key, Stats>): Proxy -> real {
    px => MetricOf(strategy, px, stats)
  }

  function Values(list: seq<Proxy>, metric: Proxy -> real): seq<real> {
    seq(|list|, i requires 0 <= i < |list| => metric(list[i]))
  }

  function Metrics(strategy: Strategy, list: seq<Proxy>, stats: map<Key, Stats>): seq<real> {
    Values(list, MetricFor(strategy, stats))
  }

  lemma ValuesAppend(list: seq<Proxy>, metric: Proxy -> real, px: Proxy)
    ensures Values(list + [px], metric) == Values(list, metric) + [metric(px)]
  {
  }

  // The member the cursor points at, or the first one.
  ghost predicate IsPointed(list: seq<Proxy>, key: Option<Key>, i: int) {
    && 0 <= i < |list|
    && if exists j | 0 <= j < |list| :: Some(list[j].key) == key then Some(list[i].key) == key else i == 0
  }

  // The choice of one connection; random is the value rand.Intn returned.
  ghost predicate IsChoice(strategy: Strategy, cursor: Cursor, list: seq<Proxy>, stats: map<Key, Stats>, random: nat, i: int) {
    match strategy
    case Sticky => IsPointed(list, cursor.stickyKey, i)
    case RoundRobin => |list| > 0 && i == cursor.rrIdx % |list|
    case Random => i == random < |list|
    case _ => IsBest(Metrics(strategy, list, stats), HigherWins(strategy), i)
  }

  lemma ChoiceUnique(strategy: Strategy, cursor: Cursor, list: seq<Proxy>, stats: map<Key, Stats>, random: nat, i: int, j: int)
    requires UniqueKeys(list)
    requires IsChoice(strategy, cursor, list, stats, random, i) && IsChoice(strategy, cursor, list, stats, random, j)
    ensures i == j
  {
    if Measured(strategy) {
      BestUnique(Metrics(strategy, list, stats), HigherWins(strategy), i, j);
    }
  }

  datatype Selected = NoNode | Chosen(proxy: Proxy, preservePin: bool)

  // What a pick in this pool must return.
  ghost predicate IsSelection(s: seq<Proxy>, stats: map<Key, Stats>, sel: Selector, cursor: Cursor, exclude: set<Key>, random: nat, r: Selected) {
    SelectedFrom(Preferred(Members(s, sel, exclude)), stats, StrategyOf(sel), cursor, random, r)
  }

  ghost predicate SelectedFrom(list: seq<Proxy>, stats: map<Key, Stats>, strategy: Strategy, cursor: Cursor, random: nat, r: Selected) {
    match r
    case NoNode => list == []
    case Chosen(px, preservePin) =>
      && (exists i :: IsChoice(strategy, cursor, list, stats, RandomIn(random, |list|), i) && px == list[i])
      && (strategy == Sticky ==> (preservePin <==> cursor.pinned && forall q | q in list :: Some(q.key) != cursor.stickyKey))
  }

  function RandomIn(random: nat, n: nat): nat { if n == 0 then 0 else random % n }

  // ------------------------------------------------------ 1. the locked scan

  method CountCandidates(s: seq<Proxy>, sel: Selector, exclude: set<Key>) returns (count: nat, availableCount: nat)
    ensures count == |Members(s, sel, exclude)|
    ensures availableCount == |Available(Members(s, sel, exclude))|
  {
    count, availableCount := 0, 0;
    for i := 0 to |s|
      invariant count == |Members(s[..i], sel, exclude)|
      invariant availableCount == |Available(Members(s[..i], sel, exclude))|
    {
      MembersStep(s, sel, exclude, i);
      AvailableAppend(Members(s[..i], sel, exclude), s[i]);
      if Candidate(s[i], sel, exclude) {
        count := count + 1;
        if s[i].available { availableCount := availableCount + 1; }
      } else {
        assert Members(s[..i], sel, exclude) + [] == Members(s[..i], sel, exclude);
      }
    }
    assert s[..|s|] == s;
  }

  // The members still ahead of or behind the scan position.
  function Kept(s: seq<Proxy>, sel: Selector, exclude: set<Key>, requireAvailable: bool): seq<Proxy> {
    if requireAvailable then Available(Members(s, sel, exclude)) else Members(s, sel, exclude)
  }

  lemma KeptNone(sel: Selector, exclude: set<Key>, requireAvailable: bool)
    ensures Kept([], sel, exclude, requireAvailable) == []
  {
  }

  lemma KeptStep(s: seq<Proxy>, sel: Selector, exclude: set<Key>, requireAvailable: bool, i: nat)
    requires i < |s|
    ensures Kept(s[..i + 1], sel, exclude, requireAvailable)
         == Kept(s[..i], sel, exclude, requireAvailable)
            + (if Candidate(s[i], sel, exclude) && (requireAvailable ==> s[i].available) then [s[i]] else [])
    ensures Kept(s[..i + 1], sel, exclude, requireAvailable) <= Kept(s, sel, exclude, requireAvailable)
  {
    MembersStep(s, sel, exclude, i);
    AvailableAppend(Members(s[..i], sel, exclude), s[i]);
    assert Members(s[..i], sel, exclude) + [] == Members(s[..i], sel, exclude);
    MembersPrefix(s, sel, exclude, i + 1);
  }

  method ScanNth(s: seq<Proxy>, sel: Selector, exclude: set<Key>, requireAvailable: bool, target: nat) returns (r: Option<Proxy>)
    ensures var list := Kept(s, sel, exclude, requireAvailable);
            r == if target < |list| then Some(list[target]) else None
  {
    var seen := 0;
    for i := 0 to |s|
      invariant seen == |Kept(s[..i], sel, exclude, requireAvailable)| <= target
    {
      KeptStep(s, sel, exclude, requireAvailable, i);
      if Candidate(s[i], sel, exclude) && (requireAvailable ==> s[i].available) {
        if seen == target { return Some(s[i]); }
        seen := seen + 1;
      }
    }
    assert s[..|s|] == s;
    r := None;
  }

  lemma PointedStep(list: seq<Proxy>, px: Proxy, key: Option<Key>, i: int)
    requires list == [] || IsPointed(list, key, i)
    ensures IsPointed(list + [px], key, if Some(px.key) == key then |list| else if list == [] then 0 else i)
    ensures (exists q | q in list + [px] :: Some(q.key) == key)
            <==> (exists q | q in list :: Some(q.key) == key) || Some(px.key) == key
  {
    var longer := list + [px];
    assert longer[|list|] == px && px in longer;
    assert forall j | 0 <= j < |list| :: longer[j] == list[j];
    assert forall q | q in longer :: q in list || q == px;
  }

  method ScanSticky(s: seq<Proxy>, sel: Selector, exclude: set<Key>, requireAvailable: bool, sticky: Option<Key>)
    returns (chosen: Option<Proxy>, stickyFound: bool)
    ensures var list := Kept(s, sel, exclude, requireAvailable);
            && (chosen == None <==> list == [])
            && (chosen.Some? ==> exists i :: IsPointed(list, sticky, i) && chosen.value == list[i])
            && (stickyFound <==> exists q | q in list :: Some(q.key) == sticky)
  {
    hide Candidate, Kept;
    KeptNone(sel, exclude, requireAvailable);
    assert s[..0] == [];
    chosen, stickyFound := None, false;
    ghost var at, list := 0, [];
    for i := 0 to |s|
      invariant list == Kept(s[..i], sel, exclude, requireAvailable)
      invariant chosen == None <==> list == []
      invariant chosen.Some? ==> (IsPointed(list, sticky, at) && chosen.value == list[at])
      invariant stickyFound <==> exists q | q in list :: Some(q.key) == sticky
    {
      KeptStep(s, sel, exclude, requireAvailable, i);
      assert list + [] == list;
      if Candidate(s[i], sel, exclude) && (requireAvailable ==> s[i].available) {
        PointedStep(list, s[i], sticky, at);
        if chosen == None { chosen, at := Some(s[i]), 0; }
        if Some(s[i].key) == sticky { chosen, stickyFound, at := Some(s[i]), true, |list|; }
        list := list + [s[i]];
      }
    }
    assert s[..|s|] == s;
  }

  method ScanBest(s: seq<Proxy>, sel: Selector, exclude: set<Key>, requireAvailable: bool, metric: Proxy -> real, higher: bool)
    returns (chosen: Option<Proxy>)
    ensures var list := Kept(s, sel, exclude, requireAvailable);
            && (chosen == None <==> list == [])
            && (chosen.Some? ==> exists i :: IsBest(Values(list, metric), higher, i) && chosen.value == list[i])
  {
    hide Candidate, Kept;
    KeptNone(sel, exclude, requireAvailable);
    assert s[..0] == [];
    chosen := None;
    var bestMetric := 0.0;
    ghost var at, list := 0, [];
    for i := 0 to |s|
      invariant list == Kept(s[..i], sel, exclude, requireAvailable)
      invariant chosen == None <==> list == []
      invariant chosen.Some? ==> IsBest(Values(list, metric), higher, at)
      invariant chosen.Some? ==> (chosen.value == list[at] && bestMetric == metric(list[at]))
    {
      KeptStep(s, sel, exclude, requireAvailable, i);
      assert list + [] == list;
      if Candidate(s[i], sel, exclude) && (requireAvailable ==> s[i].available) {
        ValuesAppend(list, metric, s[i]);
        var m := metric(s[i]);
        if chosen.Some? { BestStep(Values(list, metric), higher, at, m); }
        if chosen == None || (bestMetric == 0.0 && m != 0.0)
           || (m != 0.0 && ((higher && m > bestMetric) || (!higher && m < bestMetric)))
        {
          chosen, bestMetric, at := Some(s[i]), m, |list|;
        }
        list := list + [s[i]];
      }
    }
    assert s[..|s|] == s;
  }

  // selectProxyLocked: count, then apply the strategy in a second scan.
  method SelectProxyLocked(s: seq<Proxy>, stats: map<Key, Stats>, sel: Selector, cursor: Cursor, exclude: set<Key>, random: nat)
    returns (r: Selected)
    ensures IsSelection(s, stats, sel, cursor, exclude, random, r)
  {
    hide Members, Available, IsChoice;
    var count, availableCount := CountCandidates(s, sel, exclude);
    if count == 0 {
      NoneAvailable(Members(s, sel, exclude));
      return NoNode;
    }
    var requireAvailable := availableCount > 0;
    var eligible := if requireAvailable then availableCount else count;
    r := SelectByStrategy(s, stats, sel, cursor, exclude, random, requireAvailable, eligible);
  }

  lemma NoneAvailable(members: seq<Proxy>)
    ensures members == [] ==> Available(members) == []
  {
  }

  // The switch over the strategies, on the candidates that are scanned.
  method SelectByStrategy(s: seq<Proxy>, stats: map<Key, Stats>, sel: Selector, cursor: Cursor, exclude: set<Key>, random: nat,
                          requireAvailable: bool, eligible: nat)
    returns (r: Selected)
    requires eligible == |Kept(s, sel, exclude, requireAvailable)| > 0
    ensures r.Chosen? && SelectedFrom(Kept(s, sel, exclude, requireAvailable), stats, StrategyOf(sel), cursor, random, r)
  {
    hide Kept, Metrics, MetricFor;
    ghost var list := Kept(s, sel, exclude, requireAvailable);
    match StrategyOf(sel) {
      case RoundRobin =>
        var px := ScanNth(s, sel, exclude, requireAvailable, cursor.rrIdx % eligible);
        assert IsChoice(RoundRobin, cursor, list, stats, RandomIn(random, |list|), cursor.rrIdx % eligible);
        r := Chosen(px.value, false);
      case Random =>
        var px := ScanNth(s, sel, exclude, requireAvailable, random % eligible);
        assert IsChoice(Random, cursor, list, stats, RandomIn(random, |list|), random % eligible);
        r := Chosen(px.value, false);
      case Sticky =>
        var px, stickyFound := ScanSticky(s, sel, exclude, requireAvailable, cursor.stickyKey);
        ghost var i :| IsPointed(list, cursor.stickyKey, i) && px.value == list[i];
        assert IsChoice(Sticky, cursor, list, stats, RandomIn(random, |list|), i);
        r := Chosen(px.value, cursor.pinned && !stickyFound);
      case strategy =>
        var px := ScanBest(s, sel, exclude, requireAvailable, MetricFor(strategy, stats), HigherWins(strategy));
        ghost var i :| IsBest(Values(list, MetricFor(strategy, stats)), HigherWins(strategy), i) && px.value == list[i];
        BestIsChoice(strategy, cursor, list, stats, RandomIn(random, |list|), i);
        r := Chosen(px.value, cursor.pinned);
    }
  }

  lemma BestIsChoice(strategy: Strategy, cursor: Cursor, list: seq<Proxy>, stats: map<Key, Stats>, random: nat, i: int)
    requires Measured(strategy) && IsBest(Values(list, MetricFor(strategy, stats)), HigherWins(strategy), i)
    ensures IsChoice(strategy, cursor, list, stats, random, i)
  {
    assert Values(list, MetricFor(strategy, stats)) == Metrics(strategy, list, stats);
  }

  // Two selections of the same pool view agree on the node.
  lemma SelectionUnique(s: seq<Proxy>, stats: map<Key, Stats>, sel: Selector, cursor: Cursor, exclude: set<Key>, random: nat,
                        r1: Selected, r2: Selected)
    requires UniqueKeys(s)
    requires IsSelection(s, stats, sel, cursor, exclude, random, r1) && IsSelection(s, stats, sel, cursor, exclude, random, r2)
    ensures r1.Chosen? <==> r2.Chosen?
    ensures r1.Chosen? ==> r1.proxy == r2.proxy
    ensures r1.Chosen? && StrategyOf(sel) == Sticky ==> r1 == r2
  {
    hide Members, Available, RandomIn, HardRoutable;
    MembersUnique(s, sel, exclude);
    var list := Preferred(Members(s, sel, exclude));
    var n := RandomIn(random, |list|);
    if r1.Chosen? && r2.Chosen? {
      var i :| IsChoice(StrategyOf(sel), cursor, list, stats, n, i) && r1.proxy == list[i];
      var j :| IsChoice(StrategyOf(sel), cursor, list, stats, n, j) && r2.proxy == list[j];
      ChoiceUnique(StrategyOf(sel), cursor, list, stats, n, i, j);
    }
  }

  // ------------------------------------------------------- 2. the list search

  method BestBy(list: seq<Proxy>, metric: Proxy -> real, higher: bool) returns (best: Proxy)
    requires list != []
    ensures exists i :: IsBest(Values(list, metric), higher, i) && best == list[i]
  {
    best := list[0];
    var bestVal := metric(best);
    ghost var at := 0;
    for n := 1 to |list|
      invariant IsBest(Values(list[..n], metric), higher, at)
      invariant best == list[..n][at] && bestVal == metric(best)
    {
      var v := metric(list[n]);
      assert list[..n + 1] == list[..n] + [list[n]];
      ValuesAppend(list[..n], metric, list[n]);
      BestStep(Values(list[..n], metric), higher, at, v);
      if v == 0.0 { continue; }
      if bestVal == 0.0 || (higher && v > bestVal) || (!higher && v < bestVal) {
        best, bestVal, at := list[n], v, n;
      }
    }
    assert list[..|list|] == list;
  }

  method FindKey(list: seq<Proxy>, key: Option<Key>) returns (r: Option<Proxy>)
    ensures r.Some? ==> r.value in list && Some(r.value.key) == key
    ensures r == None ==> forall q | q in list :: Some(q.key) != key
  {
    for i := 0 to |list|
      invariant forall j | 0 <= j < i :: Some(list[j].key) != key
    {
      if Some(list[i].key) == key { return Some(list[i]); }
    }
    return None;
  }

  // Read-only view of a group: the current node, and whether it changes with
  // every connection.
  datatype Current = NoCurrent | Current(proxy: Proxy, dynamic: bool)

  ghost predicate IsCurrent(list: seq<Proxy>, strategy: Strategy, cursor: Cursor, stats: map<Key, Stats>, r: Current) {
    match r
    case NoCurrent => list == []
    case Current(px, dynamic) =>
      && dynamic == (strategy == RoundRobin || strategy == Random)
      && exists i ::
           && (if Measured(strategy) then IsBest(Metrics(strategy, list, stats), HigherWins(strategy), i)
               else IsPointed(list, if dynamic then cursor.lastPicked else cursor.stickyKey, i))
           && px == list[i]
  }

  method EffectiveCurrentFromSnapshot(list: seq<Proxy>, strategy: Strategy, cursor: Cursor, stats: map<Key, Stats>) returns (r: Current)
    ensures IsCurrent(list, strategy, cursor, stats, r)
  {
    if list == [] { return NoCurrent; }
    var dynamic := strategy == RoundRobin || strategy == Random;
    if Measured(strategy) {
      var best := BestBy(list, MetricFor(strategy, stats), HigherWins(strategy));
      return Current(best, false);
    }
    ghost var key := if dynamic then cursor.lastPicked else cursor.stickyKey;
    var hit := FindKey(list, if dynamic then cursor.lastPicked else cursor.stickyKey);
    if hit.Some? {
      ghost var i :| 0 <= i < |list| && list[i] == hit.value;
      assert IsPointed(list, key, i);
      r := Current(hit.value, dynamic);
    } else {
      assert IsPointed(list, key, 0);
      r := Current(list[0], dynamic);
    }
  }

  lemma CurrentUnique(list: seq<Proxy>, strategy: Strategy, cursor: Cursor, stats: map<Key, Stats>, r1: Current, r2: Current)
    requires UniqueKeys(list)
    requires IsCurrent(list, strategy, cursor, stats, r1) && IsCurrent(list, strategy, cursor, stats, r2)
    ensures r1 == r2
  {
    if r1.Current? && r2.Current? {
      var i :| (if Measured(strategy) then IsBest(Metrics(strategy, list, stats), HigherWins(strategy), i)
                else IsPointed(list, if r1.dynamic then cursor.lastPicked else cursor.stickyKey, i))
               && r1.proxy == list[i];
      var j :| (if Measured(strategy) then IsBest(Metrics(strategy, list, stats), HigherWins(strategy), j)
                else IsPointed(list, if r2.dynamic then cursor.lastPicked else cursor.stickyKey, j))
               && r2.proxy == list[j];
      if Measured(strategy) { BestUnique(Metrics(strategy, list, stats), HigherWins(strategy), i, j); }
    }
  }

  // The dashboard's current node is the node an unexcluded pick returns, for
  // every strategy that does not rotate per connection.
  lemma PickAgreesWithDashboard(s: seq<Proxy>, stats: map<Key, Stats>, sel: Selector, cursor: Cursor, random: nat, shown: Current, picked: Selected)
    requires UniqueKeys(s)
    requires StrategyOf(sel) != RoundRobin && StrategyOf(sel) != Random
    requires IsCurrent(ResolveGroup(s, sel), StrategyOf(sel), cursor, stats, shown)
    requires IsSelection(s, stats, sel, cursor, {}, random, picked)
    ensures shown.Current? <==> picked.Chosen?
    ensures shown.Current? ==> shown.proxy == picked.proxy
  {
    MembersUnique(s, sel, {});
    var list := ResolveGroup(s, sel);
    var strategy := StrategyOf(sel);
    if shown.Current? && picked.Chosen? {
      var i :| (if Measured(strategy) then IsBest(Metrics(strategy, list, stats), HigherWins(strategy), i)
                else IsPointed(list, cursor.stickyKey, i)) && shown.proxy == list[i];
      var j :| IsChoice(strategy, cursor, list, stats, RandomIn(random, |list|), j) && picked.proxy == list[j];
      assert IsChoice(strategy, cursor, list, stats, RandomIn(random, |list|), i);
      ChoiceUnique(strategy, cursor, list, stats, RandomIn(random, |list|), i, j);
    }
  }

  // ------------------------------------------------- 3. the streaming pass

  datatype Running = Running(count: nat, current: Option<Proxy>, metric: real, cursorMatched: bool)

  const IDLE := Running(0, None, 0.0, false)

  function Observe(r: Running, px: Proxy, strategy: Strategy, cursor: Cursor, metric: real): Running {
    var first := r.count == 0;
    var counted := r.(count := r.count + 1);
    if Measured(strategy) then
      if first || Replaces(metric, r.metric, HigherWins(strategy))
      then counted.(current := Some(px), metric := metric)
      else counted
    else
      var key := if strategy == RoundRobin || strategy == Random then cursor.lastPicked else cursor.stickyKey;
      var started := if first then counted.(current := Some(px)) else counted;
      if !r.cursorMatched && Some(px.key) == key
      then started.(current := Some(px), cursorMatched := true)
      else started
  }

  // What a running selection knows after the list it has been shown.
  ghost predicate Tracks(r: Running, list: seq<Proxy>, strategy: Strategy, cursor: Cursor, stats: map<Key, Stats>) {
    && r.count == |list|
    && (r.current == None <==> list == [])
    && (r.current.Some? ==>
          && IsCurrent(list, strategy, cursor, stats, Current(r.current.value, strategy == RoundRobin || strategy == Random))
          && (Measured(strategy) ==> r.metric == MetricOf(strategy, r.current.value, stats)))
    && (!Measured(strategy) ==>
          (r.cursorMatched <==>
            exists q | q in list :: Some(q.key) == (if strategy == RoundRobin || strategy == Random then cursor.lastPicked else cursor.stickyKey)))
  }

  lemma ObserveMeasured(r: Running, px: Proxy, list: seq<Proxy>, strategy: Strategy, cursor: Cursor, stats: map<Key, Stats>)
    requires Tracks(r, list, strategy, cursor, stats) && Measured(strategy)
    ensures Tracks(Observe(r, px, strategy, cursor, MetricOf(strategy, px, stats)), list + [px], strategy, cursor, stats)
  {
    var higher := HigherWins(strategy);
    ValuesAppend(list, MetricFor(strategy, stats), px);
    var ms, m := Metrics(strategy, list, stats), MetricOf(strategy, px, stats);
    if list == [] {
      assert IsBest(ms + [m], higher, 0) && (list + [px])[0] == px;
    } else {
      var i :| IsBest(ms, higher, i) && r.current.value == list[i];
      BestStep(ms, higher, i, m);
      var j := if Replaces(m, ms[i], higher) then |ms| else i;
      assert IsBest(Metrics(strategy, list + [px], stats), higher, j);
      assert (list + [px])[j] == if j == i then list[i] else px;
    }
  }

  lemma ObservePointed(r: Running, px: Proxy, list: seq<Proxy>, strategy: Strategy, cursor: Cursor, stats: map<Key, Stats>)
    requires Tracks(r, list, strategy, cursor, stats) && !Measured(strategy)
    ensures Tracks(Observe(r, px, strategy, cursor, 0.0), list + [px], strategy, cursor, stats)
  {
    var key := if strategy == RoundRobin || strategy == Random then cursor.lastPicked else cursor.stickyKey;
    var longer := list + [px];
    var next := Observe(r, px, strategy, cursor, 0.0);
    assert longer[|list|] == px && px in longer;
    assert forall j | 0 <= j < |list| :: longer[j] == list[j];
    assert forall q | q in list :: q in longer;
    if r.cursorMatched {
      var i :| IsPointed(list, key, i) && r.current.value == list[i];
      var q :| q in list && Some(q.key) == key;
      assert IsPointed(longer, key, i);
    } else if Some(px.key) == key {
      assert IsPointed(longer, key, |list|);
    } else {
      assert forall j | 0 <= j < |longer| :: Some(longer[j].key) != key by {
        forall j | 0 <= j < |longer| ensures Some(longer[j].key) != key {
          if j < |list| { assert list[j] in list; }
        }
      }
      assert IsPointed(longer, key, 0);
      if list != [] {
        var i :| IsPointed(list, key, i) && r.current.value == list[i];
        assert forall j | 0 <= j < |list| :: list[j] in list;
      }
    }
  }

  datatype GroupState = GroupState(strategy: Strategy, cursor: Cursor, routable: Running, available: Running)

  // streamingStatusGroup.observe
  function ObserveGroup(g: GroupState, px: Proxy, score: real): GroupState {
    var metric := if g.strategy == ByScore then score
                  else if g.strategy == Latency then px.latencyMs as real
                  else if g.strategy == Speed then px.speedKbps else 0.0;
    var seen := g.(routable := Observe(g.routable, px, g.strategy, g.cursor, metric));
    if px.available then seen.(available := Observe(g.available, px, g.strategy, g.cursor, metric)) else seen
  }

  function PreferredRunning(g: GroupState): Running {
    if g.available.count > 0 then g.available else g.routable
  }

  ghost predicate GroupTracks(g: GroupState, members: seq<Proxy>, stats: map<Key, Stats>) {
    && Tracks(g.routable, members, g.strategy, g.cursor, stats)
    && Tracks(g.available, Available(members), g.strategy, g.cursor, stats)
  }

  lemma ObserveGroupTracks(g: GroupState, members: seq<Proxy>, px: Proxy, stats: map<Key, Stats>, score: real)
    requires GroupTracks(g, members, stats)
    requires g.strategy == ByScore ==> score == Score(px, StatsOf(stats, px.key))
    ensures GroupTracks(ObserveGroup(g, px, score), members + [px], stats)
  {
    AvailableAppend(members, px);
    assert Available(members) + [] == Available(members);
    if Measured(g.strategy) {
      ObserveMeasured(g.routable, px, members, g.strategy, g.cursor, stats);
      ObserveMeasured(g.available, px, Available(members), g.strategy, g.cursor, stats);
    } else {
      ObservePointed(g.routable, px, members, g.strategy, g.cursor, stats);
      ObservePointed(g.available, px, Available(members), g.strategy, g.cursor, stats);
    }
  }

  datatype GroupView = GroupView(count: nat, current: Option<Proxy>)

  // One group's row in the compact snapshot is exactly the filtered list's size
  // and its current node.
  ghost predicate ViewOf(view: GroupView, all: seq<Proxy>, sel: Selector, cursor: Cursor, stats: map<Key, Stats>) {
    var list := ResolveGroup(all, sel);
    && view.count == |list|
    && (view.current == None <==> list == [])
    && (view.current.Some? ==>
          IsCurrent(list, StrategyOf(sel), cursor, stats,
                    Current(view.current.value, StrategyOf(sel) == RoundRobin || StrategyOf(sel) == Random)))
  }

  // The row of ANY shows the size of the pool, its own current node and pin.
  datatype AnyView = AnyView(count: nat, current: Option<Proxy>, pinned: bool)

  // The nodes the dashboard counts as available, by their place in the pool.
  predicate Counts(px: Proxy) { px.available && HardRoutable(px) && px.key.protocol in ["socks5", "http", "https"] }

  function Forwarding(all: seq<Proxy>): set<nat> { set i: nat | i < |all| && Counts(all[i]) }

  // captureCompactStatusPoolSnapshot: one pass over the pool updates every
  // group's pair of running selections in place.
  method CaptureCompact(all: seq<Proxy>, stats: map<Key, Stats>, sels: seq<Selector>, cursors: seq<Cursor>, anyCursor: Cursor)
    returns (views: seq<GroupView>, any: AnyView, availableTotal: nat)
    requires |sels| == |cursors|
    ensures |views| == |sels|
    ensures forall g | 0 <= g < |sels| :: ViewOf(views[g], all, sels[g], cursors[g], stats)
    ensures any.count == |all| && any.pinned == anyCursor.pinned
    ensures ViewOf(GroupView(|ResolveGroup(all, AnyNode)|, any.current), all, AnyNode, anyCursor, stats)
    ensures availableTotal == |Forwarding(all)|
  {
    hide Members, Available, GroupTracks, ViewOf;
    var n := |sels|;
    var withAny, itsCursors := sels + [AnyNode], cursors + [anyCursor];
    var states := IdleStates(stats, withAny, itsCursors);
    availableTotal := ObservePool(states, all, stats, withAny, itsCursors);
    var rows := ViewGroups(states, all, stats, withAny, itsCursors);
    assert ViewOf(rows[n], all, withAny[n], itsCursors[n], stats);
    ViewCounts(rows[n], all, AnyNode, anyCursor, stats);
    any := AnyView(|all|, rows[n].current, anyCursor.pinned);
    views := rows[..n];
    forall g | 0 <= g < n ensures ViewOf(views[g], all, sels[g], cursors[g], stats) {
      assert ViewOf(rows[g], all, withAny[g], itsCursors[g], stats);
    }
  }

  lemma ViewCounts(view: GroupView, all: seq<Proxy>, sel: Selector, cursor: Cursor, stats: map<Key, Stats>)
    requires ViewOf(view, all, sel, cursor, stats)
    ensures view == GroupView(|ResolveGroup(all, sel)|, view.current)
  {
  }

  method ViewGroups(states: array<GroupState>, all: seq<Proxy>, stats: map<Key, Stats>, sels: seq<Selector>, cursors: seq<Cursor>)
    returns (views: seq<GroupView>)
    requires states.Length == |sels| == |cursors|
    requires forall g | 0 <= g < |sels| :: states[g].strategy == StrategyOf(sels[g]) && states[g].cursor == cursors[g]
    requires forall g | 0 <= g < |sels| :: GroupTracks(states[g], Members(all, sels[g], {}), stats)
    ensures |views| == |sels|
    ensures forall g | 0 <= g < |sels| :: ViewOf(views[g], all, sels[g], cursors[g], stats)
  {
    hide Members, Available, GroupTracks, ViewOf;
    views := [];
    for g := 0 to |sels|
      invariant |views| == g
      invariant forall h | 0 <= h < g :: ViewOf(views[h], all, sels[h], cursors[h], stats)
    {
      TracksView(states[g], all, sels[g], cursors[g], stats);
      var preferred := PreferredRunning(states[g]);
      views := views + [GroupView(preferred.count, preferred.current)];
    }
  }

  method IdleStates(stats: map<Key, Stats>, sels: seq<Selector>, cursors: seq<Cursor>) returns (states: array<GroupState>)
    requires |sels| == |cursors|
    ensures fresh(states) && states.Length == |sels|
    ensures forall g | 0 <= g < |sels| :: states[g].strategy == StrategyOf(sels[g]) && states[g].cursor == cursors[g]
    ensures forall g | 0 <= g < |sels| :: GroupTracks(states[g], Members([], sels[g], {}), stats)
  {
    states := new GroupState[|sels|](g requires 0 <= g < |sels| && |sels| == |cursors| =>
      GroupState(StrategyOf(sels[g]), cursors[g], IDLE, IDLE));
  }

  // The single pass over the pool.
  method ObservePool(states: array<GroupState>, all: seq<Proxy>, stats: map<Key, Stats>, sels: seq<Selector>, cursors: seq<Cursor>)
    returns (availableTotal: nat)
    requires states.Length == |sels| == |cursors|
    requires forall g | 0 <= g < |sels| :: states[g].strategy == StrategyOf(sels[g]) && states[g].cursor == cursors[g]
    requires forall g | 0 <= g < |sels| :: GroupTracks(states[g], Members([], sels[g], {}), stats)
    modifies states
    ensures forall g | 0 <= g < |sels| :: states[g].strategy == StrategyOf(sels[g]) && states[g].cursor == cursors[g]
    ensures forall g | 0 <= g < |sels| :: GroupTracks(states[g], Members(all, sels[g], {}), stats)
    ensures availableTotal == |Forwarding(all)|
  {
    hide Members, GroupTracks, Counts;
    assert all[..0] == [] && Forwarding([]) == {};
    availableTotal := 0;
    for i := 0 to |all|
      invariant availableTotal == |Forwarding(all[..i])|
      invariant forall g | 0 <= g < |sels| :: states[g].strategy == StrategyOf(sels[g]) && states[g].cursor == cursors[g]
      invariant forall g | 0 <= g < |sels| :: GroupTracks(states[g], Members(all[..i], sels[g], {}), stats)
    {
      var px := all[i];
      ForwardingStep(all, i);
      if Counts(px) { availableTotal := availableTotal + 1; }
      ObserveAll(states, all, i, stats, sels, cursors);
    }
    assert all[..|all|] == all;
  }

  lemma ForwardingStep(all: seq<Proxy>, i: nat)
    requires i < |all|
    ensures |Forwarding(all[..i + 1])| == |Forwarding(all[..i])| + if Counts(all[i]) then 1 else 0
  {
    assert Forwarding(all[..i + 1]) == Forwarding(all[..i]) + if Counts(all[i]) then {i} else {};
  }

  lemma TracksView(state: GroupState, all: seq<Proxy>, sel: Selector, cursor: Cursor, stats: map<Key, Stats>)
    requires state.strategy == StrategyOf(sel) && state.cursor == cursor && GroupTracks(state, Members(all, sel, {}), stats)
    ensures var preferred := PreferredRunning(state); ViewOf(GroupView(preferred.count, preferred.current), all, sel, cursor, stats)
  {
  }

  predicate Visible(px: Proxy, sel: Selector) { HardRoutable(px) && Matches(sel, px) }

  lemma GroupAdvances(g: GroupState, all: seq<Proxy>, i: nat, sel: Selector, stats: map<Key, Stats>, score: real)
    requires i < |all| && GroupTracks(g, Members(all[..i], sel, {}), stats)
    requires g.strategy == ByScore && Visible(all[i], sel) ==> score == Score(all[i], StatsOf(stats, all[i].key))
    ensures GroupTracks(if Visible(all[i], sel) then ObserveGroup(g, all[i], score) else g, Members(all[..i + 1], sel, {}), stats)
  {
    var members := Members(all[..i], sel, {});
    MembersStep(all, sel, {}, i);
    if Visible(all[i], sel) {
      ObserveGroupTracks(g, members, all[i], stats, score);
    } else {
      assert members + [] == members;
    }
  }

  method ObserveAll(states: array<GroupState>, all: seq<Proxy>, i: nat, stats: map<Key, Stats>, sels: seq<Selector>, cursors: seq<Cursor>)
    requires i < |all| && states.Length == |sels| == |cursors|
    requires forall g | 0 <= g < |sels| :: states[g].strategy == StrategyOf(sels[g]) && states[g].cursor == cursors[g]
    requires forall g | 0 <= g < |sels| :: GroupTracks(states[g], Members(all[..i], sels[g], {}), stats)
    modifies states
    ensures forall g | 0 <= g < |sels| :: states[g].strategy == StrategyOf(sels[g]) && states[g].cursor == cursors[g]
    ensures forall g | 0 <= g < |sels| :: GroupTracks(states[g], Members(all[..i + 1], sels[g], {}), stats)
  {
    hide Score, Visible, Members, GroupTracks;
    var px := all[i];
    var score, scoreReady := 0.0, false;
    ghost var before := states[..];
    for g := 0 to |sels|
      invariant scoreReady ==> score == Score(px, StatsOf(stats, px.key))
      invariant forall h | 0 <= h < |sels| :: states[h].strategy == before[h].strategy && states[h].cursor == before[h].cursor
      invariant forall h | g <= h < |sels| :: states[h] == before[h]
      invariant forall h | 0 <= h < g :: GroupTracks(states[h], Members(all[..i + 1], sels[h], {}), stats)
    {
      if states[g].strategy == ByScore && !scoreReady && Visible(px, sels[g]) {
        score, scoreReady := Score(px, StatsOf(stats, px.key)), true;
      }
      GroupAdvances(before[g], all, i, sels[g], stats, score);
      if Visible(px, sels[g]) {
        states[g] := ObserveGroup(states[g], px, score);
      }
    }
  }

  // Main result: the streaming row, the list search and an unexcluded pick name
  // the same node.
  lemma ThreeSelectionsAgree(all: seq<Proxy>, stats: map<Key, Stats>, sel: Selector, cursor: Cursor, random: nat,
                             view: GroupView, shown: Current, picked: Selected)
    requires UniqueKeys(all)
    requires ViewOf(view, all, sel, cursor, stats)
    requires IsCurrent(ResolveGroup(all, sel), StrategyOf(sel), cursor, stats, shown)
    requires IsSelection(all, stats, sel, cursor, {}, random, picked)
    ensures view.current == (if shown.Current? then Some(shown.proxy) else None)
    ensures StrategyOf(sel) != RoundRobin && StrategyOf(sel) != Random ==>
              view.current == (if picked.Chosen? then Some(picked.proxy) else None)
  {
    MembersUnique(all, sel, {});
    if view.current.Some? {
      CurrentUnique(ResolveGroup(all, sel), StrategyOf(sel), cursor, stats, shown,
                    Current(view.current.value, StrategyOf(sel) == RoundRobin || StrategyOf(sel) == Random));
    }
    if StrategyOf(sel) != RoundRobin && StrategyOf(sel) != Random {
      PickAgreesWithDashboard(all, stats, sel, cursor, random, shown, picked);
    }
  }
}
