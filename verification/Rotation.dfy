// Fair rotation (pool.go): sticky rotation, round-robin picks and the bounded
// automatic recheck visit every eligible node in turn.
module Rotation {
  import opened Proxies
  import opened Pool
  import opened Circular
  import Selection

  function Min(a: nat, b: nat): nat { if a < b then a else b }

  // ----------------------------------------------------------------- batches

  ghost predicate Meets(e: nat -> bool, n: nat, a: nat, picks: seq<nat>) {
    && (picks != [] ==> Rank(e, n) > 0)
    && forall j | 0 <= j < |picks| :: picks[j] == Met(e, n, a + j)
  }

  lemma MeetsAppend(e: nat -> bool, n: nat, a: nat, picks: seq<nat>, i: nat)
    requires Meets(e, n, a, picks) && Rank(e, n) > 0 && i == Met(e, n, a + |picks|)
    ensures Meets(e, n, a, picks + [i])
  {
  }

  // One bounded scan: the first min(limit, P) eligible slots from start.
  ghost predicate Batch(e: nat -> bool, n: nat, start: nat, limit: nat, picks: seq<nat>) {
    && start < n
    && |picks| == Min(limit, Rank(e, n))
    && Meets(e, n, Rank(e, start), picks)
  }

  // Consecutive scans, each starting where the previous one left the cursor.
  ghost predicate Chain(e: nat -> bool, n: nat, limit: nat, starts: seq<nat>, batches: seq<seq<nat>>) {
    && |starts| == |batches| + 1
    && (forall c | 0 <= c < |starts| :: starts[c] < n)
    && forall c | 0 <= c < |batches| ::
         && Batch(e, n, starts[c], limit, batches[c])
         && StartsAt(e, n, starts[c + 1], Rank(e, starts[c]) + |batches[c]|)
  }

  // The cursor behind the last pick of a batch.
  lemma BatchAdvances(e: nat -> bool, n: nat, start: nat, limit: nat, picks: seq<nat>)
    requires Batch(e, n, start, limit, picks)
    ensures picks != [] ==> StartsAt(e, n, Mod(picks[|picks|-1] + 1, n), Rank(e, start) + |picks|)
    ensures Rank(e, n) <= limit ==> StartsAt(e, n, start, Rank(e, start) + |picks|)
  {
    if picks != [] {
      StartAfter(e, n, Rank(e, start) + |picks| - 1, picks[|picks|-1]);
    }
    if 0 < Rank(e, n) <= limit {
      SameRound(Rank(e, start), Rank(e, n));
    }
  }

  lemma SameRound(a: nat, m: nat)
    requires m > 0
    ensures Mod(a + m, m) == Mod(a, m)
  {
  }

  lemma {:induction false} ChainRanks(e: nat -> bool, n: nat, limit: nat, starts: seq<nat>, batches: seq<seq<nat>>, c: nat)
    requires Chain(e, n, limit, starts, batches) && Rank(e, n) > 0 && c <= |batches|
    ensures Mod(Rank(e, starts[c]), Rank(e, n)) == Mod(Rank(e, starts[0]) + c * Min(limit, Rank(e, n)), Rank(e, n))
  {
    if c > 0 {
      var w := Min(limit, Rank(e, n));
      ChainRanks(e, n, limit, starts, batches, c - 1);
      assert Batch(e, n, starts[c - 1], limit, batches[c - 1]);
      ModAdd(Rank(e, starts[c - 1]), Rank(e, starts[0]) + (c - 1) * w, w, Rank(e, n));
      assert c * w == (c - 1) * w + w;
    }
  }

  // Enough consecutive batches together contain every eligible slot: with P of
  // them, ceil(P / limit) calls are enough.
  lemma BatchesCoverEverySlot(e: nat -> bool, n: nat, limit: nat, starts: seq<nat>, batches: seq<seq<nat>>, i: nat)
    requires Chain(e, n, limit, starts, batches)
    requires i < n && e(i) && limit > 0 && |batches| > 0 && |batches| * limit >= Rank(e, n)
    ensures exists c :: 0 <= c < |batches| && i in batches[c]
  {
    hide Rank, Nth, Mod;
    NthOfRank(e, n, i);
    var w := Min(limit, Rank(e, n));
    assert |batches| * w >= Rank(e, n) by { if limit > Rank(e, n) { Times(1, |batches|, Rank(e, n)); } }
    var j := MetCovers(e, n, Rank(e, starts[0]), |batches| * w, i);
    var c, k := Split(j, |batches|, w);
    ChainRanks(e, n, limit, starts, batches, c);
    assert Batch(e, n, starts[c], limit, batches[c]);
    SameMeetings(e, n, Rank(e, starts[c]), Rank(e, starts[0]) + c * w, k);
    assert batches[c][k] == i;
  }

  lemma Split(j: nat, b: nat, w: nat) returns (c: nat, k: nat)
    requires j < b * w && w > 0
    ensures c < b && k < w && j == c * w + k
  {
    c, k := j / w, j % w;
    assert j == c * w + k;
    if c >= b { Times(b, c, w); }
  }

  // Within one batch no slot is taken twice.
  lemma BatchDistinct(e: nat -> bool, n: nat, start: nat, limit: nat, picks: seq<nat>, j: nat, k: nat)
    requires Batch(e, n, start, limit, picks) && j < k < |picks|
    ensures picks[j] != picks[k]
  {
    MetDistinct(e, n, Rank(e, start) + j, Rank(e, start) + k);
  }

  // ---------------------------------------------------------- sticky rotation

  // The nodes a rotation may land on: healthy ones when ANY has any, otherwise
  // every routable one.
  predicate OnlyHealthy(s: seq<Proxy>, name: string) {
    IsAny(name) && exists px | px in s :: HardRoutable(px) && px.available
  }

  function Landing(s: seq<Proxy>, healthy: bool): nat -> bool {
    (i: nat) => i < |s| && HardRoutable(s[i]) && (healthy ==> s[i].available)
  }

  // Just behind the sticky node, or the front of the list.
  function RotationStart(s: seq<Proxy>, sticky: Option<Key>): nat
    requires s != []
  {
    var at := if sticky == None then None else Lookup(s, sticky.value);
    if at == None then 0 else Mod(at.value + 1, |s|)
  }

  function RotationTarget(s: seq<Proxy>, healthy: bool, sticky: Option<Key>): nat
    requires s != [] && Rank(Landing(s, healthy), |s|) > 0
  {
    Met(Landing(s, healthy), |s|, Rank(Landing(s, healthy), RotationStart(s, sticky)))
  }

  lemma TargetIs(s: seq<Proxy>, healthy: bool, sticky: Option<Key>)
    requires s != [] && Rank(Landing(s, healthy), |s|) > 0
    ensures var i := RotationTarget(s, healthy, sticky); i < |s| && Landing(s, healthy)(i)
  {
    var e, n := Landing(s, healthy), |s|;
    NthIs(e, n, Mod(Rank(e, RotationStart(s, sticky)), Rank(e, n)));
  }

  // The nodes successive forced rotations of an unchanged pool land on.
  ghost function Visited(s: seq<Proxy>, healthy: bool, sticky: Option<Key>, times: nat): seq<nat>
    requires s != [] && Rank(Landing(s, healthy), |s|) > 0
    decreases times
  {
    if times == 0 then []
    else
      TargetIs(s, healthy, sticky);
      var i := RotationTarget(s, healthy, sticky);
      [i] + Visited(s, healthy, Some(s[i].key), times - 1)
  }

  lemma LookupAt(s: seq<Proxy>, i: nat)
    requires UniqueKeys(s) && i < |s|
    ensures Lookup(s, s[i].key) == Some(i)
  {
    assert s[i] in s;
    var j := Lookup(s, s[i].key).value;
    assert i == j;
  }

  lemma TargetMeets(s: seq<Proxy>, healthy: bool, sticky: Option<Key>, x: nat)
    requires s != [] && Rank(Landing(s, healthy), |s|) > 0
    requires StartsAt(Landing(s, healthy), |s|, RotationStart(s, sticky), x)
    ensures RotationTarget(s, healthy, sticky) == Met(Landing(s, healthy), |s|, x) < |s|
  {
    TargetIs(s, healthy, sticky);
  }

  lemma StartBehind(s: seq<Proxy>, e: nat -> bool, x: nat, i: nat)
    requires UniqueKeys(s) && i < |s| && Rank(e, |s|) > 0 && i == Met(e, |s|, x)
    ensures StartsAt(e, |s|, RotationStart(s, Some(s[i].key)), x + 1)
  {
    LookupAt(s, i);
    StartAfter(e, |s|, x, i);
  }

  lemma {:induction false} VisitedMeets(s: seq<Proxy>, healthy: bool, sticky: Option<Key>, times: nat, x: nat, j: nat)
    requires UniqueKeys(s) && s != [] && Rank(Landing(s, healthy), |s|) > 0
    requires StartsAt(Landing(s, healthy), |s|, RotationStart(s, sticky), x) && j < times
    ensures |Visited(s, healthy, sticky, times)| == times
    ensures Visited(s, healthy, sticky, times)[j] == Met(Landing(s, healthy), |s|, x + j)
    decreases times
  {
    hide Rank, Nth, Mod, Met, Landing, RotationStart, RotationTarget;
    TargetMeets(s, healthy, sticky, x);
    var i := RotationTarget(s, healthy, sticky);
    StartBehind(s, Landing(s, healthy), x, i);
    if times > 1 {
      VisitedMeets(s, healthy, Some(s[i].key), times - 1, x + 1, if j > 0 then j - 1 else 0);
      if j > 0 { assert x + 1 + (j - 1) == x + j; }
    } else {
      assert Visited(s, healthy, Some(s[i].key), 0) == [];
    }
  }

  // m eligible nodes, m rotations: each node exactly once, wherever the cursor
  // starts.
  lemma RotationVisitsEachOnce(s: seq<Proxy>, healthy: bool, sticky: Option<Key>)
    requires UniqueKeys(s) && s != [] && Rank(Landing(s, healthy), |s|) > 0
    ensures var m := Rank(Landing(s, healthy), |s|);
            var v := Visited(s, healthy, sticky, m);
            && |v| == m
            && (forall j, k | 0 <= j < k < m :: v[j] != v[k])
            && (forall j | 0 <= j < m :: v[j] < |s| && Landing(s, healthy)(v[j]))
            && (forall i | 0 <= i < |s| && Landing(s, healthy)(i) :: i in v)
  {
    hide Rank, Nth, Mod, Landing, Visited;
    var e, n := Landing(s, healthy), |s|;
    var m := Rank(e, n);
    var start := RotationStart(s, sticky);
    var x := Rank(e, start);
    if sticky.Some? && Lookup(s, sticky.value).Some? { SmallMod(Lookup(s, sticky.value).value + 1, n); }
    var v := Visited(s, healthy, sticky, m);
    VisitedMeets(s, healthy, sticky, m, x, 0);
    forall j | 0 <= j < m ensures v[j] == Met(e, n, x + j) { VisitedMeets(s, healthy, sticky, m, x, j); }
    forall j, k | 0 <= j < k < m ensures v[j] != v[k] { MetDistinct(e, n, x + j, x + k); }
    forall j | 0 <= j < m ensures v[j] < |s| && e(v[j]) { NthIs(e, n, Mod(x + j, m)); }
    forall i | 0 <= i < |s| && e(i) ensures i in v {
      var j := MetCovers(e, n, x, m, i);
      assert v[j] == i;
    }
  }

  // -------------------------------------------------------------- round robin

  // n consecutive round-robin picks over an unchanged list of n nodes return
  // each of them exactly once.
  lemma RoundRobinVisitsEachOnce(list: seq<Proxy>, stats: map<Key, Stats>, cursor: Cursor, random: nat, picks: seq<int>)
    requires list != [] && |picks| == |list|
    requires forall j | 0 <= j < |picks| ::
               Selection.IsChoice(RoundRobin, cursor.(rrIdx := cursor.rrIdx + j), list, stats, random, picks[j])
    ensures forall j, k | 0 <= j < k < |picks| :: picks[j] != picks[k]
    ensures forall i | 0 <= i < |list| :: i in picks
  {
    var n, r := |list|, cursor.rrIdx;
    forall j, k | 0 <= j < k < n ensures picks[j] != picks[k] {
      ModIsRemainder(r + j, n);
      ModIsRemainder(r + k, n);
      ModGap(r + j, r + k, n);
    }
    forall i | 0 <= i < n ensures i in picks {
      var b := Mod(r, n);
      SmallMod(b, n);
      var j := if b <= i then i - b else i + n - b;
      SmallMod(b + j, n);
      ModAdd(r, b, j, n);
      ModIsRemainder(r + j, n);
      assert picks[j] == i;
    }
  }

  // ------------------------------------------------------- automatic rechecks

  const SUCCESS_COOLDOWN := 86400

  // Terminal failures and nodes inside the success cooldown are skipped.
  predicate EligibleForAutoRecheck(px: Proxy, st: Stats, now: int) {
    && !px.sourceRetired
    && !st.terminal
    && (st.lastHealthSuccessAt.Some? ==> now >= st.lastHealthSuccessAt.value + SUCCESS_COOLDOWN)
  }

  predicate IsDue(px: Proxy, stats: map<Key, Stats>, now: int) {
    EligibleForAutoRecheck(px, if px.key in stats then stats[px.key] else UNSEEN, now)
  }

  function Due(s: seq<Proxy>, stats: map<Key, Stats>, now: int): nat -> bool {
    (i: nat) => i < |s| && IsDue(s[i], stats, now)
  }

  function RecheckStart(s: seq<Proxy>, cursor: Option<Key>): nat
    requires s != []
  {
    RotationStart(s, cursor)
  }
}
