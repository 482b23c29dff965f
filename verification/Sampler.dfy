// Choosing a bounded slice of a large inventory (sampler.go): the cursor that
// walks one source bucket round and round.
module Sampler {
  import opened Proxies
  import opened Circular
  import opened Rotation
  import Lexicographic

  // An inventory entry as the sampler sees it; protocol, address and port are
  // its key.
  datatype Node = Node(source: string, protocol: string, ip: string, port: string)

  datatype NodeKey = NodeKey(protocol: string, ip: string, port: string)

  function KeyOf(x: Node): NodeKey { NodeKey(x.protocol, x.ip, x.port) }

  const UNKNOWN := "unknown"
  const SEPARATOR := "\0"

  // candidateBucketKey
  function BucketKey(x: Node): string { (if x.source == "" then UNKNOWN else x.source) + SEPARATOR + x.protocol }

  // The address and port a cursor points at; "" and "" before the first one.
  datatype Cursor = Start | At(ip: string, port: string)

  function CursorOf(x: Node): Cursor { At(x.ip, x.port) }

  // candidateCursorLess
  predicate NodeLess(a: Node, b: Node) { Lexicographic.PairLess(a.ip, a.port, b.ip, b.port) }

  predicate Above(x: Node, c: Cursor) { c.Start? || Lexicographic.PairLess(c.ip, c.port, x.ip, x.port) }

  // The code compares the joined text of a cursor; for addresses without the
  // separator that is the order of the pairs.
  lemma {:induction false} JoinedOrder(a: string, p: string, b: string, q: string)
    requires '\0' !in a && '\0' !in b
    ensures Lexicographic.Less(a + SEPARATOR + p, b + SEPARATOR + q) <==> Lexicographic.PairLess(a, p, b, q)
  {
    var x, y := a + SEPARATOR + p, b + SEPARATOR + q;
    if a == [] && b == [] {
      assert x[1..] == p && y[1..] == q;
      Lexicographic.Irreflexive(a);
    } else if a == [] {
      assert x[0] == '\0' && y[0] == b[0] && b[0] in b;
    } else if b == [] {
      assert x[0] == a[0] && y[0] == '\0' && a[0] in a;
      assert !Lexicographic.Less(x, y);
    } else {
      assert x[1..] == a[1..] + SEPARATOR + p && y[1..] == b[1..] + SEPARATOR + q;
      JoinedOrder(a[1..], p, b[1..], q);
      assert a == [a[0]] + a[1..] && b == [b[0]] + b[1..];
      assert a == b <==> a[0] == b[0] && a[1..] == b[1..];
    }
  }

  ghost predicate Ordered(bucket: seq<Node>) { forall i, j | 0 <= i < j < |bucket| :: NodeLess(bucket[i], bucket[j]) }

  // ------------------------------------------------------------------ start

  function FirstAbove(bucket: seq<Node>, c: Cursor): (k: nat)
    ensures k <= |bucket|
  {
    if bucket == [] || Above(bucket[0], c) then 0 else 1 + FirstAbove(bucket[1..], c)
  }

  // Where the next scan of the bucket begins.
  function StartOf(bucket: seq<Node>, c: Cursor): (s: nat)
    ensures bucket != [] ==> s < |bucket|
  {
    if FirstAbove(bucket, c) == |bucket| then 0 else FirstAbove(bucket, c)
  }

  lemma {:induction false} FirstAboveIs(bucket: seq<Node>, c: Cursor, k: nat)
    requires k <= |bucket| && (forall i | 0 <= i < k :: !Above(bucket[i], c)) && (k < |bucket| ==> Above(bucket[k], c))
    ensures FirstAbove(bucket, c) == k
  {
    if k > 0 {
      forall i | 0 <= i < k - 1 ensures !Above(bucket[1..][i], c) { assert bucket[1..][i] == bucket[i + 1]; }
      assert k < |bucket| ==> bucket[1..][k - 1] == bucket[k];
      FirstAboveIs(bucket[1..], c, k - 1);
    }
  }

  // Everything before lo is at most the cursor, everything from hi on above it.
  ghost predicate Bracketed(bucket: seq<Node>, c: Cursor, lo: nat, hi: nat) {
    lo <= hi <= |bucket| && (forall i | 0 <= i < lo :: !Above(bucket[i], c)) && (forall i | hi <= i < |bucket| :: Above(bucket[i], c))
  }

  lemma BracketNarrows(bucket: seq<Node>, c: Cursor, lo: nat, hi: nat, mid: nat)
    requires Ordered(bucket) && Bracketed(bucket, c, lo, hi) && lo <= mid < hi
    ensures if Above(bucket[mid], c) then Bracketed(bucket, c, lo, mid) else Bracketed(bucket, c, mid + 1, hi)
  {
    if Above(bucket[mid], c) {
      forall i | mid <= i < hi ensures Above(bucket[i], c) { AboveUp(bucket, c, mid, i); }
    } else {
      forall i | lo <= i <= mid ensures !Above(bucket[i], c) {
        if Above(bucket[i], c) { AboveUp(bucket, c, i, mid); }
      }
    }
  }

  lemma AboveUp(bucket: seq<Node>, c: Cursor, i: nat, j: nat)
    requires Ordered(bucket) && i <= j < |bucket| && Above(bucket[i], c)
    ensures Above(bucket[j], c)
  {
    if i < j && c.At? {
      assert NodeLess(bucket[i], bucket[j]);
      Lexicographic.PairTransitive(c.ip, c.port, bucket[i].ip, bucket[i].port, bucket[j].ip, bucket[j].port);
    }
  }

  // sort.Search over the bucket.
  method SearchStart(bucket: seq<Node>, c: Cursor) returns (start: nat)
    requires Ordered(bucket)
    ensures start == StartOf(bucket, c)
  {
    var lo: nat, hi: nat := 0, |bucket|;
    while lo < hi
      invariant Bracketed(bucket, c, lo, hi)
    {
      var mid := (lo + hi) / 2;
      BracketNarrows(bucket, c, lo, hi, mid);
      if Above(bucket[mid], c) { hi := mid; } else { lo := mid + 1; }
    }
    FirstAboveIs(bucket, c, lo);
    start := if lo == |bucket| then 0 else lo;
  }

  // A cursor at entry j starts the next scan just behind it.
  lemma StartsBehind(bucket: seq<Node>, j: nat)
    requires Ordered(bucket) && j < |bucket|
    ensures StartOf(bucket, CursorOf(bucket[j])) == if j + 1 == |bucket| then 0 else j + 1
  {
    var c := CursorOf(bucket[j]);
    forall i | 0 <= i <= j ensures !Above(bucket[i], c) {
      if i == j {
        Lexicographic.PairIrreflexive(c.ip, c.port);
      } else {
        assert NodeLess(bucket[i], bucket[j]);
        Lexicographic.PairAsymmetric(bucket[i].ip, bucket[i].port, c.ip, c.port);
      }
    }
    if j + 1 < |bucket| { assert NodeLess(bucket[j], bucket[j + 1]); }
    FirstAboveIs(bucket, c, j + 1);
  }

  // ----------------------------------------------------------------- matching

  // What a phase may pick: not selected this refresh, and known or not.
  predicate Pickable(x: Node, known: set<NodeKey>, selected: set<NodeKey>, knownPhase: bool) {
    KeyOf(x) !in selected && (KeyOf(x) in known) == knownPhase
  }

  function Slots(bucket: seq<Node>, known: set<NodeKey>, selected: set<NodeKey>, knownPhase: bool): nat -> bool {
    (i: nat) => i < |bucket| && Pickable(bucket[i], known, selected, knownPhase)
  }

  ghost predicate Remaining(bucket: seq<Node>, known: set<NodeKey>, selected: set<NodeKey>, knownPhase: bool) {
    exists x | x in bucket :: Pickable(x, known, selected, knownPhase)
  }

  lemma RankOfRemaining(bucket: seq<Node>, known: set<NodeKey>, selected: set<NodeKey>, knownPhase: bool)
    ensures Remaining(bucket, known, selected, knownPhase) <==> Rank(Slots(bucket, known, selected, knownPhase), |bucket|) > 0
  {
    var e, n := Slots(bucket, known, selected, knownPhase), |bucket|;
    if Remaining(bucket, known, selected, knownPhase) {
      var x :| x in bucket && Pickable(x, known, selected, knownPhase);
      var i :| 0 <= i < n && bucket[i] == x;
      NthOfRank(e, n, i);
    }
    if Rank(e, n) > 0 {
      NthIs(e, n, 0);
      assert bucket[Nth(e, n, 0)] in bucket;
    }
  }

  // nextMatching's choice: the first match from the cursor on, round the bucket.
  ghost predicate IsNext(bucket: seq<Node>, e: nat -> bool, start: nat, r: Option<Node>) {
    && (Rank(e, |bucket|) == 0 ==> r == None)
    && (Rank(e, |bucket|) > 0 ==>
          (NthIs(e, |bucket|, Mod(Rank(e, start), Rank(e, |bucket|)));
           var i := Met(e, |bucket|, Rank(e, start)); i < |bucket| && r == Some(bucket[i])))
  }

  class CandidateSampler {
    var lastBucket: string
    var cursors: map<string, Cursor>

    constructor ()
      ensures lastBucket == "" && cursors == map[]
    {
      lastBucket, cursors := "", map[];
    }

    function CursorAt(key: string): Cursor
      reads this
    {
      if key in cursors then cursors[key] else Start
    }

    // nextMatching: moves the cursor over every entry it examines.  A scan that
    // finds nothing leaves the next start where it was; one that picks leaves it
    // just behind the pick.
    method NextMatching(key: string, bucket: seq<Node>, known: set<NodeKey>, selected: set<NodeKey>, knownPhase: bool) returns (r: Option<Node>)
      requires Ordered(bucket)
      modifies this`cursors
      ensures IsNext(bucket, Slots(bucket, known, selected, knownPhase), StartOf(bucket, old(CursorAt(key))), r)
      ensures r == None ==> StartOf(bucket, CursorAt(key)) == StartOf(bucket, old(CursorAt(key)))
      ensures r.Some? ==> CursorAt(key) == CursorOf(r.value) && r.value in bucket && Pickable(r.value, known, selected, knownPhase)
      ensures forall k | k != key :: CursorAt(k) == old(CursorAt(k))
    {
      if |bucket| == 0 { return None; }
      var start := SearchStart(bucket, CursorAt(key));
      r := ScanBucket(key, bucket, known, selected, knownPhase, start);
    }

    method ScanBucket(key: string, bucket: seq<Node>, known: set<NodeKey>, selected: set<NodeKey>, knownPhase: bool, start: nat) returns (r: Option<Node>)
      requires Ordered(bucket) && start < |bucket|
      modifies this`cursors
      ensures IsNext(bucket, Slots(bucket, known, selected, knownPhase), start, r)
      ensures r == None ==> StartOf(bucket, CursorAt(key)) == start
      ensures r.Some? ==> CursorAt(key) == CursorOf(r.value) && r.value in bucket && Pickable(r.value, known, selected, knownPhase)
      ensures forall k | k != key :: CursorAt(k) == old(CursorAt(k))
    {
      hide Rank, Nth, Met;
      ghost var e, n := Slots(bucket, known, selected, knownPhase), |bucket|;
      for i := 0 to |bucket|
        invariant Window(e, n, start, i) == 0
        invariant i > 0 ==> CursorAt(key) == CursorOf(bucket[Behind(start, i, n)])
        invariant forall k | k != key :: CursorAt(k) == old(CursorAt(k))
      {
        WindowStep(e, n, start, i);
        SmallMod(start + i, n);
        var at := Mod(start + i, |bucket|);
        cursors := cursors[key := CursorOf(bucket[at])];
        if Pickable(bucket[at], known, selected, knownPhase) { return Some(bucket[at]); }
      }
      WindowWhole(e, n, start);
      StartsBehind(bucket, Behind(start, n, n));
      r := None;
    }
  }

  // The slot examined last after i steps.
  function Behind(start: nat, i: nat, n: nat): (b: nat)
    requires start < n && 0 < i <= n
    ensures b < n
  {
    if start + i - 1 < n then start + i - 1 else start + i - 1 - n
  }

  // --------------------------------------------------------------- rotation

  // Consecutive picks from one bucket, each scan starting where the last pick
  // left the cursor, each skipping some of the earlier picks.
  ghost predicate Picks(e: nat -> bool, n: nat, starts: seq<nat>, skipped: seq<set<nat>>, picks: seq<nat>) {
    && |starts| == |picks| + 1 && |skipped| == |picks|
    && (forall k | 0 <= k < |starts| :: starts[k] < n)
    && forall k | 0 <= k < |picks| ::
         && (forall i | i in skipped[k] :: i in picks[..k])
         && Pick(e, n, starts[k], skipped[k], picks[k])
         && picks[k] < n && starts[k + 1] == Following(picks[k], n)
  }

  function Following(i: nat, n: nat): nat { if i + 1 == n then 0 else i + 1 }

  function Unskipped(e: nat -> bool, skipped: set<nat>): nat -> bool { (i: nat) => e(i) && i !in skipped }

  ghost predicate Pick(e: nat -> bool, n: nat, start: nat, skipped: set<nat>, pick: nat) {
    var f := Unskipped(e, skipped);
    Rank(f, n) > 0 && pick == Met(f, n, Rank(f, start))
  }

  // How far slot i is from the start of a scan.
  function Gap(start: nat, i: nat, n: nat): nat
    requires start < n && i < n
  {
    if i >= start then i - start else i + n - start
  }

  ghost predicate IsFirst(e: nat -> bool, n: nat, start: nat, i: nat) {
    && start < n && i < n && e(i)
    && forall j | 0 <= j < n && e(j) :: Gap(start, i, n) <= Gap(start, j, n)
  }

  // The slot met from a start is the nearest eligible one.
  lemma MetIsFirst(e: nat -> bool, n: nat, start: nat)
    requires start < n && Rank(e, n) > 0
    ensures IsFirst(e, n, start, Met(e, n, Rank(e, start)))
  {
    var m, r := Rank(e, n), Rank(e, start);
    RankMono(e, start, n);
    SmallMod(r, m);
    var k := if r < m then r else 0;
    var i := Nth(e, n, k);
    NthIs(e, n, k);
    if r < m && i < start { RankMono(e, i, start); }
    forall j: nat | j < n && e(j) ensures Gap(start, i, n) <= Gap(start, j, n) {
      if j < i { RankMono(e, j, i); }
      if j >= start { RankMono(e, start, j); RankMono(e, j, n); }
    }
  }

  lemma FirstUnique(e: nat -> bool, n: nat, start: nat, i: nat, j: nat)
    requires IsFirst(e, n, start, i) && IsFirst(e, n, start, j)
    ensures i == j
  {
    assert Gap(start, i, n) == Gap(start, j, n);
  }

  // The picks so far are the first slots met, and the next scan starts behind.
  ghost predicate Along(e: nat -> bool, n: nat, a: nat, picks: seq<nat>, start: nat) {
    Meets(e, n, a, picks) && StartsAt(e, n, start, a + |picks|)
  }

  // The slot met next is none of the picks while some slot is still unpicked.
  lemma NextIsNew(e: nat -> bool, n: nat, a: nat, picks: seq<nat>, x: nat)
    requires Meets(e, n, a, picks) && |picks| < Rank(e, n) && x == Met(e, n, a + |picks|)
    ensures x !in picks
  {
    forall j | 0 <= j < |picks| ensures picks[j] != x { MetDistinct(e, n, a + j, a + |picks|); }
  }

  lemma NextIsFirst(e: nat -> bool, n: nat, start: nat, x: nat) returns (i: nat)
    requires StartsAt(e, n, start, x) && Rank(e, n) > 0
    ensures i == Met(e, n, x) && IsFirst(e, n, start, i)
  {
    SameMeetings(e, n, Rank(e, start), x, 0);
    MetIsFirst(e, n, start);
    i := Met(e, n, Rank(e, start));
  }

  // Skipping earlier picks makes no difference while some slot is unpicked.
  lemma PickIsNext(e: nat -> bool, n: nat, a: nat, picks: seq<nat>, start: nat, skipped: set<nat>, pick: nat)
    requires Along(e, n, a, picks, start) && |picks| < Rank(e, n)
    requires Pick(e, n, start, skipped, pick) && forall i | i in skipped :: i in picks
    ensures pick == Met(e, n, a + |picks|)
  {
    var x := NextIsFirst(e, n, start, a + |picks|);
    NextIsNew(e, n, a, picks, x);
    var f := Unskipped(e, skipped);
    MetIsFirst(f, n, start);
    FirstUnique(f, n, start, x, pick);
  }

  lemma AlongStep(e: nat -> bool, n: nat, a: nat, picks: seq<nat>, start: nat, pick: nat)
    requires Along(e, n, a, picks, start) && Rank(e, n) > 0 && pick < n && pick == Met(e, n, a + |picks|)
    ensures Along(e, n, a, picks + [pick], Following(pick, n))
  {
    MeetsAppend(e, n, a, picks, pick);
    StartAfter(e, n, a + |picks|, pick);
    SmallMod(pick + 1, n);
  }

  // The first k picks of a sequence.
  lemma {:induction false} PicksMeet(e: nat -> bool, n: nat, starts: seq<nat>, skipped: seq<set<nat>>, picks: seq<nat>, k: nat)
    requires Picks(e, n, starts, skipped, picks) && k <= |picks| <= Rank(e, n) && n > 0
    ensures Along(e, n, Rank(e, starts[0]), picks[..k], starts[k])
  {
    var a := Rank(e, starts[0]);
    if k > 0 {
      PicksMeet(e, n, starts, skipped, picks, k - 1);
      var j: nat := k - 1;
      assert Pick(e, n, starts[j], skipped[j], picks[j]);
      PickIsNext(e, n, a, picks[..j], starts[j], skipped[j], picks[j]);
      AlongStep(e, n, a, picks[..j], starts[j], picks[j]);
      assert picks[..k] == picks[..j] + [picks[j]];
    }
  }

  // With m unseen entries in a bucket, any m consecutive discovery picks from it
  // are distinct, over however many refreshes they are spread.
  lemma DiscoveryRotates(e: nat -> bool, n: nat, starts: seq<nat>, skipped: seq<set<nat>>, picks: seq<nat>, j: nat, k: nat)
    requires Picks(e, n, starts, skipped, picks) && n > 0 && j < k < |picks| <= Rank(e, n)
    ensures picks[j] != picks[k]
  {
    PicksMeet(e, n, starts, skipped, picks, k);
    var i := k;
    assert Pick(e, n, starts[i], skipped[i], picks[i]);
    PickIsNext(e, n, Rank(e, starts[0]), picks[..k], starts[k], skipped[k], picks[k]);
    NextIsNew(e, n, Rank(e, starts[0]), picks[..k], picks[k]);
    assert picks[j] == picks[..k][j];
  }

  // What nextMatching picks in a discovery phase is such a pick, skipping what
  // this refresh has selected.
  function SkippedOf(bucket: seq<Node>, selected: set<NodeKey>): set<nat> {
    set i: nat | i < |bucket| && KeyOf(bucket[i]) in selected
  }

  lemma {:induction false} RankSame(e: nat -> bool, f: nat -> bool, i: nat)
    requires forall j: nat | j < i :: e(j) == f(j)
    ensures Rank(e, i) == Rank(f, i)
  {
    if i > 0 { RankSame(e, f, i - 1); }
  }

  lemma {:induction false} NthSame(e: nat -> bool, f: nat -> bool, n: nat, k: nat)
    requires (forall j: nat | j < n :: e(j) == f(j)) && k < Rank(e, n)
    ensures k < Rank(f, n) && Nth(e, n, k) == Nth(f, n, k)
  {
    RankSame(e, f, n);
    RankSame(e, f, n - 1);
    if !(e(n - 1) && Rank(e, n - 1) == k) { NthSame(e, f, n - 1, k); }
  }

  lemma NextIsPick(bucket: seq<Node>, known: set<NodeKey>, selected: set<NodeKey>, start: nat, i: nat)
    requires start < |bucket| && i < |bucket| && Ordered(bucket)
    requires IsNext(bucket, Slots(bucket, known, selected, false), start, Some(bucket[i]))
    ensures Pick(Slots(bucket, known, {}, false), |bucket|, start, SkippedOf(bucket, selected), i)
  {
    var n := |bucket|;
    var e, f := Slots(bucket, known, selected, false), Unskipped(Slots(bucket, known, {}, false), SkippedOf(bucket, selected));
    forall j: nat | j < n ensures e(j) == f(j) { }
    RankSame(e, f, n);
    RankSame(e, f, start);
    SamePlace(bucket, i, Met(e, n, Rank(e, start)));
    NthSame(e, f, n, Mod(Rank(e, start), Rank(e, n)));
  }

  lemma SamePlace(bucket: seq<Node>, i: nat, j: nat)
    requires Ordered(bucket) && i < |bucket| && j < |bucket| && bucket[i] == bucket[j]
    ensures i == j
  {
    if i < j {
      assert NodeLess(bucket[i], bucket[j]);
      Lexicographic.PairIrreflexive(bucket[i].ip, bucket[i].port);
    } else if j < i {
      assert NodeLess(bucket[j], bucket[i]);
      Lexicographic.PairIrreflexive(bucket[i].ip, bucket[i].port);
    }
  }
}
