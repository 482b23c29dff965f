// selectCandidatesWhere (sampler.go): buckets by source and protocol, unseen
// entries first, known ones for the spare slots.
module SamplerSelect {
  import opened Proxies
  import opened Sampler
  import opened SamplerPhase
  import opened Sorting
  import Lexicographic

  // ------------------------------------------------------------- inventory

  ghost predicate DistinctInventory(xs: seq<Node>) {
    && DistinctNodes(xs)
    && forall x | x in xs :: '\0' !in x.protocol
  }

  // A bucket key names one protocol.
  lemma BucketKeyProtocol(a: string, p: string, b: string, q: string)
    requires a + SEPARATOR + p == b + SEPARATOR + q && '\0' !in p && '\0' !in q
    ensures p == q
  {
    var s, t := a + SEPARATOR + p, b + SEPARATOR + q;
    if |p| == |q| {
      assert p == s[|s| - |p|..] && q == t[|t| - |q|..];
    } else if |p| < |q| {
      SeparatorInside(a, p, b, q);
    } else {
      SeparatorInside(b, q, a, p);
    }
  }

  lemma SeparatorInside(a: string, p: string, b: string, q: string)
    requires a + SEPARATOR + p == b + SEPARATOR + q && |p| < |q|
    ensures '\0' in q
  {
    var s := a + SEPARATOR + p;
    assert s[|a|] == '\0' && s[|a|] == q[|a| - |b| - 1];
  }

  // The feed of an entry: blank names and the name "unknown" are one.
  function Feed(x: Node): string { if x.source == "" then "unknown" else x.source }

  // A bucket is one feed's entries of one protocol.
  lemma BucketIsFeed(x: Node, y: Node)
    requires '\0' !in x.protocol && '\0' !in y.protocol
    ensures BucketKey(x) == BucketKey(y) <==> Feed(x) == Feed(y) && x.protocol == y.protocol
  {
    if BucketKey(x) == BucketKey(y) {
      BucketKeyProtocol(Feed(x), x.protocol, Feed(y), y.protocol);
      var s, n := BucketKey(x), |Feed(x)|;
      assert s[..n] == Feed(x) && s[..n] == Feed(y);
    }
  }

  lemma SameBucket(xs: seq<Node>, i: nat, j: nat)
    requires DistinctInventory(xs) && i < j < |xs| && BucketKey(xs[i]) == BucketKey(xs[j])
    ensures NodeLess(xs[i], xs[j]) || NodeLess(xs[j], xs[i])
  {
    var x, y := xs[i], xs[j];
    BucketKeyProtocol(if x.source == "" then UNKNOWN else x.source, x.protocol, if y.source == "" then UNKNOWN else y.source, y.protocol);
    assert KeyOf(x) != KeyOf(y);
    Lexicographic.PairTrichotomy(x.ip, x.port, y.ip, y.port);
  }

  function OrderOfNodes(): (Node, Node) -> bool { (a: Node, b: Node) => NodeLess(a, b) }

  function OrderOfStrings(): (string, string) -> bool { (a: string, b: string) => Lexicographic.Less(a, b) }

  function Eligible(xs: seq<Node>, include_: Node -> bool): seq<Node> {
    if xs == [] then [] else Eligible(xs[..|xs|-1], include_) + if include_(xs[|xs|-1]) then [xs[|xs|-1]] else []
  }

  lemma {:induction false} EligibleAre(xs: seq<Node>, include_: Node -> bool)
    ensures forall x :: x in Eligible(xs, include_) <==> x in xs && include_(x)
  {
    if xs != [] {
      EligibleAre(xs[..|xs|-1], include_);
      assert xs == xs[..|xs|-1] + [xs[|xs|-1]];
    }
  }

  lemma {:induction false} EligibleDistinct(xs: seq<Node>, include_: Node -> bool)
    requires DistinctInventory(xs)
    ensures DistinctInventory(Eligible(xs, include_))
  {
    EligibleAre(xs, include_);
    if xs != [] {
      var front, last := xs[..|xs|-1], xs[|xs|-1];
      EligibleDistinct(front, include_);
      EligibleAre(front, include_);
      var e := Eligible(front, include_);
      forall i | 0 <= i < |e| ensures KeyOf(e[i]) != KeyOf(last) {
        assert e[i] in front;
        var j :| 0 <= j < |front| && front[j] == e[i];
        assert KeyOf(xs[j]) != KeyOf(xs[|xs|-1]);
      }
    }
  }

  // ---------------------------------------------------------------- grouping

  // The entries of one bucket, in inventory order.
  function Part(xs: seq<Node>, key: string): seq<Node> {
    if xs == [] then [] else Part(xs[..|xs|-1], key) + if BucketKey(xs[|xs|-1]) == key then [xs[|xs|-1]] else []
  }

  lemma {:induction false} PartAre(xs: seq<Node>, key: string)
    ensures forall x :: x in Part(xs, key) <==> x in xs && BucketKey(x) == key
  {
    if xs != [] {
      PartAre(xs[..|xs|-1], key);
      assert xs == xs[..|xs|-1] + [xs[|xs|-1]];
    }
  }

  lemma {:induction false} PartOrder(xs: seq<Node>, key: string)
    requires DistinctInventory(xs)
    ensures forall i, j | 0 <= i < j < |Part(xs, key)| :: NodeLess(Part(xs, key)[i], Part(xs, key)[j]) || NodeLess(Part(xs, key)[j], Part(xs, key)[i])
  {
    if xs != [] {
      var front, last := xs[..|xs|-1], xs[|xs|-1];
      PartOrder(front, key);
      PartAre(front, key);
      var p := Part(front, key);
      if BucketKey(last) == key {
        forall i | 0 <= i < |p| ensures NodeLess(p[i], last) || NodeLess(last, p[i]) {
          assert p[i] in front;
          var j :| 0 <= j < |front| && front[j] == p[i];
          SameBucket(xs, j, |xs| - 1);
        }
      }
    }
  }

  lemma SortedPart(xs: seq<Node>, key: string)
    requires DistinctInventory(xs)
    ensures var b := SortBy(OrderOfNodes(), Part(xs, key));
            Ordered(b) && OfBucket(b, key) && forall x :: x in b <==> x in xs && BucketKey(x) == key
  {
    var less, p := OrderOfNodes(), Part(xs, key);
    PartOrder(xs, key);
    PartAre(xs, key);
    forall x: Node, y: Node, z: Node ensures !less(x, x) && (less(x, y) && less(y, z) ==> less(x, z)) {
      Lexicographic.PairIrreflexive(x.ip, x.port);
      if less(x, y) && less(y, z) { Lexicographic.PairTransitive(x.ip, x.port, y.ip, y.port, z.ip, z.port); }
    }
    SortAscending(less, p);
    SameElements(SortBy(less, p), p);
    var b := SortBy(less, p);
    forall i, j | 0 <= i < j < |b| ensures NodeLess(b[i], b[j]) { assert less(b[i], b[j]); }
  }

  // Bucket keys as they first appear.
  ghost predicate KeysOfInventory(xs: seq<Node>, names: seq<string>) {
    && (forall i, j | 0 <= i < j < |names| :: names[i] != names[j])
    && (forall k :: k in names <==> exists x | x in xs :: BucketKey(x) == k)
  }

  method CollectKeys(xs: seq<Node>) returns (names: seq<string>)
    ensures KeysOfInventory(xs, names)
  {
    names := [];
    for i := 0 to |xs|
      invariant KeysOfInventory(xs[..i], names)
    {
      ghost var before := names;
      var key := BucketKey(xs[i]);
      assert forall x :: x in xs[..i + 1] <==> x in xs[..i] || x == xs[i];
      if key !in names { names := names + [key]; }
      forall k ensures k in names <==> exists x | x in xs[..i + 1] :: BucketKey(x) == k {
        if k in before { var x :| x in xs[..i] && BucketKey(x) == k; assert x in xs[..i + 1]; }
        if k == key { assert xs[i] in xs[..i + 1]; }
      }
    }
    assert xs[..|xs|] == xs;
  }

  lemma SortedKeys(names: seq<string>, keys: seq<string>)
    requires keys == SortBy(OrderOfStrings(), names) && forall i, j | 0 <= i < j < |names| :: names[i] != names[j]
    ensures forall i, j | 0 <= i < j < |keys| :: Lexicographic.Less(keys[i], keys[j])
    ensures forall k :: k in keys <==> k in names
  {
    var less := OrderOfStrings();
    forall x: string, y: string, z: string ensures !less(x, x) && (less(x, y) && less(y, z) ==> less(x, z)) {
      Lexicographic.Irreflexive(x);
      if less(x, y) && less(y, z) { Lexicographic.Transitive(x, y, z); }
    }
    forall i, j | 0 <= i < j < |names| ensures less(names[i], names[j]) || less(names[j], names[i]) { Lexicographic.Trichotomy(names[i], names[j]); }
    SortAscending(less, names);
    SameElements(SortBy(less, names), names);
    forall i, j | 0 <= i < j < |keys| ensures Lexicographic.Less(keys[i], keys[j]) { assert less(keys[i], keys[j]); }
  }

  // Buckets in key order, each in cursor order, every entry in its own.
  method BuildBuckets(xs: seq<Node>) returns (keys: seq<string>, buckets: Buckets)
    requires DistinctInventory(xs)
    ensures Inventory(keys, buckets) && forall x :: InSome(buckets, x) <==> x in xs
  {
    var names := CollectKeys(xs);
    keys := SortBy(OrderOfStrings(), names);
    SortedKeys(names, keys);
    buckets := [];
    for i := 0 to |keys|
      invariant |buckets| == i
      invariant forall j | 0 <= j < i :: buckets[j] == SortBy(OrderOfNodes(), Part(xs, keys[j]))
    {
      buckets := buckets + [SortBy(OrderOfNodes(), Part(xs, keys[i]))];
    }
    BucketsAre(xs, names, keys, buckets);
  }

  lemma BucketsAre(xs: seq<Node>, names: seq<string>, keys: seq<string>, buckets: Buckets)
    requires DistinctInventory(xs) && KeysOfInventory(xs, names) && |buckets| == |keys|
    requires forall i, j | 0 <= i < j < |keys| :: Lexicographic.Less(keys[i], keys[j])
    requires forall k :: k in keys <==> k in names
    requires forall j | 0 <= j < |keys| :: buckets[j] == SortBy(OrderOfNodes(), Part(xs, keys[j]))
    ensures Inventory(keys, buckets) && forall x :: InSome(buckets, x) <==> x in xs
  {
    forall j | 0 <= j < |keys|
      ensures Ordered(buckets[j]) && OfBucket(buckets[j], keys[j]) && forall x :: x in buckets[j] <==> x in xs && BucketKey(x) == keys[j]
    {
      SortedPart(xs, keys[j]);
    }
    forall x | x in xs ensures InSome(buckets, x) {
      assert BucketKey(x) in names;
      assert BucketKey(x) in keys;
      var j :| 0 <= j < |keys| && keys[j] == BucketKey(x);
      assert x in buckets[j];
    }
  }

  // ---------------------------------------------------------------- counting

  lemma {:induction false} KeySetSize(xs: seq<Node>)
    requires DistinctNodes(xs)
    ensures |KeySet(xs)| == |xs|
  {
    if xs != [] {
      KeySetSize(xs[..|xs|-1]);
      KeySetStep(xs);
    }
  }

  lemma KeySetStep(xs: seq<Node>)
    requires xs != [] && DistinctNodes(xs)
    ensures var front, k := KeySet(xs[..|xs|-1]), KeyOf(xs[|xs|-1]); k !in front && KeySet(xs) == front + {k}
  {
    var front, last := xs[..|xs|-1], xs[|xs|-1];
    assert xs == front + [last];
    forall x | x in front ensures KeyOf(x) != KeyOf(last) {
      var i :| 0 <= i < |front| && front[i] == x;
      assert KeyOf(xs[i]) != KeyOf(xs[|xs|-1]);
    }
    assert forall x :: x in xs <==> x in front || x == last;
  }

  lemma SubsetSize<T>(a: set<T>, b: set<T>)
    requires a <= b
    ensures |a| <= |b| && (a == b <==> |a| == |b|)
  {
    if |a| == |b| { assert |b - a| == |b| - |a|; }
    assert |b - a| == |b| - |a|;
  }

  // ------------------------------------------------------------ the selection

  function Min(a: nat, b: nat): nat { if a < b then a else b }

  // At most limit distinct entries, as many as there are; a known one only when
  // every unseen one is chosen; and buckets with unseen entries left over were
  // drawn from equally often, give or take one.
  ghost predicate Selection(xs: seq<Node>, known: set<NodeKey>, limit: nat, out: seq<Node>) {
    && DistinctNodes(out) && (forall x | x in out :: x in xs) && |out| == Min(limit, |xs|)
    && (forall x, y | x in out && KeyOf(x) in known && y in xs && KeyOf(y) !in known :: y in out)
    && (forall x, y | LeftOut(xs, known, out, x) && LeftOut(xs, known, out, y) ::
          CountOf(out, BucketKey(x)) <= CountOf(out, BucketKey(y)) + 1)
  }

  ghost predicate LeftOut(xs: seq<Node>, known: set<NodeKey>, out: seq<Node>, x: Node) { x in xs && KeyOf(x) !in known && x !in out }

  // How many of one feed's entries of one protocol were chosen.
  function FeedCount(xs: seq<Node>, feed: string, protocol: string): nat {
    if xs == [] then 0
    else FeedCount(xs[..|xs|-1], feed, protocol) + if Feed(xs[|xs|-1]) == feed && xs[|xs|-1].protocol == protocol then 1 else 0
  }

  lemma {:induction false} CountIsFeed(xs: seq<Node>, x: Node)
    requires '\0' !in x.protocol && forall y | y in xs :: '\0' !in y.protocol
    ensures CountOf(xs, BucketKey(x)) == FeedCount(xs, Feed(x), x.protocol)
  {
    if xs != [] {
      assert xs[|xs|-1] in xs && forall y | y in xs[..|xs|-1] :: y in xs;
      CountIsFeed(xs[..|xs|-1], x);
      BucketIsFeed(xs[|xs|-1], x);
    }
  }

  // No feed starves another: two feeds that both have unseen entries left were
  // drawn from equally often, give or take one.
  ghost predicate FairToFeeds(xs: seq<Node>, known: set<NodeKey>, out: seq<Node>) {
    forall x, y | LeftOut(xs, known, out, x) && LeftOut(xs, known, out, y) ::
      FeedCount(out, Feed(x), x.protocol) <= FeedCount(out, Feed(y), y.protocol) + 1
  }

  lemma SelectionFair(xs: seq<Node>, known: set<NodeKey>, limit: nat, out: seq<Node>)
    requires DistinctInventory(xs) && Selection(xs, known, limit, out)
    ensures FairToFeeds(xs, known, out)
  {
    hide BucketKey, Feed, CountOf;
    forall x, y | LeftOut(xs, known, out, x) && LeftOut(xs, known, out, y)
      ensures FeedCount(out, Feed(x), x.protocol) <= FeedCount(out, Feed(y), y.protocol) + 1
    {
      CountIsFeed(out, x);
      CountIsFeed(out, y);
    }
  }

  // No address and port of one protocol twice, and a known one only when every
  // unseen one is chosen.
  ghost predicate KnownLast(xs: seq<Node>, known: set<NodeKey>, out: seq<Node>) {
    && (forall i, j | 0 <= i < j < |out| :: out[i].protocol != out[j].protocol || out[i].ip != out[j].ip || out[i].port != out[j].port)
    && (forall x, y | x in out && y in xs && y !in out ::
          NodeKey(x.protocol, x.ip, x.port) in known ==> NodeKey(y.protocol, y.ip, y.port) in known)
  }

  lemma SelectionKnownLast(xs: seq<Node>, known: set<NodeKey>, limit: nat, out: seq<Node>)
    requires Selection(xs, known, limit, out)
    ensures KnownLast(xs, known, out)
  {
    forall i, j | 0 <= i < j < |out| ensures out[i].protocol != out[j].protocol || out[i].ip != out[j].ip || out[i].port != out[j].port {
      assert KeyOf(out[i]) != KeyOf(out[j]);
    }
    forall x, y | x in out && y in xs && y !in out && NodeKey(x.protocol, x.ip, x.port) in known
      ensures NodeKey(y.protocol, y.ip, y.port) in known
    {
      assert KeyOf(x) in known;
    }
  }

  lemma KeyPicks(xs: seq<Node>, out: seq<Node>, x: Node)
    requires DistinctNodes(xs) && (forall y | y in out :: y in xs) && x in xs
    ensures KeyOf(x) in KeySet(out) <==> x in out
  {
    if KeyOf(x) in KeySet(out) {
      var y :| y in out && KeyOf(y) == KeyOf(x);
      var i :| 0 <= i < |xs| && xs[i] == x;
      var j :| 0 <= j < |xs| && xs[j] == y;
      assert i == j;
    }
  }

  // When a phase has nothing left, every entry of its kind is chosen.
  lemma ClosedMeansAll(xs: seq<Node>, buckets: Buckets, known: set<NodeKey>, knownPhase: bool, out: seq<Node>, x: Node)
    requires DistinctNodes(xs) && (forall y | y in out :: y in xs) && x in xs && (KeyOf(x) in known) == knownPhase
    requires InSome(buckets, x) && AllClosed(buckets, known, KeySet(out), knownPhase)
    ensures x in out
  {
    KeyPicks(xs, out, x);
    var i :| 0 <= i < |buckets| && x in buckets[i];
    assert !Remaining(buckets[i], known, KeySet(out), knownPhase);
    assert !Pickable(x, known, KeySet(out), knownPhase);
  }

  lemma AllChosen(xs: seq<Node>, out: seq<Node>)
    requires DistinctNodes(xs) && DistinctNodes(out) && (forall x | x in out :: x in xs)
    ensures |out| <= |xs| && ((forall x | x in xs :: x in out) ==> |out| == |xs|)
  {
    KeySetSize(xs);
    KeySetSize(out);
    forall k | k in KeySet(out) ensures k in KeySet(xs) {
      var x :| x in out && KeyOf(x) == k;
      assert x in xs;
    }
    SubsetSize(KeySet(out), KeySet(xs));
    if forall x | x in xs :: x in out {
      forall k | k in KeySet(xs) ensures k in KeySet(out) {
        var x :| x in xs && KeyOf(x) == k;
        assert x in out;
      }
      assert KeySet(xs) == KeySet(out);
    }
  }

  // The picks of both phases come from the inventory.
  lemma PicksFrom(xs: seq<Node>, buckets: Buckets, known: set<NodeKey>, knownPhase: bool, base: seq<Node>, out: seq<Node>)
    requires base <= out && Picked(buckets, known, knownPhase, base, out[|base|..])
    requires (forall x :: InSome(buckets, x) <==> x in xs) && forall x | x in base :: x in xs
    ensures DistinctNodes(out) && forall x | x in out :: x in xs
  {
    assert out == base + out[|base|..];
    forall x | x in out ensures x in xs {
      if x in out[|base|..] { assert InSome(buckets, x); }
    }
  }

  // A phase that picked nothing new leaves the selection as it was.
  lemma TwoPhases(xs: seq<Node>, keys: seq<string>, buckets: Buckets, known: set<NodeKey>, limit: nat, first: seq<Node>, out: seq<Node>)
    requires DistinctNodes(xs) && Inventory(keys, buckets) && (forall x :: InSome(buckets, x) <==> x in xs)
    requires PhaseDone(keys, buckets, known, false, limit, [], first) && PhaseDone(keys, buckets, known, true, limit, first, out)
    ensures Selection(xs, known, limit, out)
  {
    PicksFrom(xs, buckets, known, false, [], first);
    PicksFrom(xs, buckets, known, true, first, out);
    AllChosen(xs, out);
    CountIsRight(xs, buckets, known, limit, first, out, keys);
    UnseenFirst(xs, buckets, known, limit, first, out, keys);
    forall x, y | LeftOut(xs, known, out, x) && LeftOut(xs, known, out, y)
      ensures CountOf(out, BucketKey(x)) <= CountOf(out, BucketKey(y)) + 1
    {
      LeftOutIsFair(xs, keys, buckets, known, limit, first, out, x, y);
    }
  }

  lemma CountIsRight(xs: seq<Node>, buckets: Buckets, known: set<NodeKey>, limit: nat, first: seq<Node>, out: seq<Node>, keys: seq<string>)
    requires DistinctNodes(xs) && (forall x :: InSome(buckets, x) <==> x in xs)
    requires PhaseDone(keys, buckets, known, false, limit, [], first) && PhaseDone(keys, buckets, known, true, limit, first, out)
    requires DistinctNodes(out) && (forall x | x in out :: x in xs) && |out| <= |xs|
    requires DistinctNodes(first) && forall x | x in first :: x in xs
    ensures |out| == Min(limit, |xs|)
  {
    if |out| < limit {
      forall x | x in xs ensures x in out {
        if KeyOf(x) in known {
          ClosedMeansAll(xs, buckets, known, true, out, x);
        } else {
          ClosedMeansAll(xs, buckets, known, false, first, x);
          assert x in first && first <= out;
        }
      }
      AllChosen(xs, out);
    }
  }

  // A known entry is chosen only after discovery ran dry.
  lemma UnseenFirst(xs: seq<Node>, buckets: Buckets, known: set<NodeKey>, limit: nat, first: seq<Node>, out: seq<Node>, keys: seq<string>)
    requires DistinctNodes(xs) && (forall x :: InSome(buckets, x) <==> x in xs)
    requires PhaseDone(keys, buckets, known, false, limit, [], first) && PhaseDone(keys, buckets, known, true, limit, first, out)
    requires forall x | x in first :: x in xs
    ensures forall x, y | x in out && KeyOf(x) in known && y in xs && KeyOf(y) !in known :: y in out
  {
    forall x, y | x in out && KeyOf(x) in known && y in xs && KeyOf(y) !in known ensures y in out {
      assert first[0..] == first;
      assert x !in first;
      assert |first| < |out| <= limit;
      ClosedMeansAll(xs, buckets, known, false, first, y);
      assert y in first && first <= out;
    }
  }

  lemma LeftOutIsFair(xs: seq<Node>, keys: seq<string>, buckets: Buckets, known: set<NodeKey>, limit: nat, first: seq<Node>, out: seq<Node>, x: Node, y: Node)
    requires DistinctNodes(xs) && Inventory(keys, buckets) && (forall z :: InSome(buckets, z) <==> z in xs)
    requires PhaseDone(keys, buckets, known, false, limit, [], first) && PhaseDone(keys, buckets, known, true, limit, first, out)
    requires forall z | z in first :: z in xs
    requires LeftOut(xs, known, out, x) && LeftOut(xs, known, out, y)
    ensures CountOf(out, BucketKey(x)) <= CountOf(out, BucketKey(y)) + 1
  {
    assert first <= out;
    assert x !in first && y !in first;
    if |first| < limit { ClosedMeansAll(xs, buckets, known, false, first, x); }
    assert out == first && first[0..] == first;
    var i := StillOpen(xs, keys, buckets, known, first, x);
    var j := StillOpen(xs, keys, buckets, known, first, y);
    assert Fair(keys, buckets, known, false, first, KeySet(first));
  }

  lemma StillOpen(xs: seq<Node>, keys: seq<string>, buckets: Buckets, known: set<NodeKey>, first: seq<Node>, x: Node) returns (i: nat)
    requires DistinctNodes(xs) && Inventory(keys, buckets) && (forall z :: InSome(buckets, z) <==> z in xs)
    requires (forall z | z in first :: z in xs) && x in xs && x !in first && KeyOf(x) !in known
    ensures i < |keys| && keys[i] == BucketKey(x) && Open(buckets, known, KeySet(first), false, i)
  {
    KeyPicks(xs, first, x);
    assert InSome(buckets, x);
    i :| 0 <= i < |buckets| && x in buckets[i];
    assert Pickable(x, known, KeySet(first), false);
  }

  // pruneCursors: a cursor whose bucket is gone is forgotten.
  method PruneCursors(s: CandidateSampler, keys: seq<string>)
    modifies s`cursors
    ensures forall k | k in keys :: s.CursorAt(k) == old(s.CursorAt(k))
    ensures forall k | k !in keys :: s.CursorAt(k) == Start
  {
    s.cursors := map k | k in s.cursors && k in keys :: s.cursors[k];
  }

  method SelectCandidatesWhere(s: CandidateSampler, candidates: seq<Node>, known: set<NodeKey>, limit: int, include_: Node -> bool) returns (out: seq<Node>)
    requires DistinctInventory(candidates)
    modifies s
    ensures limit <= 0 ==> out == []
    ensures limit > 0 ==> Selection(Eligible(candidates, include_), known, limit, out)
    ensures limit > 0 ==> FairToFeeds(Eligible(candidates, include_), known, out) && KnownLast(Eligible(candidates, include_), known, out)
    ensures limit > 0 ==> forall x | x in out :: include_(x)
  {
    hide FairToFeeds, KnownLast;
    if limit <= 0 { return []; }
    EligibleDistinct(candidates, include_);
    var xs := Eligible(candidates, include_);
    var keys, buckets := BuildBuckets(xs);
    PruneCursors(s, keys);
    var first := SelectPhase(s, keys, buckets, known, [], limit, false);
    assert DistinctNodes(first) by { assert [] + first[0..] == first && first[0..] == first; }
    out := SelectPhase(s, keys, buckets, known, first, limit, true);
    TwoPhases(xs, keys, buckets, known, limit, first, out);
    SelectionFair(xs, known, limit, out);
    SelectionKnownLast(xs, known, limit, out);
    EligibleAre(candidates, include_);
  }
}
