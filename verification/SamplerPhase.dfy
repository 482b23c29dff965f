// The two round-robin phases of the sampler (sampler.go): unseen entries first,
// known ones for the spare slots, every bucket in its turn.
module SamplerPhase {
  import opened Sampler
  import opened Circular
  import opened Proxies
  import Lexicographic

  type Buckets = seq<seq<Node>>

  // Bucket keys in order, one bucket of entries for each.
  ghost predicate Inventory(keys: seq<string>, buckets: Buckets) {
    && |buckets| == |keys|
    && (forall i, j | 0 <= i < j < |keys| :: Lexicographic.Less(keys[i], keys[j]))
    && (forall i | 0 <= i < |buckets| :: Ordered(buckets[i]) && OfBucket(buckets[i], keys[i]))
  }

  ghost predicate OfBucket(bucket: seq<Node>, key: string) { forall x | x in bucket :: BucketKey(x) == key }

  // ------------------------------------------------------- the next bucket

  // firstBucketAfter
  function FirstAfter(keys: seq<string>, last: string): (k: nat)
    ensures k <= |keys|
  {
    if keys == [] || Lexicographic.Less(last, keys[0]) then 0 else 1 + FirstAfter(keys[1..], last)
  }

  function FirstBucketAfter(keys: seq<string>, last: string): (k: nat)
    ensures keys != [] ==> k < |keys|
  {
    if FirstAfter(keys, last) == |keys| then 0 else FirstAfter(keys, last)
  }

  lemma {:induction false} FirstAfterIs(keys: seq<string>, last: string, k: nat)
    requires k <= |keys| && (forall i | 0 <= i < k :: !Lexicographic.Less(last, keys[i])) && (k < |keys| ==> Lexicographic.Less(last, keys[k]))
    ensures FirstAfter(keys, last) == k
  {
    if k > 0 {
      forall i | 0 <= i < k - 1 ensures !Lexicographic.Less(last, keys[1..][i]) { assert keys[1..][i] == keys[i + 1]; }
      assert k < |keys| ==> keys[1..][k - 1] == keys[k];
      FirstAfterIs(keys[1..], last, k - 1);
    }
  }

  // After bucket j comes bucket j + 1, after the last one the first.
  lemma AfterBucket(keys: seq<string>, j: nat)
    requires (forall i, k | 0 <= i < k < |keys| :: Lexicographic.Less(keys[i], keys[k])) && j < |keys|
    ensures FirstBucketAfter(keys, keys[j]) == Following(j, |keys|)
  {
    forall i | 0 <= i <= j ensures !Lexicographic.Less(keys[j], keys[i]) {
      if i == j { Lexicographic.Irreflexive(keys[j]); } else { Lexicographic.Asymmetric(keys[i], keys[j]); }
    }
    FirstAfterIs(keys, keys[j], j + 1);
  }

  ghost predicate KeysBracketed(keys: seq<string>, last: string, lo: nat, hi: nat) {
    && lo <= hi <= |keys|
    && (forall i | 0 <= i < lo :: !Lexicographic.Less(last, keys[i]))
    && (forall i | hi <= i < |keys| :: Lexicographic.Less(last, keys[i]))
  }

  lemma KeysBracketNarrows(keys: seq<string>, last: string, lo: nat, hi: nat, mid: nat)
    requires forall i, j | 0 <= i < j < |keys| :: Lexicographic.Less(keys[i], keys[j])
    requires KeysBracketed(keys, last, lo, hi) && lo <= mid < hi
    ensures if Lexicographic.Less(last, keys[mid]) then KeysBracketed(keys, last, lo, mid) else KeysBracketed(keys, last, mid + 1, hi)
  {
    if Lexicographic.Less(last, keys[mid]) {
      forall i | mid <= i < hi ensures Lexicographic.Less(last, keys[i]) {
        if mid < i { Lexicographic.Transitive(last, keys[mid], keys[i]); }
      }
    } else {
      forall i | lo <= i <= mid ensures !Lexicographic.Less(last, keys[i]) {
        if i < mid && Lexicographic.Less(last, keys[i]) { Lexicographic.Transitive(last, keys[i], keys[mid]); }
      }
    }
  }

  method SearchBucket(keys: seq<string>, last: string) returns (start: nat)
    requires forall i, j | 0 <= i < j < |keys| :: Lexicographic.Less(keys[i], keys[j])
    ensures start == FirstBucketAfter(keys, last)
  {
    var lo: nat, hi: nat := 0, |keys|;
    while lo < hi
      invariant KeysBracketed(keys, last, lo, hi)
    {
      var mid := (lo + hi) / 2;
      KeysBracketNarrows(keys, last, lo, hi, mid);
      if Lexicographic.Less(last, keys[mid]) { hi := mid; } else { lo := mid + 1; }
    }
    FirstAfterIs(keys, last, lo);
    start := if lo == |keys| then 0 else lo;
  }

  // ------------------------------------------------------------ fair rounds

  // Which buckets can still be picked from in this phase.
  ghost predicate Open(buckets: Buckets, known: set<NodeKey>, selected: set<NodeKey>, knownPhase: bool, i: nat) {
    i < |buckets| && Remaining(buckets[i], known, selected, knownPhase)
  }

  // The state of a round-robin: every open bucket has been picked from c times,
  // the ones up to the last pick once more.  Places count from where the phase
  // began; last is 0 before the first pick, else one more than its place.
  ghost predicate FairRound(n: nat, origin: nat, last: nat, c: nat, counts: nat -> nat, open: nat -> bool) {
    && n > 0 && origin < n && last <= n
    && forall i: nat | i < n && open(i) :: counts(i) == c + if Gap(origin, i, n) < last then 1 else 0
  }

  // Any two open buckets differ by at most one.
  lemma FairRoundIsFair(n: nat, origin: nat, last: nat, c: nat, counts: nat -> nat, open: nat -> bool, i: nat, j: nat)
    requires FairRound(n, origin, last, c, counts, open) && i < n && j < n && open(i) && open(j)
    ensures counts(i) <= counts(j) + 1 && counts(j) <= counts(i) + 1
  {
  }

  // The bucket at a place.
  function Place(origin: nat, p: nat, n: nat): (i: nat)
    requires origin < n && p < n
    ensures i < n && Gap(origin, i, n) == p
  {
    if origin + p < n then origin + p else origin + p - n
  }

  // Where the scan for the next bucket stands after some offset.
  function PlaceFrom(last: nat, offset: nat, n: nat): (p: nat)
    requires last <= n && offset < n
    ensures p < n
  {
    if last + offset < n then last + offset else last + offset - n
  }

  // One pick: the first open bucket behind the last one, with its count raised,
  // keeps the round fair whatever buckets close.
  lemma FairStep(n: nat, origin: nat, last: nat, c: nat, counts: nat -> nat, open: nat -> bool,
                 offset: nat, counts': nat -> nat, open': nat -> bool) returns (last': nat, c': nat)
    requires FairRound(n, origin, last, c, counts, open) && offset < n
    requires forall o | 0 <= o < offset :: !open(Place(origin, PlaceFrom(last, o, n), n))
    requires var i := Place(origin, PlaceFrom(last, offset, n), n);
             && open(i) && counts'(i) == counts(i) + 1
             && (forall j: nat | j < n && j != i :: counts'(j) == counts(j))
             && (forall j: nat | j < n && open'(j) :: open(j))
    ensures last' == PlaceFrom(last, offset, n) + 1 && FairRound(n, origin, last', c', counts', open')
  {
    var p := PlaceFrom(last, offset, n);
    var i := Place(origin, p, n);
    last', c' := p + 1, if last + offset < n then c else c + 1;
    forall q: nat | q < n && Passed(last, offset, q, n) ensures !open(Place(origin, q, n)) {
      var o := if q >= last then q - last else q + n - last;
      assert PlaceFrom(last, o, n) == q;
    }
    forall j: nat | j < n && open'(j)
      ensures counts'(j) == c' + if Gap(origin, j, n) < last' then 1 else 0
    {
      assert Place(origin, Gap(origin, j, n), n) == j;
    }
  }

  // The places a scan has gone over before it stops at an offset.
  predicate Passed(last: nat, offset: nat, q: nat, n: nat) {
    if last + offset < n then last <= q < last + offset else q >= last || q < last + offset - n
  }

  // ------------------------------------------------------------- one pick

  function Around(start: nat, offset: nat, n: nat): (i: nat)
    requires start < n && offset < n
    ensures i < n && i == Mod(start + offset, n)
  {
    SmallMod(start + offset, n);
    if start + offset < n then start + offset else start + offset - n
  }

  ghost predicate ExhaustedSound(keys: seq<string>, buckets: Buckets, known: set<NodeKey>, selected: set<NodeKey>, knownPhase: bool, exhausted: set<string>)
    requires |buckets| == |keys|
  {
    forall i | 0 <= i < |keys| && keys[i] in exhausted :: !Remaining(buckets[i], known, selected, knownPhase)
  }

  ghost predicate AllClosed(buckets: Buckets, known: set<NodeKey>, selected: set<NodeKey>, knownPhase: bool) {
    forall i | 0 <= i < |buckets| :: !Remaining(buckets[i], known, selected, knownPhase)
  }

  // The first buckets of a scan had nothing to pick.
  ghost predicate ClosedTo(buckets: Buckets, known: set<NodeKey>, selected: set<NodeKey>, knownPhase: bool, start: nat, offset: nat)
    requires start < |buckets| && offset <= |buckets|
  {
    forall o: nat | o < offset :: !Remaining(buckets[Around(start, o, |buckets|)], known, selected, knownPhase)
  }

  lemma ClosedAll(buckets: Buckets, known: set<NodeKey>, selected: set<NodeKey>, knownPhase: bool, start: nat)
    requires start < |buckets| && ClosedTo(buckets, known, selected, knownPhase, start, |buckets|)
    ensures AllClosed(buckets, known, selected, knownPhase)
  {
    var n := |buckets|;
    forall i | 0 <= i < n ensures !Remaining(buckets[i], known, selected, knownPhase) {
      var o := Gap(start, i, n);
      assert Around(start, o, n) == i;
    }
  }

  // Tries one bucket: an exhausted one is passed over, one without a match is
  // remembered as exhausted.
  method TryBucket(s: CandidateSampler, keys: seq<string>, buckets: Buckets, known: set<NodeKey>, selected: set<NodeKey>, knownPhase: bool,
                   exhausted: set<string>, i: nat) returns (r: Option<Node>, exhausted': set<string>)
    requires Inventory(keys, buckets) && i < |keys| && ExhaustedSound(keys, buckets, known, selected, knownPhase, exhausted)
    modifies s`cursors
    ensures ExhaustedSound(keys, buckets, known, selected, knownPhase, exhausted')
    ensures r == None ==> !Remaining(buckets[i], known, selected, knownPhase)
    ensures r.Some? ==> r.value in buckets[i] && Pickable(r.value, known, selected, knownPhase)
  {
    r, exhausted' := None, exhausted;
    if keys[i] in exhausted { return; }
    r := s.NextMatching(keys[i], buckets[i], known, selected, knownPhase);
    RankOfRemaining(buckets[i], known, selected, knownPhase);
    if r == None {
      exhausted' := exhausted + {keys[i]};
      forall j | 0 <= j < |keys| && keys[j] in exhausted' ensures !Remaining(buckets[j], known, selected, knownPhase) {
        if j < i { Lexicographic.Asymmetric(keys[j], keys[i]); }
        if i < j { Lexicographic.Asymmetric(keys[i], keys[j]); }
      }
    }
  }

  // The scan over the buckets for one slot.
  method PickNext(s: CandidateSampler, keys: seq<string>, buckets: Buckets, known: set<NodeKey>, selected: set<NodeKey>, knownPhase: bool,
                  exhausted: set<string>, start: nat) returns (r: Option<Node>, i: nat, exhausted': set<string>, ghost offset: nat)
    requires Inventory(keys, buckets) && start < |keys| && ExhaustedSound(keys, buckets, known, selected, knownPhase, exhausted)
    modifies s`cursors
    ensures ExhaustedSound(keys, buckets, known, selected, knownPhase, exhausted')
    ensures r == None ==> AllClosed(buckets, known, selected, knownPhase)
    ensures r.Some? ==>
              && offset < |keys| && i == Around(start, offset, |keys|) && ClosedTo(buckets, known, selected, knownPhase, start, offset)
              && r.value in buckets[i] && Pickable(r.value, known, selected, knownPhase)
  {
    r, i, exhausted', offset := None, 0, exhausted, 0;
    for o := 0 to |keys|
      invariant r == None && ExhaustedSound(keys, buckets, known, selected, knownPhase, exhausted')
      invariant ClosedTo(buckets, known, selected, knownPhase, start, o)
    {
      i, offset := Around(start, o, |keys|), o;
      r, exhausted' := TryBucket(s, keys, buckets, known, selected, knownPhase, exhausted', i);
      if r.Some? { return; }
    }
    ClosedAll(buckets, known, selected, knownPhase, start);
  }

  // ------------------------------------------------------------- one phase

  function CountOf(xs: seq<Node>, key: string): nat {
    if xs == [] then 0 else CountOf(xs[..|xs|-1], key) + if BucketKey(xs[|xs|-1]) == key then 1 else 0
  }

  function Counts(xs: seq<Node>, keys: seq<string>): nat -> nat { (i: nat) => if i < |keys| then CountOf(xs, keys[i]) else 0 }

  ghost function OpenSlots(buckets: Buckets, known: set<NodeKey>, selected: set<NodeKey>, knownPhase: bool): nat -> bool {
    (i: nat) => Open(buckets, known, selected, knownPhase, i)
  }

  function KeySet(xs: seq<Node>): set<NodeKey> { set x | x in xs :: KeyOf(x) }

  ghost predicate DistinctNodes(xs: seq<Node>) { forall i, j | 0 <= i < j < |xs| :: KeyOf(xs[i]) != KeyOf(xs[j]) }

  ghost predicate InSome(buckets: Buckets, x: Node) { exists i | 0 <= i < |buckets| :: x in buckets[i] }

  // What the picks of a phase are: entries of the phase, none twice.
  ghost predicate Picked(buckets: Buckets, known: set<NodeKey>, knownPhase: bool, base: seq<Node>, picks: seq<Node>) {
    && DistinctNodes(base + picks)
    && forall x | x in picks :: InSome(buckets, x) && (KeyOf(x) in known) == knownPhase
  }

  lemma PickedStep(buckets: Buckets, known: set<NodeKey>, knownPhase: bool, base: seq<Node>, picks: seq<Node>, i: nat, x: Node)
    requires Picked(buckets, known, knownPhase, base, picks) && i < |buckets| && x in buckets[i]
    requires Pickable(x, known, KeySet(base + picks), knownPhase)
    ensures Picked(buckets, known, knownPhase, base, picks + [x])
    ensures KeySet(base + (picks + [x])) == KeySet(base + picks) + {KeyOf(x)}
  {
    var all := base + picks;
    assert base + (picks + [x]) == all + [x];
    forall j | 0 <= j < |all| ensures KeyOf(all[j]) != KeyOf(x) { assert all[j] in all; }
    assert forall y :: y in all + [x] <==> y in all || y == x;
  }

  // A pick raises the count of its bucket by one and closes no other way.
  lemma CountStep(keys: seq<string>, buckets: Buckets, picks: seq<Node>, i: nat, x: Node)
    requires Inventory(keys, buckets) && i < |keys| && x in buckets[i]
    ensures var a, b := Counts(picks, keys), Counts(picks + [x], keys);
            b(i) == a(i) + 1 && forall j: nat | j < |keys| && j != i :: b(j) == a(j)
  {
    assert (picks + [x])[..|picks|] == picks;
    assert BucketKey(x) == keys[i];
    forall j: nat | j < |keys| && j != i ensures keys[j] != keys[i] {
      if j < i { Lexicographic.Asymmetric(keys[j], keys[i]); } else { Lexicographic.Asymmetric(keys[i], keys[j]); }
    }
  }

  lemma RemainingShrinks(bucket: seq<Node>, known: set<NodeKey>, a: set<NodeKey>, b: set<NodeKey>, knownPhase: bool)
    requires a <= b && Remaining(bucket, known, b, knownPhase)
    ensures Remaining(bucket, known, a, knownPhase)
  {
    var x :| x in bucket && Pickable(x, known, b, knownPhase);
    assert Pickable(x, known, a, knownPhase);
  }

  // Everything the outer loop keeps.
  ghost predicate Phase(keys: seq<string>, buckets: Buckets, known: set<NodeKey>, knownPhase: bool, limit: nat,
                        base: seq<Node>, picks: seq<Node>, exhausted: set<string>, origin: nat, last: nat, c: nat, lastBucket: string) {
    && Inventory(keys, buckets) && keys != [] && |base + picks| <= limit
    && Picked(buckets, known, knownPhase, base, picks)
    && ExhaustedSound(keys, buckets, known, KeySet(base + picks), knownPhase, exhausted)
    && FairRound(|keys|, origin, last, c, Counts(picks, keys), OpenSlots(buckets, known, KeySet(base + picks), knownPhase))
    && FirstBucketAfter(keys, lastBucket) == Place(origin, PlaceFrom(last, 0, |keys|), |keys|)
  }

  lemma ExhaustedGrows(keys: seq<string>, buckets: Buckets, known: set<NodeKey>, a: set<NodeKey>, b: set<NodeKey>, knownPhase: bool, exhausted: set<string>)
    requires |buckets| == |keys| && a <= b && ExhaustedSound(keys, buckets, known, a, knownPhase, exhausted)
    ensures ExhaustedSound(keys, buckets, known, b, knownPhase, exhausted)
  {
    forall i | 0 <= i < |keys| && keys[i] in exhausted ensures !Remaining(buckets[i], known, b, knownPhase) {
      if Remaining(buckets[i], known, b, knownPhase) { RemainingShrinks(buckets[i], known, a, b, knownPhase); }
    }
  }

  lemma PlacesAgree(origin: nat, last: nat, offset: nat, n: nat)
    requires n > 0 && origin < n && last <= n && offset < n
    ensures Around(Place(origin, PlaceFrom(last, 0, n), n), offset, n) == Place(origin, PlaceFrom(last, offset, n), n)
  {
  }

  lemma FollowingPlace(origin: nat, p: nat, n: nat)
    requires origin < n && p < n
    ensures Following(Place(origin, p, n), n) == Place(origin, PlaceFrom(p + 1, 0, n), n)
  {
  }

  // One round of the outer loop.
  lemma PhaseStep(keys: seq<string>, buckets: Buckets, known: set<NodeKey>, knownPhase: bool, limit: nat,
                  base: seq<Node>, picks: seq<Node>, before: set<string>, origin: nat, last: nat, c: nat, lastBucket: string,
                  exhausted: set<string>, offset: nat, i: nat, x: Node) returns (last': nat, c': nat)
    requires Phase(keys, buckets, known, knownPhase, limit, base, picks, before, origin, last, c, lastBucket) && |base + picks| < limit
    requires var start := FirstBucketAfter(keys, lastBucket); var selected := KeySet(base + picks);
             && ExhaustedSound(keys, buckets, known, selected, knownPhase, exhausted)
             && offset < |keys| && i == Around(start, offset, |keys|) && ClosedTo(buckets, known, selected, knownPhase, start, offset)
             && x in buckets[i] && Pickable(x, known, selected, knownPhase)
    ensures Phase(keys, buckets, known, knownPhase, limit, base, picks + [x], exhausted, origin, last', c', keys[i])
    ensures KeySet(base + (picks + [x])) == KeySet(base + picks) + {KeyOf(x)}
  {
    var n, selected := |keys|, KeySet(base + picks);
    var selected' := KeySet(base + (picks + [x]));
    PickedStep(buckets, known, knownPhase, base, picks, i, x);
    ExhaustedGrows(keys, buckets, known, selected, selected', knownPhase, exhausted);
    CountStep(keys, buckets, picks, i, x);
    var open, open' := OpenSlots(buckets, known, selected, knownPhase), OpenSlots(buckets, known, selected', knownPhase);
    forall o: nat | o < offset ensures !open(Place(origin, PlaceFrom(last, o, n), n)) { PlacesAgree(origin, last, o, n); }
    PlacesAgree(origin, last, offset, n);
    assert Remaining(buckets[i], known, selected, knownPhase);
    forall j: nat | j < n && open'(j) ensures open(j) { RemainingShrinks(buckets[j], known, selected, selected', knownPhase); }
    last', c' := FairStep(n, origin, last, c, Counts(picks, keys), open, offset, Counts(picks + [x], keys), open');
    AfterBucket(keys, i);
    FollowingPlace(origin, PlaceFrom(last, offset, n), n);
  }

  // What a phase leaves behind: it stops at the limit or with nothing left to
  // pick, its picks are entries of the phase, none twice, and any two buckets
  // that still have some were picked from equally often, give or take one.
  ghost predicate PhaseDone(keys: seq<string>, buckets: Buckets, known: set<NodeKey>, knownPhase: bool, limit: nat, base: seq<Node>, out: seq<Node>) {
    && base <= out && Picked(buckets, known, knownPhase, base, out[|base|..])
    && (|out| == limit || (|out| < limit && |buckets| == |keys| && AllClosed(buckets, known, KeySet(out), knownPhase)))
    && Fair(keys, buckets, known, knownPhase, out[|base|..], KeySet(out))
  }

  ghost predicate Fair(keys: seq<string>, buckets: Buckets, known: set<NodeKey>, knownPhase: bool, picks: seq<Node>, selected: set<NodeKey>) {
    forall i, j | 0 <= i < |keys| && 0 <= j < |keys|
        && Open(buckets, known, selected, knownPhase, i) && Open(buckets, known, selected, knownPhase, j) ::
      CountOf(picks, keys[i]) <= CountOf(picks, keys[j]) + 1
  }

  lemma PhaseEnds(keys: seq<string>, buckets: Buckets, known: set<NodeKey>, knownPhase: bool, limit: nat,
                  base: seq<Node>, picks: seq<Node>, exhausted: set<string>, origin: nat, last: nat, c: nat, lastBucket: string)
    requires Phase(keys, buckets, known, knownPhase, limit, base, picks, exhausted, origin, last, c, lastBucket)
    requires |base + picks| == limit || AllClosed(buckets, known, KeySet(base + picks), knownPhase)
    ensures PhaseDone(keys, buckets, known, knownPhase, limit, base, base + picks)
  {
    var out := base + picks;
    assert out[|base|..] == picks;
    var open := OpenSlots(buckets, known, KeySet(out), knownPhase);
    forall i: nat, j: nat | i < |keys| && j < |keys| && open(i) && open(j)
      ensures CountOf(picks, keys[i]) <= CountOf(picks, keys[j]) + 1
    {
      FairRoundIsFair(|keys|, origin, last, c, Counts(picks, keys), open, i, j);
      assert Counts(picks, keys)(i) == CountOf(picks, keys[i]) && Counts(picks, keys)(j) == CountOf(picks, keys[j]);
    }
  }

  // selectPhase
  method SelectPhase(s: CandidateSampler, keys: seq<string>, buckets: Buckets, known: set<NodeKey>, base: seq<Node>, limit: nat, knownPhase: bool)
    returns (out: seq<Node>)
    requires Inventory(keys, buckets) && |base| <= limit && DistinctNodes(base)
    modifies s
    ensures PhaseDone(keys, buckets, known, knownPhase, limit, base, out)
  {
    out := base;
    if |keys| == 0 {
      NoBuckets(keys, buckets, known, knownPhase, limit, base);
      return;
    }
    out := FillPhase(s, keys, buckets, known, base, limit, knownPhase);
  }

  lemma NoBuckets(keys: seq<string>, buckets: Buckets, known: set<NodeKey>, knownPhase: bool, limit: nat, base: seq<Node>)
    requires Inventory(keys, buckets) && keys == [] && |base| <= limit && DistinctNodes(base)
    ensures PhaseDone(keys, buckets, known, knownPhase, limit, base, base)
  {
    assert base + base[|base|..] == base;
  }

  method FillPhase(s: CandidateSampler, keys: seq<string>, buckets: Buckets, known: set<NodeKey>, base: seq<Node>, limit: nat, knownPhase: bool)
    returns (out: seq<Node>)
    requires Inventory(keys, buckets) && keys != [] && |base| <= limit && DistinctNodes(base)
    modifies s
    ensures PhaseDone(keys, buckets, known, knownPhase, limit, base, out)
  {
    ghost var origin := FirstBucketAfter(keys, s.lastBucket);
    ghost var picks: seq<Node> := [];
    ghost var last, c := 0, 0;
    var exhausted: set<string> := {};
    var selected := KeySet(base);
    out := base;
    PhaseBegins(keys, buckets, known, knownPhase, limit, base, s.lastBucket);
    while |out| < limit
      invariant out == base + picks && selected == KeySet(out)
      invariant Phase(keys, buckets, known, knownPhase, limit, base, picks, exhausted, origin, last, c, s.lastBucket)
      decreases limit - |out|
    {
      ghost var before := exhausted;
      var start := SearchBucket(keys, s.lastBucket);
      var r, i; ghost var offset;
      r, i, exhausted, offset := PickNext(s, keys, buckets, known, selected, knownPhase, exhausted, start);
      if r == None {
        PhaseStops(keys, buckets, known, knownPhase, limit, base, picks, before, exhausted, origin, last, c, s.lastBucket);
        PhaseEnds(keys, buckets, known, knownPhase, limit, base, picks, exhausted, origin, last, c, s.lastBucket);
        return;
      }
      last, c := PhaseStep(keys, buckets, known, knownPhase, limit, base, picks, before, origin, last, c, s.lastBucket, exhausted, offset, i, r.value);
      out, picks := out + [r.value], picks + [r.value];
      selected := selected + {KeyOf(r.value)};
      s.lastBucket := keys[i];
      assert out == base + picks;
    }
    PhaseEnds(keys, buckets, known, knownPhase, limit, base, picks, exhausted, origin, last, c, s.lastBucket);
  }

  lemma PhaseBegins(keys: seq<string>, buckets: Buckets, known: set<NodeKey>, knownPhase: bool, limit: nat, base: seq<Node>, lastBucket: string)
    requires Inventory(keys, buckets) && keys != [] && |base| <= limit && DistinctNodes(base)
    ensures base + [] == base
    ensures Phase(keys, buckets, known, knownPhase, limit, base, [], {}, FirstBucketAfter(keys, lastBucket), 0, 0, lastBucket)
  {
    assert base + [] == base;
  }

  lemma PhaseStops(keys: seq<string>, buckets: Buckets, known: set<NodeKey>, knownPhase: bool, limit: nat, base: seq<Node>, picks: seq<Node>,
                   before: set<string>, exhausted: set<string>, origin: nat, last: nat, c: nat, lastBucket: string)
    requires Phase(keys, buckets, known, knownPhase, limit, base, picks, before, origin, last, c, lastBucket)
    requires ExhaustedSound(keys, buckets, known, KeySet(base + picks), knownPhase, exhausted)
    ensures Phase(keys, buckets, known, knownPhase, limit, base, picks, exhausted, origin, last, c, lastBucket)
  {
  }
}
