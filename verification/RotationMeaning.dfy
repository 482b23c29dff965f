// What the ring scans give their callers (pool.go, candidate_catalog.go): which
// nodes a rotation, a recheck batch or a lease batch may take, and that it takes
// the next ones.
module RotationMeaning {
  import opened Proxies
  import opened Pool
  import opened Circular
  import opened Rotation
  import Leases

  // The first eligible slot from start on, round the ring.
  ghost predicate FirstFrom(e: nat -> bool, n: nat, start: nat, i: nat) {
    && i < n && e(i)
    && if start <= i then forall k: nat | start <= k < i :: !e(k) else forall k: nat | (start <= k < n) || k < i :: !e(k)
  }

  lemma FirstMet(e: nat -> bool, n: nat, start: nat)
    requires start < n && Rank(e, n) > 0
    ensures FirstFrom(e, n, start, Met(e, n, Rank(e, start)))
  {
    hide Rank, Nth, Mod;
    var x, m := Rank(e, start), Rank(e, n);
    RankMono(e, start, n);
    SmallMod(x, m);
    var i := Met(e, n, x);
    NthIs(e, n, Mod(x, m));
    assert Rank(e, i) == if x < m then x else 0;
    if i < start { RankMono(e, i, start); }
    forall k: nat | k < n && e(k) && (start <= k || x == m) ensures !(k < i) && (i < start ==> k < start) {
      RankMono(e, k, n);
      if start <= k { RankMono(e, start, k); }
      if k < i { RankMono(e, k, i); }
    }
  }

  lemma {:induction false} SomeEligible(e: nat -> bool, n: nat)
    ensures Rank(e, n) > 0 <==> exists i: nat | i < n :: e(i)
  {
    if n > 0 {
      SomeEligible(e, n - 1);
      if Rank(e, n - 1) > 0 { var i: nat :| i < n - 1 && e(i); }
    }
  }

  // ---------------------------------------------------------------- rotation

  // A rotation may land on a node that is not retired, invalidated or excluded;
  // the default group on an available one, if any is.
  ghost predicate Lands(s: seq<Proxy>, name: string, i: nat) {
    && i < |s| && !s[i].sourceRetired && !s[i].healthInvalidated && !s[i].policyExcluded
    && ((name == "ANY" || name == "")
        && (exists q | q in s :: !q.sourceRetired && !q.healthInvalidated && !q.policyExcluded && q.available)
        ==> s[i].available)
  }

  // It lands on the next such node behind the sticky one, or on the first of all
  // if the sticky one is gone; and there is one iff any node may be landed on.
  lemma RotationMeans(s: seq<Proxy>, name: string, sticky: Option<Key>)
    requires UniqueKeys(s) && s != []
    ensures var e := Landing(s, OnlyHealthy(s, name));
            && (forall i: nat :: e(i) <==> Lands(s, name, i))
            && (Rank(e, |s|) > 0 <==> exists i: nat :: Lands(s, name, i))
            && (Rank(e, |s|) > 0 ==>
                  var next := RotationTarget(s, OnlyHealthy(s, name), sticky);
                  && (forall j: nat | j < |s| && Some(s[j].key) == sticky :: FirstFrom(e, |s|, if j + 1 == |s| then 0 else j + 1, next))
                  && ((forall px | px in s :: Some(px.key) != sticky) ==> FirstFrom(e, |s|, 0, next)))
  {
    hide Rank, Nth, Met, FirstFrom;
    var e := Landing(s, OnlyHealthy(s, name));
    SomeEligible(e, |s|);
    forall i: nat ensures e(i) <==> Lands(s, name, i) { }
    if Rank(e, |s|) > 0 {
      FirstMet(e, |s|, RotationStart(s, sticky));
      forall j: nat | j < |s| && Some(s[j].key) == sticky ensures RotationStart(s, sticky) == if j + 1 == |s| then 0 else j + 1 {
        LookupAt(s, j);
        SmallMod(j + 1, |s|);
      }
    }
  }

  // ---------------------------------------------------------------- rechecks

  // May be checked automatically: not retired, not failed for good, and not found
  // well within the last day.
  ghost predicate MayBeRechecked(px: Proxy, stats: map<Key, Stats>, now: int) {
    && !px.sourceRetired
    && (px.key in stats ==>
          && !stats[px.key].terminal
          && (stats[px.key].lastHealthSuccessAt.Some? ==> now - stats[px.key].lastHealthSuccessAt.value >= 24 * 60 * 60))
  }

  // A batch takes such nodes only, the next one from the start first, none twice,
  // and all of them if they are fewer than it may take.
  lemma RecheckMeans(s: seq<Proxy>, stats: map<Key, Stats>, now: int, start: nat, limit: nat, batch: seq<nat>)
    requires Batch(Due(s, stats, now), |s|, start, limit, batch)
    ensures |batch| <= limit && forall j | 0 <= j < |batch| :: batch[j] < |s| && MayBeRechecked(s[batch[j]], stats, now)
    ensures forall j, k | 0 <= j < k < |batch| :: batch[j] != batch[k]
    ensures batch != [] ==> FirstFrom(Due(s, stats, now), |s|, start, batch[0])
    ensures |batch| < limit ==> forall i: nat | i < |s| && MayBeRechecked(s[i], stats, now) :: i in batch
  {
    hide Nth, FirstFrom;
    var e := Due(s, stats, now);
    forall i: nat ensures e(i) <==> i < |s| && MayBeRechecked(s[i], stats, now) { }
    BatchTakes(e, |s|, start, limit, batch);
  }

  lemma BatchTakes(e: nat -> bool, n: nat, start: nat, limit: nat, batch: seq<nat>)
    requires Batch(e, n, start, limit, batch)
    ensures |batch| <= limit && forall j | 0 <= j < |batch| :: batch[j] < n && e(batch[j])
    ensures forall j, k | 0 <= j < k < |batch| :: batch[j] != batch[k]
    ensures batch != [] ==> FirstFrom(e, n, start, batch[0])
    ensures |batch| < limit ==> forall i: nat | i < n && e(i) :: i in batch
  {
    hide Rank, Nth, FirstFrom;
    var a := Rank(e, start);
    forall j | 0 <= j < |batch| ensures batch[j] < n && e(batch[j]) { NthIs(e, n, Mod(a + j, Rank(e, n))); }
    forall j, k | 0 <= j < k < |batch| ensures batch[j] != batch[k] { MetDistinct(e, n, a + j, a + k); }
    if batch != [] { FirstMet(e, n, start); }
    if |batch| < limit {
      forall i: nat | i < n && e(i) ensures i in batch {
        NthOfRank(e, n, i);
        var j := MetCovers(e, n, a, Rank(e, n), i);
        assert batch[j] == i;
      }
    }
  }

  // ------------------------------------------------------------------ leases

  // A lease batch: each lease is on a record that is pending, connectable and not
  // leased, and fewer than asked for means all of them.
  lemma LeaseMeans(records: seq<Leases.Offer>, t: Leases.Table, start: nat, limit: nat, picks: seq<nat>, leases: seq<Leases.Lease>)
    requires Batch(Leases.Offers(records, t), |records|, start, limit, picks) && Leases.Matched(records, picks, leases)
    ensures |leases| <= limit
    ensures forall l | l in leases :: exists r | r in records ::
              r.key == l.key && r.fingerprint == l.fingerprint && r.pending && r.connectable && r.key !in t
    ensures |leases| < limit ==> forall r | r in records && r.pending && r.connectable && r.key !in t ::
              exists l | l in leases :: l.key == r.key && l.fingerprint == r.fingerprint
  {
    hide Batch;
    var e := Leases.Offers(records, t);
    BatchTakes(e, |records|, start, limit, picks);
    forall l | l in leases
      ensures exists r | r in records :: r.key == l.key && r.fingerprint == l.fingerprint && r.pending && r.connectable && r.key !in t
    {
      var j :| 0 <= j < |leases| && leases[j] == l;
      assert e(picks[j]) && records[picks[j]] in records;
    }
    if |leases| < limit {
      forall r | r in records && r.pending && r.connectable && r.key !in t
        ensures exists l | l in leases :: l.key == r.key && l.fingerprint == r.fingerprint
      {
        var i :| 0 <= i < |records| && records[i] == r;
        assert e(i);
        var j :| 0 <= j < |picks| && picks[j] == i;
        assert leases[j] in leases;
      }
    }
  }
}
