// Leases over the candidate catalog (candidate_catalog.go).  A lease reserves a
// key for one asynchronous check; its token decides who may release it.
module Leases {
  import opened Circular
  import Rotation
  import opened Proxies

  // A catalog record as the lease code sees it: its key, whether it is pending
  // (deferred, not a resource, not owned by the pool), whether it converts to a
  // connectable node, and the fingerprint of its declaration.
  datatype Offer = Offer(key: Key, pending: bool, connectable: bool, fingerprint: string)

  datatype LeaseState = LeaseState(token: nat, fingerprint: string)

  datatype Kind = Candidate | FailedKind

  datatype Lease = Lease(token: nat, key: Key, kind: Kind, fingerprint: string)

  type Table = map<Key, LeaseState>

  ghost predicate Holds(t: Table, l: Lease) { l.key in t && t[l.key] == LeaseState(l.token, l.fingerprint) }

  // Tokens in use were handed out before, each to one key.
  ghost predicate TableOk(t: Table, next: nat) {
    && (forall k | k in t :: 0 < t[k].token <= next)
    && (forall j, k | j in t && k in t && t[j].token == t[k].token :: j == k)
  }

  predicate Leasable(o: Offer, t: Table) { o.pending && o.key !in t && o.connectable }

  function Offers(records: seq<Offer>, t: Table): nat -> bool {
    (i: nat) => i < |records| && Leasable(records[i], t)
  }

  ghost predicate DistinctKeys(records: seq<Offer>) {
    forall i, j | 0 <= i < j < |records| :: records[i].key != records[j].key
  }

  function KeysOf(issued: seq<Lease>): set<Key> { set l | l in issued :: l.key }

  ghost predicate DistinctLeases(issued: seq<Lease>) { forall i, j | 0 <= i < j < |issued| :: issued[i].key != issued[j].key }

  // What issuing leases does to their table.
  ghost predicate Grown(before: Table, after: Table, issued: seq<Lease>) {
    && (forall k | k in before :: k in after && after[k] == before[k])
    && (forall l | l in issued :: Holds(after, l) && l.key !in before)
    && after.Keys == before.Keys + KeysOf(issued)
    && DistinctLeases(issued)
  }

  function Leasables(keys: seq<Key>, records: map<Key, Offer>, t: Table): set<Key> {
    set k | k in keys && k in records && Leasable(records[k], t)
  }

  // The leases were issued between two values of the token counter, one after
  // the other.
  ghost predicate Issued(from: nat, to: nat, kind: Kind, leases: seq<Lease>) {
    && from <= to
    && (forall l | l in leases :: from < l.token <= to && l.kind == kind)
    && forall i, j | 0 <= i < j < |leases| :: leases[i].token < leases[j].token
  }

  // The cursor stays put if nothing was leased, else it moves behind the last pick.
  ghost predicate CursorBehind(before: nat, picks: seq<nat>, n: nat, after: nat)
    requires n > 0
  {
    after == if picks == [] then before else if picks[|picks|-1] + 1 == n then 0 else picks[|picks|-1] + 1
  }

  // The j-th lease is for the j-th picked record.
  ghost predicate Matched(records: seq<Offer>, picks: seq<nat>, leases: seq<Lease>) {
    && |leases| == |picks|
    && forall j | 0 <= j < |picks| ::
         picks[j] < |records| && leases[j].key == records[picks[j]].key && leases[j].fingerprint == records[picks[j]].fingerprint
  }

  class LeaseTable {
    var nextToken: nat
    var pending: Table
    var failed: Table
    var cursor: nat

    ghost predicate Valid()
      reads this
    {
      && TableOk(pending, nextToken)
      && TableOk(failed, nextToken)
    }

    ghost function Now(): Tables
      reads this
    {
      Tables(nextToken, pending, failed)
    }

    constructor ()
      ensures Valid() && Now() == Tables(0, map[], map[])
    {
      nextToken, pending, failed, cursor := 0, map[], map[], 0;
    }

    // newLeaseLocked, into the table of pending leases.
    method NewPendingLease(o: Offer) returns (l: Lease)
      requires Valid() && o.key !in pending
      modifies this`nextToken, this`pending
      ensures Valid() && l == Lease(nextToken, o.key, Candidate, o.fingerprint)
      ensures nextToken == old(nextToken) + 1
      ensures pending == old(pending)[o.key := LeaseState(l.token, l.fingerprint)]
    {
      nextToken := nextToken + 1;
      pending := pending[o.key := LeaseState(nextToken, o.fingerprint)];
      l := Lease(nextToken, o.key, Candidate, o.fingerprint);
    }

    // LeasePending: at most limit unleased pending records, from the cursor on.
    method LeasePending(records: seq<Offer>, limit: int) returns (leases: seq<Lease>, ghost picks: seq<nat>)
      requires Valid() && DistinctKeys(records)
      modifies this`nextToken, this`pending, this`cursor
      ensures Valid() && Stepped(old(Now()), Issue(Candidate, leases), Now())
      ensures limit <= 0 || records == [] ==> leases == [] && cursor == old(cursor)
      ensures limit > 0 && records != [] ==>
                var e := Offers(records, old(pending));
                var start := Mod(old(cursor), |records|);
                && start < |records|
                && Rotation.Batch(e, |records|, start, limit, picks)
                && Matched(records, picks, leases)
                && CursorBehind(old(cursor), picks, |records|, cursor)
    {
      leases, picks := [], [];
      if limit <= 0 || records == [] { return; }
      var start := Mod(cursor, |records|);
      ghost var before, from, base, w := pending, cursor, nextToken, 0;
      NothingScanned(records, before, start);
      leases, picks, w := ScanPending(records, limit, start, before, from, base);
      BatchScanned(Offers(records, before), |records|, start, w, limit, picks);
    }

    // What a scan of the first w slots from start has leased.
    ghost predicate Scanned(records: seq<Offer>, before: Table, from: nat, base: nat, start: nat, w: nat, leases: seq<Lease>, picks: seq<nat>)
      reads this
      requires start < |records| && w <= |records|
    {
      var e, n := Offers(records, before), |records|;
      && Valid()
      && Issued(base, nextToken, Candidate, leases)
      && |picks| == Window(e, n, start, w) <= Rank(e, n)
      && Rotation.Meets(e, n, Rank(e, start), picks)
      && Grown(before, pending, leases)
      && Matched(records, picks, leases)
      && CursorBehind(from, picks, n, cursor)
    }

    method ScanPending(records: seq<Offer>, limit: nat, start: nat, ghost before: Table, ghost from: nat, ghost base: nat)
      returns (leases: seq<Lease>, ghost picks: seq<nat>, ghost w: nat)
      requires DistinctKeys(records) && start < |records| && Scanned(records, before, from, base, start, 0, [], [])
      modifies this`nextToken, this`pending, this`cursor
      ensures w <= |records| && Scanned(records, before, from, base, start, w, leases, picks)
      ensures |leases| <= limit && (w == |records| || |leases| == limit)
    {
      hide *;
      leases, picks := [], [];
      var scanned := 0;
      while scanned < |records| && |leases| < limit
        invariant scanned <= |records| && |leases| <= limit
        invariant Scanned(records, before, from, base, start, scanned, leases, picks)
      {
        leases, picks := ScanSlot(records, start, scanned, before, from, base, leases, picks);
        scanned := scanned + 1;
      }
      w := scanned;
    }

    static lemma NothingScanned(records: seq<Offer>, t: Table, start: nat)
      requires start < |records|
      ensures Window(Offers(records, t), |records|, start, 0) == 0
      ensures Grown(t, t, []) && Matched(records, [], [])
    {
    }

    static lemma BatchScanned(e: nat -> bool, n: nat, start: nat, w: nat, limit: nat, picks: seq<nat>)
      requires start < n && w <= n && |picks| == Window(e, n, start, w) <= Rank(e, n) && |picks| <= limit
      requires w == n || |picks| == limit
      requires Rotation.Meets(e, n, Rank(e, start), picks)
      ensures Rotation.Batch(e, n, start, limit, picks)
    {
      WindowWhole(e, n, start);
    }

    method ScanSlot(records: seq<Offer>, start: nat, scanned: nat, ghost before: Table, ghost from: nat, ghost base: nat,
                    leases: seq<Lease>, ghost picks: seq<nat>)
      returns (leases': seq<Lease>, ghost picks': seq<nat>)
      requires start < |records| && scanned < |records| && DistinctKeys(records)
      requires Scanned(records, before, from, base, start, scanned, leases, picks)
      modifies this`nextToken, this`pending, this`cursor
      ensures Scanned(records, before, from, base, start, scanned + 1, leases', picks')
      ensures |leases'| <= |leases| + 1
    {
      hide Rank, Window, Met, Mod, Grown, Rotation.Meets, Offers, TableOk;
      ghost var e, n := Offers(records, before), |records|;
      var index := Mod(start + scanned, |records|);
      WindowStep(e, n, start, scanned);
      WindowLimit(e, n, start, scanned + 1);
      leases', picks' := LeaseSlot(records, index, before, from, base, Rank(e, start), leases, picks);
    }

    // One slot of the scan.
    method LeaseSlot(records: seq<Offer>, i: nat, ghost before: Table, ghost from: nat, ghost base: nat, ghost a: nat,
                     leases: seq<Lease>, ghost picks: seq<nat>)
      returns (leases': seq<Lease>, ghost picks': seq<nat>)
      requires Valid() && DistinctKeys(records) && i < |records|
      requires Grown(before, pending, leases) && Matched(records, picks, leases)
      requires Rotation.Meets(Offers(records, before), |records|, a, picks)
      requires Offers(records, before)(i) ==>
                 |picks| < Rank(Offers(records, before), |records|) && i == Met(Offers(records, before), |records|, a + |picks|)
      requires CursorBehind(from, picks, |records|, cursor) && Issued(base, nextToken, Candidate, leases)
      modifies this`nextToken, this`pending, this`cursor
      ensures Valid() && Grown(before, pending, leases') && Matched(records, picks', leases')
      ensures Rotation.Meets(Offers(records, before), |records|, a, picks')
      ensures picks' == if Offers(records, before)(i) then picks + [i] else picks
      ensures CursorBehind(from, picks', |records|, cursor) && Issued(base, nextToken, Candidate, leases')
    {
      hide Rank, Met, Mod, Grown, Rotation.Meets, DistinctKeys;
      leases', picks' := leases, picks;
      if Offers(records, before)(i) { NotPicked(Offers(records, before), |records|, a, picks, i); }
      KeyNotLeased(records, before, pending, leases, picks, i);
      if Leasable(records[i], pending) {
        ghost var prior := pending;
        var l := NewPendingLease(records[i]);
        GrownAppend(before, prior, leases, l, pending);
        Rotation.MeetsAppend(Offers(records, before), |records|, a, picks, i);
        leases', picks' := leases + [l], picks + [i];
        cursor := Mod(i + 1, |records|);
        SmallMod(i + 1, |records|);
      }
    }

    static lemma WindowLimit(e: nat -> bool, n: nat, start: nat, w: nat)
      requires start < n && w <= n
      ensures Window(e, n, start, w) <= Rank(e, n)
    {
      if start + w <= n { RankMono(e, start + w, n); } else { RankMono(e, start + w - n, start); }
    }

    // The slot under the scan was not picked before, so it is leasable now iff
    // it was when the scan began.
    static lemma NotPicked(e: nat -> bool, n: nat, a: nat, picks: seq<nat>, i: nat)
      requires Rotation.Meets(e, n, a, picks) && |picks| < Rank(e, n) && i == Met(e, n, a + |picks|)
      ensures i !in picks
    {
      forall j | 0 <= j < |picks| ensures picks[j] != i { MetDistinct(e, n, a + j, a + |picks|); }
    }

    static lemma KeyNotLeased(records: seq<Offer>, before: Table, now: Table, leases: seq<Lease>, picks: seq<nat>, i: nat)
      requires DistinctKeys(records) && i < |records| && Grown(before, now, leases) && Matched(records, picks, leases)
      requires Leasable(records[i], before) ==> i !in picks
      ensures Leasable(records[i], now) <==> Leasable(records[i], before)
    {
      if records[i].key in now && records[i].key !in before {
        assert records[i].key in KeysOf(leases);
        var l :| l in leases && l.key == records[i].key;
        var j :| 0 <= j < |leases| && leases[j] == l;
        assert picks[j] in picks && records[picks[j]].key == records[i].key;
      }
    }

    static lemma GrownAppend(before: Table, prior: Table, leases: seq<Lease>, l: Lease, now: Table)
      requires Grown(before, prior, leases) && l.key !in prior
      requires now == prior[l.key := LeaseState(l.token, l.fingerprint)]
      ensures Grown(before, now, leases + [l])
    {
      var longer := leases + [l];
      assert longer[|leases|] == l && l in longer;
      assert forall x | x in leases :: x in longer && x.key in prior;
      forall i, j | 0 <= i < j < |longer| ensures longer[i].key != longer[j].key {
        if j == |leases| { assert longer[i] in leases; }
      }
    }

    // LeasePendingKeys: the named records that are pending, connectable and not
    // leased, each under a new token.
    method LeasePendingKeys(keys: seq<Key>, records: map<Key, Offer>) returns (leases: seq<Lease>)
      requires Valid() && forall k | k in records :: records[k].key == k
      modifies this`nextToken, this`pending
      ensures Valid() && Stepped(old(Now()), Issue(Candidate, leases), Now())
      ensures forall k :: k in KeysOf(leases)
                <==> k in keys && k in records && records[k].pending && records[k].connectable && k !in old(pending)
      ensures forall l | l in leases :: l.fingerprint == records[l.key].fingerprint
    {
      hide Grown, Issued, Leasable;
      NothingIssued(pending, nextToken, Candidate);
      assert Leasables(keys[..0], records, pending) == {};
      leases := [];
      for i := 0 to |keys|
        invariant Gathered(old(pending), old(nextToken), Candidate, leases)
        invariant KeysOf(leases) == Leasables(keys[..i], records, old(pending))
        invariant forall l | l in leases :: l.key in records && l.fingerprint == records[l.key].fingerprint
      {
        LeasablesPush(keys, i, records, old(pending));
        leases := LeaseIfPending(keys[i], records, old(pending), old(nextToken), leases);
      }
      assert keys[..|keys|] == keys;
      LeasablesAre(keys, records, old(pending));
    }

    // Leases gathered so far, in the table of their kind.
    ghost predicate Gathered(before: Table, base: nat, kind: Kind, leases: seq<Lease>)
      reads this
    {
      Valid() && Grown(before, TableOf(Now(), kind), leases) && Issued(base, nextToken, kind, leases)
    }

    static lemma NothingIssued(t: Table, next: nat, kind: Kind)
      ensures Grown(t, t, []) && Issued(next, next, kind, []) && KeysOf([]) == {}
    {
    }

    static lemma LeasablesAre(keys: seq<Key>, records: map<Key, Offer>, t: Table)
      requires forall k | k in records :: records[k].key == k
      ensures forall k :: k in Leasables(keys, records, t) <==> k in keys && k in records && records[k].pending && records[k].connectable && k !in t
    {
    }

    static lemma LeasablesPush(keys: seq<Key>, i: nat, records: map<Key, Offer>, t: Table)
      requires i < |keys|
      ensures Leasables(keys[..i + 1], records, t)
              == Leasables(keys[..i], records, t) + if keys[i] in records && Leasable(records[keys[i]], t) then {keys[i]} else {}
    {
      assert keys[..i + 1] == keys[..i] + [keys[i]];
    }

    method LeaseIfPending(key: Key, records: map<Key, Offer>, ghost before: Table, ghost base: nat, leases: seq<Lease>) returns (more: seq<Lease>)
      requires Gathered(before, base, Candidate, leases) && forall k | k in records :: records[k].key == k
      modifies this`nextToken, this`pending
      ensures Gathered(before, base, Candidate, more)
      ensures KeysOf(more) == KeysOf(leases) + if key in records && Leasable(records[key], before) then {key} else {}
      ensures forall l | l in more :: l in leases || (l.key == key && key in records && l.fingerprint == records[key].fingerprint)
    {
      hide Grown, Issued, TableOk;
      more := leases;
      GrownKeys(before, pending, leases);
      if key !in pending && key in records && records[key].pending && records[key].connectable {
        ghost var prior, from := pending, nextToken;
        var l := NewPendingLease(records[key]);
        GrownAppend(before, prior, leases, l, pending);
        IssuedPush(base, from, Candidate, leases, l);
        KeysPush(leases, l);
        more := leases + [l];
      }
    }

    static lemma GrownKeys(before: Table, after: Table, leases: seq<Lease>)
      requires Grown(before, after, leases)
      ensures after.Keys == before.Keys + KeysOf(leases)
    {
    }

    static lemma TableOkPush(t: Table, next: nat, key: Key, declared: string)
      requires TableOk(t, next)
      ensures TableOk(t[key := LeaseState(next + 1, declared)], next + 1)
    {
    }

    static lemma TableOkLater(t: Table, next: nat)
      requires TableOk(t, next)
      ensures TableOk(t, next + 1)
    {
    }

    static lemma IssuedPush(base: nat, from: nat, kind: Kind, leases: seq<Lease>, l: Lease)
      requires Issued(base, from, kind, leases) && l.token == from + 1 && l.kind == kind
      ensures Issued(base, from + 1, kind, leases + [l])
    {
      assert forall i | 0 <= i < |leases| :: leases[i] in leases;
    }

    // LeaseFailed: every named failure is there and not leased, and all are
    // leased, or nothing is and the others are reported.
    method LeaseFailed(keys: seq<Key>, failures: map<Key, string>) returns (leases: seq<Lease>, missing: seq<Key>)
      requires Valid()
      modifies this`nextToken, this`failed
      ensures Valid() && Stepped(old(Now()), Issue(FailedKind, leases), Now())
      ensures forall k :: k in missing <==> k in keys && (k in old(failed) || k !in failures)
      ensures missing != [] ==> leases == []
      ensures missing == [] ==> KeysOf(leases) == (set k | k in keys) && forall l | l in leases :: l.fingerprint == failures[l.key]
    {
      hide Grown, Issued, TableOk;
      leases, missing := [], [];
      for i := 0 to |keys|
        invariant forall k :: k in missing <==> k in keys[..i] && (k in failed || k !in failures)
      {
        assert keys[..i + 1] == keys[..i] + [keys[i]];
        if keys[i] !in missing && (keys[i] in failed || keys[i] !in failures) { missing := missing + [keys[i]]; }
      }
      assert keys[..|keys|] == keys;
      NothingIssued(failed, nextToken, FailedKind);
      if missing == [] { leases := LeaseEach(keys, failures); }
    }

    method LeaseEach(keys: seq<Key>, failures: map<Key, string>) returns (leases: seq<Lease>)
      requires Valid() && forall k | k in keys :: k in failures && k !in failed
      modifies this`nextToken, this`failed
      ensures Gathered(old(failed), old(nextToken), FailedKind, leases)
      ensures KeysOf(leases) == (set k | k in keys) && forall l | l in leases :: l.fingerprint == failures[l.key]
    {
      hide Grown, Issued, TableOk;
      NothingIssued(failed, nextToken, FailedKind);
      leases := [];
      for i := 0 to |keys|
        invariant Gathered(old(failed), old(nextToken), FailedKind, leases)
        invariant KeysOf(leases) == set k | k in keys[..i]
        invariant forall l | l in leases :: l.key in failures && l.fingerprint == failures[l.key]
      {
        assert keys[..i + 1] == keys[..i] + [keys[i]];
        if keys[i] !in keys[..i] { leases := LeaseFailure(keys[i], failures[keys[i]], old(failed), old(nextToken), leases); }
      }
      assert keys[..|keys|] == keys;
    }

    method LeaseFailure(key: Key, declared: string, ghost before: Table, ghost base: nat, leases: seq<Lease>) returns (more: seq<Lease>)
      requires Gathered(before, base, FailedKind, leases) && key !in before && key !in KeysOf(leases)
      modifies this`nextToken, this`failed
      ensures Gathered(before, base, FailedKind, more)
      ensures KeysOf(more) == KeysOf(leases) + {key}
      ensures forall l | l in more :: l in leases || (l.key == key && l.fingerprint == declared)
    {
      hide Grown, Issued, TableOk;
      GrownKeys(before, failed, leases);
      TableOkPush(failed, nextToken, key, declared);
      TableOkLater(pending, nextToken);
      ghost var prior, from := failed, nextToken;
      nextToken := nextToken + 1;
      failed := failed[key := LeaseState(nextToken, declared)];
      var l := Lease(nextToken, key, FailedKind, declared);
      GrownAppend(before, prior, leases, l, failed);
      IssuedPush(base, from, FailedKind, leases, l);
      KeysPush(leases, l);
      more := leases + [l];
    }

    static lemma KeysPush(leases: seq<Lease>, l: Lease)
      ensures KeysOf(leases + [l]) == KeysOf(leases) + {l.key}
    {
      assert forall x :: x in leases + [l] <==> x in leases || x == l;
    }

    // A number of LeasePending calls, each batch released before the next: with
    // P leasable records, enough of them offer every one.
    method Sweep(records: seq<Offer>, limit: nat, calls: nat) returns (offered: seq<seq<Lease>>)
      requires Valid() && DistinctKeys(records) && limit > 0 && calls > 0
      modifies this
      ensures Valid() && pending == old(pending) && failed == old(failed) && |offered| == calls
      ensures calls * limit >= Rank(Offers(records, old(pending)), |records|) ==>
                forall i | 0 <= i < |records| && Leasable(records[i], old(pending)) :: Offered(offered, records[i].key)
    {
      offered := [];
      if records == [] { return seq(calls, i => []); }
      hide Rank, Mod, Rotation.Chain, Rotation.Batch, Grown, Issued, Released, Matched, CursorBehind, Leasable, TableOk;
      ghost var starts, batches := [Mod(cursor, |records|)], [];
      ChainStart(Offers(records, pending), |records|, limit, Mod(cursor, |records|));
      for c := 0 to calls
        invariant Valid() && pending == old(pending) && failed == old(failed)
        invariant |offered| == |batches| == c && |starts| == c + 1 && starts[c] == Mod(cursor, |records|)
        invariant Rotation.Chain(Offers(records, pending), |records|, limit, starts, batches)
        invariant forall b | 0 <= b < c :: Matched(records, batches[b], offered[b])
      {
        ghost var e, n, at, t := Offers(records, pending), |records|, cursor, pending;
        var leases, picks := LeaseAndRelease(records, limit);
        ChainPush(e, n, limit, starts, batches, Mod(cursor, n), picks);
        starts, batches, offered := starts + [Mod(cursor, n)], batches + [picks], offered + [leases];
      }
      SweepCovers(records, pending, limit, starts, batches, offered);
    }

    // One call and the release of what it leased.
    method LeaseAndRelease(records: seq<Offer>, limit: nat) returns (leases: seq<Lease>, ghost picks: seq<nat>)
      requires Valid() && DistinctKeys(records) && limit > 0 && records != []
      modifies this
      ensures Valid() && pending == old(pending) && failed == old(failed)
      ensures var e, start := Offers(records, pending), Mod(old(cursor), |records|);
              && Rotation.Batch(e, |records|, start, limit, picks) && Matched(records, picks, leases)
              && StartsAt(e, |records|, Mod(cursor, |records|), Rank(e, start) + |picks|)
    {
      hide Rank, Mod, Grown, Released, Matched, CursorBehind, Leasable, TableOk;
      leases, picks := LeasePending(records, limit);
      Undo(old(pending), pending, leases);
      UndoOther(failed, leases);
      ReleaseLeases(leases);
      LeaseCursorLinks(records, pending, limit, old(cursor), picks, cursor);
    }

    // ReleaseLeases: only the holder of the current token releases a key.
    method ReleaseLeases(leases: seq<Lease>)
      requires Valid()
      modifies this`pending, this`failed
      ensures Valid() && Stepped(old(Now()), Release(leases), Now())
      ensures pending == Released(old(pending), leases, Candidate)
      ensures failed == Released(old(failed), leases, FailedKind)
    {
      assert Released(pending, leases[..0], Candidate) == pending && Released(failed, leases[..0], FailedKind) == failed;
      for i := 0 to |leases|
        invariant pending == Released(old(pending), leases[..i], Candidate)
        invariant failed == Released(old(failed), leases[..i], FailedKind)
      {
        var l := leases[i];
        ReleaseStep(old(pending), leases, i, Candidate);
        ReleaseStep(old(failed), leases, i, FailedKind);
        if l.kind == FailedKind {
          if l.key in failed && failed[l.key].token == l.token { failed := failed - {l.key}; }
        } else {
          if l.key in pending && pending[l.key].token == l.token { pending := pending - {l.key}; }
        }
      }
      assert leases[..|leases|] == leases;
    }

    static lemma ReleaseStep(t: Table, leases: seq<Lease>, i: nat, kind: Kind)
      requires i < |leases|
      ensures var l, now := leases[i], Released(t, leases[..i], kind);
              Released(t, leases[..i + 1], kind)
              == if l.kind == kind && l.key in now && now[l.key].token == l.token then now - {l.key} else now
    {
      assert leases[..i + 1] == leases[..i] + [leases[i]];
    }
  }

  ghost predicate Releases(leases: seq<Lease>, kind: Kind, key: Key, token: nat) {
    exists l | l in leases :: l.kind == kind && l.key == key && l.token == token
  }

  // The entries no release names with their own token.
  ghost function Released(t: Table, leases: seq<Lease>, kind: Kind): Table {
    map k | k in t && !Releases(leases, kind, k, t[k].token) :: t[k]
  }

  // Releasing exactly the leases just issued gives the table back.
  lemma Undo(before: Table, after: Table, leases: seq<Lease>)
    requires Grown(before, after, leases) && forall l | l in leases :: l.kind == Candidate
    ensures Released(after, leases, Candidate) == before
  {
    forall k | k in after ensures k in before <==> !Releases(leases, Candidate, k, after[k].token) {
      if k !in before {
        assert k in KeysOf(leases);
        var l :| l in leases && l.key == k;
        assert Holds(after, l);
      }
    }
    assert Released(after, leases, Candidate).Keys == before.Keys;
  }

  lemma UndoOther(t: Table, leases: seq<Lease>)
    requires forall l | l in leases :: l.kind == Candidate
    ensures Released(t, leases, FailedKind) == t
  {
  }

  ghost predicate Offered(offered: seq<seq<Lease>>, key: Key) { exists c | 0 <= c < |offered| :: key in KeysOf(offered[c]) }

  lemma SweepCovers(records: seq<Offer>, t: Table, limit: nat, starts: seq<nat>, batches: seq<seq<nat>>, offered: seq<seq<Lease>>)
    requires Rotation.Chain(Offers(records, t), |records|, limit, starts, batches) && limit > 0 && |offered| == |batches| > 0
    requires forall b | 0 <= b < |offered| :: Matched(records, batches[b], offered[b])
    ensures |offered| * limit >= Rank(Offers(records, t), |records|) ==>
              forall i | 0 <= i < |records| && Leasable(records[i], t) :: Offered(offered, records[i].key)
  {
    hide Rank, Rotation.Chain, Matched;
    if |offered| * limit >= Rank(Offers(records, t), |records|) {
      forall i | 0 <= i < |records| && Leasable(records[i], t) ensures Offered(offered, records[i].key) {
        LeaseSweepCoversCatalog(records, t, limit, starts, batches, i);
        var c :| 0 <= c < |batches| && i in batches[c];
        PickedKey(records, batches[c], offered[c], i);
      }
    }
  }

  lemma ChainStart(e: nat -> bool, n: nat, limit: nat, start: nat)
    requires start < n
    ensures Rotation.Chain(e, n, limit, [start], [])
  {
  }

  lemma PickedKey(records: seq<Offer>, picks: seq<nat>, leases: seq<Lease>, i: nat)
    requires Matched(records, picks, leases) && i in picks
    ensures i < |records| && records[i].key in KeysOf(leases)
  {
    var j :| 0 <= j < |picks| && picks[j] == i;
    assert leases[j] in leases;
  }

  lemma ChainPush(e: nat -> bool, n: nat, limit: nat, starts: seq<nat>, batches: seq<seq<nat>>, next: nat, picks: seq<nat>)
    requires Rotation.Chain(e, n, limit, starts, batches) && next < n
    requires Rotation.Batch(e, n, starts[|starts|-1], limit, picks)
    requires StartsAt(e, n, next, Rank(e, starts[|starts|-1]) + |picks|)
    ensures Rotation.Chain(e, n, limit, starts + [next], batches + [picks])
  {
    hide Rank, Mod, Rotation.Batch, StartsAt;
  }

  // ------------------------------------------------------------------- runs

  // The tables between calls, and what one call does to them.
  datatype Tables = Tables(next: nat, pending: Table, failed: Table)

  datatype Call = Issue(kind: Kind, leases: seq<Lease>) | Release(leases: seq<Lease>)

  function TableOf(s: Tables, kind: Kind): Table { if kind == Candidate then s.pending else s.failed }

  ghost predicate Stepped(s: Tables, call: Call, t: Tables) {
    match call
    case Issue(kind, leases) =>
      && Issued(s.next, t.next, kind, leases)
      && Grown(TableOf(s, kind), TableOf(t, kind), leases)
      && (kind == Candidate ==> t.failed == s.failed) && (kind == FailedKind ==> t.pending == s.pending)
    case Release(leases) => t == Tables(s.next, Released(s.pending, leases, Candidate), Released(s.failed, leases, FailedKind))
  }

  ghost predicate IsRun(run: seq<Tables>, calls: seq<Call>) {
    |run| == |calls| + 1 && forall i | 0 <= i < |calls| :: Stepped(run[i], calls[i], run[i + 1])
  }

  // The lease is its key's current one.
  ghost predicate IsCurrent(s: Tables, l: Lease) {
    var t := TableOf(s, l.kind); l.key in t && t[l.key].token == l.token
  }

  // A lease that was issued and is not current never becomes current again.
  lemma {:induction false} NeverCurrentAgain(run: seq<Tables>, calls: seq<Call>, i: nat, j: nat, l: Lease)
    requires IsRun(run, calls) && i <= j < |run| && l.token <= run[i].next && !IsCurrent(run[i], l)
    ensures l.token <= run[j].next && !IsCurrent(run[j], l)
  {
    if i < j {
      NeverCurrentAgain(run, calls, i, j - 1, l);
      StaysStale(run[j - 1], calls[j - 1], run[j], l);
    }
  }

  lemma StaysStale(s: Tables, call: Call, t: Tables, l: Lease)
    requires Stepped(s, call, t) && l.token <= s.next && !IsCurrent(s, l)
    ensures l.token <= t.next && !IsCurrent(t, l)
  {
    if call.Issue? && call.kind == l.kind {
      var before, after := TableOf(s, l.kind), TableOf(t, l.kind);
      if l.key in after && l.key !in before {
        assert l.key in KeysOf(call.leases);
        var x :| x in call.leases && x.key == l.key;
        assert Holds(after, x);
      }
    }
  }

  // Every issued lease stays current until it is released.
  lemma {:induction false} CurrentUntilReleased(run: seq<Tables>, calls: seq<Call>, i: nat, j: nat, l: Lease)
    requires IsRun(run, calls) && i <= j < |run| && IsCurrent(run[i], l)
    requires forall k | i <= k < j && calls[k].Release? :: !Releases(calls[k].leases, l.kind, l.key, l.token)
    ensures IsCurrent(run[j], l)
  {
    if i < j {
      CurrentUntilReleased(run, calls, i, j - 1, l);
      assert Stepped(run[j - 1], calls[j - 1], run[j]);
    }
  }

  // A released lease is gone for good: over every later run of lease and release
  // calls its token is not current, so releasing it again changes nothing.
  lemma ReleasedForGood(run: seq<Tables>, calls: seq<Call>, i: nat, j: nat, l: Lease)
    requires IsRun(run, calls) && i < j < |run| && l.token <= run[i].next
    requires calls[i].Release? && l in calls[i].leases
    ensures !IsCurrent(run[j], l)
    ensures Stepped(run[j], Release([l]), run[j])
  {
    assert Stepped(run[i], calls[i], run[i + 1]);
    var t := TableOf(run[i], l.kind);
    if l.key in t && t[l.key].token == l.token { assert Releases(calls[i].leases, l.kind, l.key, l.token); }
    NeverCurrentAgain(run, calls, i + 1, j, l);
    assert Released(run[j].pending, [l], Candidate) == run[j].pending && Released(run[j].failed, [l], FailedKind) == run[j].failed;
  }

  ghost predicate TablesOk(s: Tables) { TableOk(s.pending, s.next) && TableOk(s.failed, s.next) }

  // No two leases share a key: an issue never takes a key whose lease is current.
  lemma OneLeaseAKey(s: Tables, call: Call, t: Tables, l: Lease, x: Lease)
    requires Stepped(s, call, t) && call.Issue? && x in call.leases && l.kind == x.kind && IsCurrent(s, l)
    ensures x.key != l.key && IsCurrent(t, l)
  {
    assert Holds(TableOf(t, x.kind), x);
  }

  // Over every run from empty tables, two current leases of one kind have
  // different keys and different tokens.
  lemma {:induction false} LiveLeasesExclusive(run: seq<Tables>, calls: seq<Call>, j: nat, a: Lease, b: Lease)
    requires IsRun(run, calls) && j < |run| && run[0] == Tables(0, map[], map[])
    requires IsCurrent(run[j], a) && IsCurrent(run[j], b) && a.kind == b.kind
    ensures a.key == b.key <==> a.token == b.token
  {
    RunTablesOk(run, calls, j);
  }

  // Fresh tokens keep the tokens of a table apart.
  lemma IssuedOk(before: Table, after: Table, leases: seq<Lease>, from: nat, to: nat, kind: Kind)
    requires Grown(before, after, leases) && Issued(from, to, kind, leases) && TableOk(before, from)
    ensures TableOk(after, to) && from <= to
  {
    hide Grown;
    forall k | k in after ensures 0 < after[k].token <= to { NewOrOld(before, after, leases, from, to, kind, k); }
    forall j, k | j in after && k in after && after[j].token == after[k].token ensures j == k {
      IssuedApart(before, after, leases, from, to, kind, j, k);
    }
  }

  lemma IssuedApart(before: Table, after: Table, leases: seq<Lease>, from: nat, to: nat, kind: Kind, j: Key, k: Key)
    requires Grown(before, after, leases) && Issued(from, to, kind, leases) && TableOk(before, from)
    requires j in after && k in after && after[j].token == after[k].token
    ensures j == k
  {
    NewOrOld(before, after, leases, from, to, kind, j);
    NewOrOld(before, after, leases, from, to, kind, k);
    if j !in before && k !in before {
      var a :| 0 <= a < |leases| && leases[a].key == j;
      var b :| 0 <= b < |leases| && leases[b].key == k;
      assert Holds(after, leases[a]) && Holds(after, leases[b]);
    }
  }

  lemma StepTablesOk(s: Tables, call: Call, t: Tables)
    requires Stepped(s, call, t) && TablesOk(s)
    ensures TablesOk(t)
  {
    hide Grown, Issued;
    if call.Issue? { IssuedOk(TableOf(s, call.kind), TableOf(t, call.kind), call.leases, s.next, t.next, call.kind); }
  }

  // An entry is an old one, with its old token, or one of the leases issued.
  lemma NewOrOld(before: Table, after: Table, leases: seq<Lease>, from: nat, to: nat, kind: Kind, k: Key)
    requires Grown(before, after, leases) && Issued(from, to, kind, leases) && k in after
    ensures k in before ==> after[k] == before[k]
    ensures k !in before ==> from < after[k].token <= to && exists i :: 0 <= i < |leases| && leases[i].key == k
  {
    if k !in before {
      assert k in KeysOf(leases);
      var l :| l in leases && l.key == k;
      var i :| 0 <= i < |leases| && leases[i] == l;
      assert Holds(after, l);
    }
  }

  lemma {:induction false} RunTablesOk(run: seq<Tables>, calls: seq<Call>, j: nat)
    requires IsRun(run, calls) && j < |run| && run[0] == Tables(0, map[], map[])
    ensures TablesOk(run[j])
  {
    if j > 0 {
      RunTablesOk(run, calls, j - 1);
      StepTablesOk(run[j - 1], calls[j - 1], run[j]);
    }
  }

  // With everything released between calls and P leasable records, any
  // ceil(P / limit) consecutive calls offer every one of them.
  lemma LeaseSweepCoversCatalog(records: seq<Offer>, t: Table, limit: nat, starts: seq<nat>, batches: seq<seq<nat>>, i: nat)
    requires var e := Offers(records, t);
             && Rotation.Chain(e, |records|, limit, starts, batches)
             && limit > 0 && |batches| > 0 && |batches| * limit >= Rank(e, |records|)
    requires i < |records| && Leasable(records[i], t)
    ensures exists c :: 0 <= c < |batches| && i in batches[c]
  {
    Rotation.BatchesCoverEverySlot(Offers(records, t), |records|, limit, starts, batches, i);
  }

  // One call's cursor update is one link of that chain.
  lemma LeaseCursorLinks(records: seq<Offer>, t: Table, limit: nat, cursor: nat, picks: seq<nat>, cursor': nat)
    requires records != [] && limit > 0
    requires Rotation.Batch(Offers(records, t), |records|, Mod(cursor, |records|), limit, picks)
    requires CursorBehind(cursor, picks, |records|, cursor')
    ensures var e := Offers(records, t);
            StartsAt(e, |records|, Mod(cursor', |records|), Rank(e, Mod(cursor, |records|)) + |picks|)
  {
    var e, n := Offers(records, t), |records|;
    Rotation.BatchAdvances(e, n, Mod(cursor, n), limit, picks);
    if picks != [] {
      NthIs(e, n, Mod(Rank(e, Mod(cursor, n)) + |picks| - 1, Rank(e, n)));
      SmallMod(picks[|picks|-1] + 1, n);
      SmallMod(cursor', n);
    }
  }
}
