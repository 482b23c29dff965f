// migrateLegacyCandidateFailures (candidatecache.go): files older than version 4
// kept failed checks among the pending records; reading one partitions them in
// place.
module CacheMigration {
  import opened Proxies
  import opened CatalogModel
  import opened CacheCodec

  // The compaction over the record array itself: the write index never passes
  // the read index, and what is behind it is never read again.
  method MigrateInPlace(records: array<Record>) returns (kept: nat, failed: seq<Failure>)
    modifies records
    ensures kept <= records.Length && records[..kept] == StillPending(old(records[..]))
    ensures failed == NowFailed(old(records[..]))
  {
    ghost var all := records[..];
    kept, failed := 0, [];
    assert all[..0] == [];
    var read := 0;
    while read < records.Length
      invariant kept <= read <= records.Length
      invariant records[..kept] == StillPending(all[..read]) && failed == NowFailed(all[..read])
      invariant forall k | read <= k < records.Length :: records[k] == all[k]
    {
      var record := records[read];
      assert record == all[read];
      HalvesNext(all, read);
      var kind := FailureOfStatus(record.status);
      if kind.None? {
        records[kept] := record;
        kept := kept + 1;
        assert records[..kept] == records[..kept - 1] + [record];
      } else {
        failed := failed + [Failure(record.(status := Deferred), kind.value, "")];
      }
      read := read + 1;
    }
    assert all[..records.Length] == all;
  }

  // One more record goes to one of the halves.
  lemma HalvesNext(all: seq<Record>, i: nat)
    requires i < |all|
    ensures var kind := FailureOfStatus(all[i].status);
            && StillPending(all[..i + 1]) == StillPending(all[..i]) + (if kind.None? then [all[i]] else [])
            && NowFailed(all[..i + 1])
               == NowFailed(all[..i]) + if kind.Some? then [Failure(all[i].(status := Deferred), kind.value, "")] else []
  {
    assert all[..i + 1] == all[..i] + [all[i]];
  }

  // Keys do not depend on a record's status.
  function KeyBy(protocols: seq<string>): Record -> Key {
    (r: Record) => Key(if r.protocolID < |protocols| then protocols[r.protocolID] else "", r.addr)
  }

  ghost predicate StatusBlind(key: Record -> Key) { forall r: Record, s: Status :: key(r.(status := s)) == key(r) }

  ghost function KeysOf(key: Record -> Key, rs: seq<Record>): (ks: seq<Key>)
    ensures |ks| == |rs|
  {
    if rs == [] then [] else KeysOf(key, rs[..|rs|-1]) + [key(rs[|rs|-1])]
  }

  ghost function FailedKeysOf(key: Record -> Key, fs: seq<Failure>): (ks: seq<Key>)
    ensures |ks| == |fs|
  {
    if fs == [] then [] else FailedKeysOf(key, fs[..|fs|-1]) + [key(fs[|fs|-1].record)]
  }

  lemma KeysPush(key: Record -> Key, rs: seq<Record>, r: Record)
    ensures KeysOf(key, rs + [r]) == KeysOf(key, rs) + [key(r)]
  {
    assert (rs + [r])[..|rs|] == rs;
  }

  lemma FailedKeysPush(key: Record -> Key, fs: seq<Failure>, f: Failure)
    ensures FailedKeysOf(key, fs + [f]) == FailedKeysOf(key, fs) + [key(f.record)]
  {
    assert (fs + [f])[..|fs|] == fs;
  }

  // What one more record does to the keys of the two halves.
  lemma HalvesPush(key: Record -> Key, rs: seq<Record>)
    requires rs != [] && StatusBlind(key)
    ensures var front, last := rs[..|rs|-1], rs[|rs|-1];
            if FailureOfStatus(last.status).Some? then
              && KeysOf(key, StillPending(rs)) == KeysOf(key, StillPending(front))
              && FailedKeysOf(key, NowFailed(rs)) == FailedKeysOf(key, NowFailed(front)) + [key(last)]
            else
              && KeysOf(key, StillPending(rs)) == KeysOf(key, StillPending(front)) + [key(last)]
              && FailedKeysOf(key, NowFailed(rs)) == FailedKeysOf(key, NowFailed(front))
  {
    var front, last := rs[..|rs|-1], rs[|rs|-1];
    if FailureOfStatus(last.status).Some? {
      var f := Failure(last.(status := Deferred), FailureOfStatus(last.status).value, "");
      FailedKeysPush(key, NowFailed(front), f);
      assert StillPending(rs) == StillPending(front);
      assert key(last.(status := Deferred)) == key(last);
    } else {
      KeysPush(key, StillPending(front), last);
      assert NowFailed(rs) == NowFailed(front);
    }
  }

  // The order in which a file keeps its records.
  ghost predicate Ascends(ks: seq<Key>) { forall i, j | 0 <= i < j < |ks| :: KeyLess(ks[i], ks[j]) }

  // Key-conserving: every key ends up in one half, as often as it was there.
  lemma {:induction false} HalvesConserveKeys(key: Record -> Key, rs: seq<Record>)
    requires StatusBlind(key)
    ensures multiset(KeysOf(key, StillPending(rs))) + multiset(FailedKeysOf(key, NowFailed(rs))) == multiset(KeysOf(key, rs))
  {
    if rs != [] {
      HalvesConserveKeys(key, rs[..|rs|-1]);
      HalvesPush(key, rs);
    }
  }

  ghost predicate AllBelow(ks: seq<Key>, k: Key) { forall i | 0 <= i < |ks| :: KeyLess(ks[i], k) }

  lemma AscendsPush(ks: seq<Key>, k: Key)
    ensures Ascends(ks + [k]) <==> Ascends(ks) && AllBelow(ks, k)
  {
    var all := ks + [k];
    if Ascends(all) {
      forall i | 0 <= i < |ks| ensures KeyLess(ks[i], k) { assert KeyLess(all[i], all[|ks|]); }
      forall i, j | 0 <= i < j < |ks| ensures KeyLess(ks[i], ks[j]) { assert KeyLess(all[i], all[j]); }
    }
  }

  lemma BelowPart(part: seq<Key>, other: seq<Key>, whole: seq<Key>, k: Key)
    requires multiset(part) + multiset(other) == multiset(whole) && AllBelow(whole, k)
    ensures AllBelow(part, k)
  {
    forall i | 0 <= i < |part| ensures KeyLess(part[i], k) {
      assert part[i] in multiset(part) + multiset(other);
      assert part[i] in whole;
    }
  }

  // Stable: both halves keep the strict order.
  lemma {:induction false} HalvesAscend(key: Record -> Key, rs: seq<Record>)
    requires StatusBlind(key) && Ascends(KeysOf(key, rs))
    ensures Ascends(KeysOf(key, StillPending(rs))) && Ascends(FailedKeysOf(key, NowFailed(rs)))
  {
    if rs != [] {
      var front, k := rs[..|rs|-1], key(rs[|rs|-1]);
      var pending, failed := KeysOf(key, StillPending(front)), FailedKeysOf(key, NowFailed(front));
      AscendsPush(KeysOf(key, front), k);
      HalvesAscend(key, front);
      HalvesConserveKeys(key, front);
      BelowPart(pending, failed, KeysOf(key, front), k);
      assert multiset(failed) + multiset(pending) == multiset(KeysOf(key, front));
      BelowPart(failed, pending, KeysOf(key, front), k);
      HalvesPush(key, rs);
      AscendsPush(pending, k);
      AscendsPush(failed, k);
    }
  }

  lemma MigratedParts(s: Snapshot)
    requires s.failed == []
    ensures Migrated(s) == s.(records := StillPending(s.records), failed := NowFailed(s.records))
  {
    assert s.failed + NowFailed(s.records) == NowFailed(s.records);
  }

  // A sorted legacy inventory becomes two sorted collections that share its keys
  // out, under whatever key the records have.
  lemma MigrationKeepsOrder(s: Snapshot, key: Record -> Key)
    requires s.failed == [] && StatusBlind(key) && Ascends(KeysOf(key, s.records))
    ensures Ascends(KeysOf(key, Migrated(s).records)) && Ascends(FailedKeysOf(key, Migrated(s).failed))
    ensures multiset(KeysOf(key, Migrated(s).records)) + multiset(FailedKeysOf(key, Migrated(s).failed)) == multiset(KeysOf(key, s.records))
  {
    MigratedParts(s);
    HalvesAscend(key, s.records);
    HalvesConserveKeys(key, s.records);
  }

  // The halves by what their records' statuses stand for.
  lemma {:induction false} HalvesByStatus(rs: seq<Record>)
    ensures forall r :: r in StillPending(rs) <==> r in rs && FailureOfStatus(r.status).None?
    ensures forall f :: f in NowFailed(rs) <==>
              exists r :: r in rs && FailureOfStatus(r.status).Some? && f == Failure(r.(status := Deferred), FailureOfStatus(r.status).value, "")
  {
    if rs != [] {
      var front, last := rs[..|rs|-1], rs[|rs|-1];
      HalvesByStatus(front);
      assert forall r :: r in rs <==> r in front || r == last;
      forall f | f in NowFailed(rs)
        ensures exists r :: r in rs && FailureOfStatus(r.status).Some? && f == Failure(r.(status := Deferred), FailureOfStatus(r.status).value, "")
      {
        if f in NowFailed(front) {
          var r :| r in front && FailureOfStatus(r.status).Some? && f == Failure(r.(status := Deferred), FailureOfStatus(r.status).value, "");
          assert r in rs;
        } else {
          assert last in rs;
        }
      }
    }
  }

  // No failure is left among the pending records, and every moved record is a
  // deferred failure: checked in vain it was unreachable, filtered it was
  // rejected by policy.
  lemma HalvesAre(rs: seq<Record>)
    ensures forall r :: r in StillPending(rs) <==> r in rs && r.status != CheckedFailed && r.status != PolicyFiltered
    ensures forall f :: f in NowFailed(rs) <==>
              && f.record.status == Deferred && f.lastError == ""
              && f.record.(status := if f.kind == Unreachable then CheckedFailed else PolicyFiltered) in rs
  {
    HalvesByStatus(rs);
    forall f ensures f in NowFailed(rs) <==>
              && f.record.status == Deferred && f.lastError == ""
              && f.record.(status := if f.kind == Unreachable then CheckedFailed else PolicyFiltered) in rs
    {
      var r := f.record.(status := if f.kind == Unreachable then CheckedFailed else PolicyFiltered);
      assert f.record.status == Deferred ==> r.(status := Deferred) == f.record;
    }
  }
}
