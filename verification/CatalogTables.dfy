// The catalog's tables as a growing store: id maps that invert dictionaries,
// and the flat list of source keys that the source references spell out.
module CatalogTables {
  import opened Proxies
  import opened CatalogModel

  // ---------------------------------------------------------------- id maps

  // The map from a value to its id inverts the dictionary.
  ghost predicate IdsOf(ids: map<string, nat>, d: seq<string>) {
    && (forall k | k in ids :: ids[k] < |d| && d[ids[k]] == k)
    && (forall i | 0 <= i < |d| :: d[i] in ids && ids[d[i]] == i)
  }

  lemma IdsPush(ids: map<string, nat>, d: seq<string>, k: string)
    requires IdsOf(ids, d) && k !in ids
    ensures IdsOf(ids[k := |d|], d + [k])
  {
  }

  lemma IdsOneBlank(ids: map<string, nat>, d: seq<string>)
    requires IdsOf(ids, d) && Dictionary(d)
    ensures OneBlank(d)
  {
    forall i | 0 < i < |d| ensures d[i] != "" { assert ids[d[i]] == i && ids[d[0]] == 0; }
  }

  // With one blank value, id zero and the empty value are the same thing.
  lemma ZeroIsEmpty(d: seq<string>, id: nat)
    requires Dictionary(d) && OneBlank(d) && id < |d|
    ensures id == 0 <==> d[id] == ""
  {
  }

  // ----------------------------------------------------------------- tables

  ghost predicate Sane(t: Tables) {
    && RefsIn(t)
    && |t.sources| == |t.sourceKeys|
    && "" !in t.sourceKeys
    && Dictionary(t.countries) && Dictionary(t.cities)
    && OneBlank(t.countries) && OneBlank(t.cities)
  }

  ghost predicate KnownProtocols(t: Tables) { forall p | p in t.protocols :: KnownProtocol(p) }

  // Every source reference spelled out.
  function Flat(t: Tables): (f: seq<string>)
    requires RefsIn(t)
    ensures |f| == |t.sourceRefs|
  {
    SourceKeys(t, t.sourceRefs)
  }

  lemma SourcesAreFlat(t: Tables, r: Record)
    requires RefsIn(t) && Fits(t, r)
    ensures RecordSources(t, r) == Flat(t)[r.sourceOffset..r.sourceOffset + r.sourceCount]
  {
  }

  lemma FlatGrows(t: Tables, u: Tables)
    requires RefsIn(t) && RefsIn(u) && Extends(t, u)
    ensures Flat(t) <= Flat(u)
  {
  }

  // A new reference adds one key.
  lemma FlatPush(t: Tables, u: Tables, id: nat)
    requires RefsIn(t) && RefsIn(u) && Extends(t, u)
    requires u.sourceRefs == t.sourceRefs + [id] && id < |u.sourceKeys|
    ensures Flat(u) == Flat(t) + [u.sourceKeys[id]]
  {
    FlatGrows(t, u);
    assert Flat(u)[|t.sourceRefs|] == u.sourceKeys[id];
  }

  // --------------------------------------------------- records and alternates

  ghost predicate AllFit(t: Tables, records: seq<Record>) { forall r | r in records :: Fits(t, r) }

  ghost function Means(t: Tables, records: seq<Record>, alts: seq<seq<Credential>>): (es: seq<Entry>)
    requires RefsIn(t) && AllFit(t, records) && |alts| == |records|
    ensures |es| == |records|
  {
    seq(|records|, i requires 0 <= i < |records| => MeaningWith(t, records[i], alts[i]))
  }

  lemma MeansStable(t: Tables, u: Tables, records: seq<Record>, alts: seq<seq<Credential>>)
    requires RefsIn(t) && RefsIn(u) && Extends(t, u) && AllFit(t, records) && |alts| == |records|
    ensures AllFit(u, records) && Means(u, records, alts) == Means(t, records, alts)
  {
    forall i | 0 <= i < |records| ensures Fits(u, records[i]) && MeaningWith(u, records[i], alts[i]) == MeaningWith(t, records[i], alts[i]) {
      MeaningStable(t, u, records[i], alts[i]);
    }
  }

  lemma MeansPush(t: Tables, records: seq<Record>, alts: seq<seq<Credential>>, r: Record, a: seq<Credential>)
    requires RefsIn(t) && AllFit(t, records) && |alts| == |records| && Fits(t, r)
    ensures AllFit(t, records + [r])
    ensures Means(t, records + [r], alts + [a]) == Means(t, records, alts) + [MeaningWith(t, r, a)]
  {
  }

  function RecordsOf(failed: seq<Failure>): (rs: seq<Record>)
    ensures |rs| == |failed| && forall i | 0 <= i < |rs| :: rs[i] == failed[i].record
  {
    seq(|failed|, i requires 0 <= i < |failed| => failed[i].record)
  }

  ghost function MeansFailed(t: Tables, failed: seq<Failure>, alts: seq<seq<Credential>>): (fs: seq<FailedEntry>)
    requires RefsIn(t) && AllFit(t, RecordsOf(failed)) && |alts| == |failed|
    ensures |fs| == |failed|
  {
    seq(|failed|, i requires 0 <= i < |failed| =>
      FailedEntry(Means(t, RecordsOf(failed), alts)[i], failed[i].kind, failed[i].lastError))
  }

  lemma MeansFailedStable(t: Tables, u: Tables, failed: seq<Failure>, alts: seq<seq<Credential>>)
    requires RefsIn(t) && RefsIn(u) && Extends(t, u) && AllFit(t, RecordsOf(failed)) && |alts| == |failed|
    ensures AllFit(u, RecordsOf(failed)) && MeansFailed(u, failed, alts) == MeansFailed(t, failed, alts)
  {
    MeansStable(t, u, RecordsOf(failed), alts);
  }

  lemma MeansFailedPush(t: Tables, failed: seq<Failure>, alts: seq<seq<Credential>>, f: Failure, a: seq<Credential>)
    requires RefsIn(t) && AllFit(t, RecordsOf(failed)) && |alts| == |failed| && Fits(t, f.record)
    ensures AllFit(t, RecordsOf(failed + [f]))
    ensures MeansFailed(t, failed + [f], alts + [a])
            == MeansFailed(t, failed, alts) + [FailedEntry(MeaningWith(t, f.record, a), f.kind, f.lastError)]
  {
    assert RecordsOf(failed + [f]) == RecordsOf(failed) + [f.record];
    MeansPush(t, RecordsOf(failed), alts, f.record, a);
  }

  // ------------------------------------------------------------- pigeonhole

  // Strictly sorted references into a table are no more than the table is long,
  // which is what the validator's bound on a record's source count asks.
  lemma SourceCountBound(t: Tables, r: Record)
    requires RefsIn(t) && Fits(t, r) && StrictlySorted(RecordSources(t, r))
    ensures r.sourceCount <= |t.sourceKeys|
  {
    var refs := t.sourceRefs[r.sourceOffset..r.sourceOffset + r.sourceCount];
    SortedDistinct(RecordSources(t, r));
    forall i, j | 0 <= i < j < |refs| ensures refs[i] != refs[j] {
      assert RecordSources(t, r)[i] == t.sourceKeys[refs[i]] && RecordSources(t, r)[j] == t.sourceKeys[refs[j]];
    }
    forall i | 0 <= i < |refs| ensures refs[i] < |t.sourceKeys| { assert refs[i] == t.sourceRefs[r.sourceOffset + i]; }
    DistinctBelow(refs, |t.sourceKeys|);
  }

  lemma {:induction false} DistinctBelow(refs: seq<nat>, n: nat)
    requires (forall i, j | 0 <= i < j < |refs| :: refs[i] != refs[j]) && (forall i | 0 <= i < |refs| :: refs[i] < n)
    ensures |refs| <= n
    decreases n
  {
    if refs != [] {
      assert refs[0] < n;
      if n - 1 in refs {
        var k :| 0 <= k < |refs| && refs[k] == n - 1;
        var rest := refs[..k] + refs[k + 1..];
        DistinctBelow(rest, n - 1);
      } else {
        forall i | 0 <= i < |refs| ensures refs[i] < n - 1 { assert refs[i] in refs; }
        DistinctBelow(refs, n - 1);
      }
    }
  }
}
