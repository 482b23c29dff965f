// candidateSnapshotBuilder (candidate_catalog.go): the object that re-interns
// records into fresh tables.  Every appending method is stated by what the
// appended record means, whatever ids and offsets it received.
module CatalogBuilder {
  import opened Proxies
  import opened CatalogModel
  import opened CatalogTables
  import opened CatalogMerge
  import opened CatalogReconcile
  import opened CatalogParts
  import opened Sorting

  class Builder {
    var tables: Tables
    var records: seq<Record>
    var failed: seq<Failure>
    var sourceIDs: map<string, nat>
    var protocolIDs: map<string, nat>
    var countryIDs: map<string, nat>
    var cityIDs: map<string, nat>
    var perRecordAlts: seq<seq<Credential>>
    var perFailedAlts: seq<seq<Credential>>

    ghost predicate TablesValid()
      reads this
    {
      && Sane(tables)
      && IdsOf(sourceIDs, tables.sourceKeys)
      && IdsOf(protocolIDs, tables.protocols)
      && IdsOf(countryIDs, tables.countries)
      && IdsOf(cityIDs, tables.cities)
    }

    ghost predicate Valid()
      reads this
    {
      && TablesValid()
      && AllFit(tables, records) && |perRecordAlts| == |records|
      && AllFit(tables, RecordsOf(failed)) && |perFailedAlts| == |failed|
    }

    ghost function Entries(): seq<Entry>
      requires Valid()
      reads this
    {
      Means(tables, records, perRecordAlts)
    }

    ghost function FailedEntries(): seq<FailedEntry>
      requires Valid()
      reads this
    {
      MeansFailed(tables, failed, perFailedAlts)
    }

    constructor ()
      ensures Valid() && Entries() == [] && FailedEntries() == [] && KnownProtocols(tables)
    {
      tables := Tables([], [], [], [], [""], [""]);
      records, failed, perRecordAlts, perFailedAlts := [], [], [], [];
      sourceIDs, protocolIDs, countryIDs, cityIDs := map[], map[], map["" := 0], map["" := 0];
    }

    // ------------------------------------------------------------ interning

    method InternSource(key: string, name: string) returns (id: nat)
      requires TablesValid()
      modifies this`tables, this`sourceIDs
      ensures TablesValid() && SourcesGrown(old(tables), tables)
      ensures tables.sourceRefs == old(tables.sourceRefs)
      ensures id < |tables.sourceKeys| && tables.sourceKeys[id] == InternedKey(key, name)
    {
      var k := if key == "" then LegacyKey(name) else key;
      var l := if name == "" then "Unknown" else name;
      if k in sourceIDs { return sourceIDs[k]; }
      id := |tables.sources|;
      IdsPush(sourceIDs, tables.sourceKeys, k);
      sourceIDs := sourceIDs[k := id];
      tables := tables.(sourceKeys := tables.sourceKeys + [k], sources := tables.sources + [l]);
    }

    method InternProtocol(value: string) returns (id: nat)
      requires TablesValid()
      modifies this`tables, this`protocolIDs
      ensures TablesValid() && ValuesGrown(old(tables), tables)
      ensures id < |tables.protocols| && tables.protocols[id] == value
      ensures KnownProtocol(value) && KnownProtocols(old(tables)) ==> KnownProtocols(tables)
    {
      if value in protocolIDs { return protocolIDs[value]; }
      id := |tables.protocols|;
      IdsPush(protocolIDs, tables.protocols, value);
      protocolIDs := protocolIDs[value := id];
      tables := tables.(protocols := tables.protocols + [value]);
    }

    method InternCountry(value: string) returns (id: nat)
      requires TablesValid()
      modifies this`tables, this`countryIDs
      ensures TablesValid() && ValuesGrown(old(tables), tables) && tables.protocols == old(tables.protocols)
      ensures id < |tables.countries| && tables.countries[id] == value
    {
      if value in countryIDs { return countryIDs[value]; }
      id := |tables.countries|;
      IdsPush(countryIDs, tables.countries, value);
      IdsOneBlank(countryIDs[value := id], tables.countries + [value]);
      countryIDs := countryIDs[value := id];
      tables := tables.(countries := tables.countries + [value]);
    }

    method InternCity(value: string) returns (id: nat)
      requires TablesValid()
      modifies this`tables, this`cityIDs
      ensures TablesValid() && ValuesGrown(old(tables), tables) && tables.protocols == old(tables.protocols)
      ensures id < |tables.cities| && tables.cities[id] == value
    {
      if value in cityIDs { return cityIDs[value]; }
      id := |tables.cities|;
      IdsPush(cityIDs, tables.cities, value);
      IdsOneBlank(cityIDs[value := id], tables.cities + [value]);
      cityIDs := cityIDs[value := id];
      tables := tables.(cities := tables.cities + [value]);
    }

    method InternValues(protocol: string, country: string, city: string, r: Record) returns (out: Record)
      requires TablesValid()
      modifies this`tables, this`protocolIDs, this`countryIDs, this`cityIDs
      ensures TablesValid() && ValuesGrown(old(tables), tables)
      ensures KnownProtocol(protocol) && KnownProtocols(old(tables)) ==> KnownProtocols(tables)
      ensures out == r.(protocolID := out.protocolID, countryID := out.countryID, cityID := out.cityID)
      ensures out.protocolID < |tables.protocols| && tables.protocols[out.protocolID] == protocol
      ensures out.countryID < |tables.countries| && tables.countries[out.countryID] == country
      ensures out.cityID < |tables.cities| && tables.cities[out.cityID] == city
    {
      var p := InternProtocol(protocol);
      ghost var t := tables;
      var c, i := InternPlace(country, city);
      out := r.(protocolID := p, countryID := c, cityID := i);
    }

    method InternPlace(country: string, city: string) returns (c: nat, i: nat)
      requires TablesValid()
      modifies this`tables, this`countryIDs, this`cityIDs
      ensures TablesValid() && ValuesGrown(old(tables), tables) && tables.protocols == old(tables.protocols)
      ensures c < |tables.countries| && tables.countries[c] == country
      ensures i < |tables.cities| && tables.cities[i] == city
    {
      c := InternCountry(country);
      i := InternCity(city);
    }

    // The appendSource closures: intern a source and add a reference to it.
    method AppendSource(key: string, name: string)
      requires TablesValid()
      modifies this`tables, this`sourceIDs
      ensures TablesValid() && SourcesGrown(old(tables), tables)
      ensures Flat(tables) == old(Flat(tables)) + [InternedKey(key, name)]
    {
      var id := InternSource(key, name);
      ghost var t := tables;
      FlatGrows(old(tables), t);
      tables := tables.(sourceRefs := tables.sourceRefs + [id]);
      FlatPush(t, tables, id);
    }

    // Copies a record's source list behind the references written so far.
    method CopySources(t: Tables, r: Record)
      requires TablesValid() && Sane(t) && Fits(t, r)
      modifies this`tables, this`sourceIDs
      ensures TablesValid() && SourcesGrown(old(tables), tables)
      ensures Flat(tables) == old(Flat(tables)) + RecordSources(t, r)
    {
      ghost var keys := RecordSources(t, r);
      var i := 0;
      while i < r.sourceCount
        invariant 0 <= i <= r.sourceCount
        invariant TablesValid() && SourcesGrown(old(tables), tables)
        invariant Flat(tables) == old(Flat(tables)) + keys[..i]
      {
        SourcesAt(t, r, i);
        var ref := t.sourceRefs[r.sourceOffset + i];
        assert t.sourceKeys[ref] in t.sourceKeys;
        AppendSource(t.sourceKeys[ref], t.sources[ref]);
        assert keys[..i + 1] == keys[..i] + [keys[i]];
        i := i + 1;
      }
      assert keys[..r.sourceCount] == keys;
    }

    // --------------------------------------------------------------- records

    method TranslateRecord(s: Snapshot, r: Record) returns (out: Record, alts: seq<Credential>)
      requires TablesValid() && Sane(s.tables) && Fits(s.tables, r) && AltsFit(s.alternates, r)
      modifies this`tables, this`sourceIDs, this`protocolIDs, this`countryIDs, this`cityIDs
      ensures TablesValid() && Extends(old(tables), tables) && Fits(tables, out)
      ensures MeaningWith(tables, out, alts) == Translated(Meaning(s, r))
      ensures out.sourceOffset == |old(tables).sourceRefs| && out.sourceOffset + out.sourceCount == |tables.sourceRefs|
      ensures Flat(tables) == old(Flat(tables)) + RecordSources(tables, out)
      ensures KnownProtocols(s.tables) && KnownProtocols(old(tables)) ==> KnownProtocols(tables)
    {
      alts := CopyAlternates(s.alternates, r);
      assert s.tables.protocols[r.protocolID] in s.tables.protocols;
      out := InternValues(s.tables.protocols[r.protocolID], s.tables.countries[r.countryID], s.tables.cities[r.cityID], r);
      var t := tables;
      assert Flat(t) == Flat(old(tables));
      var count := CopySourcesOrUnknown(s.tables, r);
      out := out.(sourceOffset := |t.sourceRefs|, sourceCount := count);
      Placed(t, tables, out, SourcesOrUnknown(RecordSources(s.tables, r)));
    }

    method CopySourcesOrUnknown(t: Tables, r: Record) returns (count: nat)
      requires TablesValid() && Sane(t) && Fits(t, r)
      modifies this`tables, this`sourceIDs
      ensures TablesValid() && SourcesGrown(old(tables), tables)
      ensures Flat(tables) == old(Flat(tables)) + SourcesOrUnknown(RecordSources(t, r)) && count == |SourcesOrUnknown(RecordSources(t, r))|
    {
      CopySources(t, r);
      count := r.sourceCount;
      if count == 0 {
        AppendSource(LegacyKey(""), "");
        count := 1;
      }
    }

    method PushRecord(out: Record, alts: seq<Credential>)
      requires Valid() && Fits(tables, out)
      modifies this`records, this`perRecordAlts
      ensures Valid()
      ensures Entries() == old(Entries()) + [MeaningWith(tables, out, alts)]
      ensures FailedEntries() == old(FailedEntries())
    {
      MeansPush(tables, records, perRecordAlts, out, alts);
      records := records + [out];
      perRecordAlts := perRecordAlts + [alts];
    }

    method PushFailure(f: Failure, alts: seq<Credential>)
      requires Valid() && Fits(tables, f.record)
      modifies this`failed, this`perFailedAlts
      ensures Valid()
      ensures FailedEntries() == old(FailedEntries()) + [FailedEntry(MeaningWith(tables, f.record, alts), f.kind, f.lastError)]
      ensures Entries() == old(Entries())
    {
      MeansFailedPush(tables, failed, perFailedAlts, f, alts);
      failed := failed + [f];
      perFailedAlts := perFailedAlts + [alts];
    }

    // Growing the tables leaves every record already appended as it was.
    lemma Unmoved(t: Tables)
      requires TablesValid() && RefsIn(t) && Extends(t, tables)
      requires AllFit(t, records) && |perRecordAlts| == |records|
      requires AllFit(t, RecordsOf(failed)) && |perFailedAlts| == |failed|
      ensures Valid()
      ensures Entries() == Means(t, records, perRecordAlts)
      ensures FailedEntries() == MeansFailed(t, failed, perFailedAlts)
    {
      MeansStable(t, tables, records, perRecordAlts);
      MeansFailedStable(t, tables, failed, perFailedAlts);
    }

    method AppendRecord(s: Snapshot, r: Record)
      requires Valid() && Sane(s.tables) && Fits(s.tables, r) && AltsFit(s.alternates, r)
      modifies this
      ensures Valid()
      ensures Entries() == old(Entries()) + [Translated(Meaning(s, r))] && FailedEntries() == old(FailedEntries())
      ensures KnownProtocols(s.tables) && KnownProtocols(old(tables)) ==> KnownProtocols(tables)
    {
      var out, alts := TranslateRecord(s, r);
      Unmoved(old(tables));
      PushRecord(out, alts);
    }

    method AppendFailure(s: Snapshot, f: Failure)
      requires Valid() && Sane(s.tables) && Fits(s.tables, f.record) && AltsFit(s.alternates, f.record)
      modifies this
      ensures Valid()
      ensures FailedEntries() == old(FailedEntries()) + [FailedEntry(Translated(Meaning(s, f.record)), f.kind, f.lastError)]
      ensures Entries() == old(Entries())
      ensures KnownProtocols(s.tables) && KnownProtocols(old(tables)) ==> KnownProtocols(tables)
    {
      var out, alts := TranslateRecord(s, f.record);
      Unmoved(old(tables));
      PushFailure(f.(record := out), alts);
    }

    // The filtering loop of appendFilteredRecord.
    method CopyAllowedSources(t: Tables, r: Record, allowed: set<string>) returns (count: nat)
      requires TablesValid() && Sane(t) && Fits(t, r)
      modifies this`tables, this`sourceIDs
      ensures TablesValid() && SourcesGrown(old(tables), tables)
      ensures Flat(tables) == old(Flat(tables)) + KeepIn(RecordSources(t, r), allowed)
      ensures count == |KeepIn(RecordSources(t, r), allowed)|
    {
      ghost var keys := RecordSources(t, r);
      ghost var done: seq<string> := [];
      var i := 0;
      count := 0;
      while i < r.sourceCount
        invariant 0 <= i <= r.sourceCount && count == |done|
        invariant TablesValid() && SourcesGrown(old(tables), tables)
        invariant Flat(tables) == old(Flat(tables)) + done
        invariant KeptUpTo(keys, i, allowed, done)
      {
        SourcesAt(t, r, i);
        var ref := t.sourceRefs[r.sourceOffset + i];
        KeptNext(keys, i, allowed, done);
        assert t.sourceKeys[ref] in t.sourceKeys;
        if t.sourceKeys[ref] in allowed {
          AppendSource(t.sourceKeys[ref], t.sources[ref]);
          done := done + [t.sourceKeys[ref]];
          count := count + 1;
        }
        i := i + 1;
      }
    }

    method AppendFilteredRecord(s: Snapshot, r: Record, allowed: set<string>) returns (kept: bool)
      requires Valid() && Sane(s.tables) && Fits(s.tables, r) && AltsFit(s.alternates, r)
      modifies this
      ensures Valid()
      ensures kept == HasSourceIn(Meaning(s, r), allowed)
      ensures Entries() == old(Entries()) + (if kept then [Filtered(Meaning(s, r), allowed)] else [])
      ensures FailedEntries() == old(FailedEntries())
      ensures KnownProtocols(s.tables) && KnownProtocols(old(tables)) ==> KnownProtocols(tables)
    {
      kept := RecordHasSourceIn(s.tables, r, allowed);
      if !kept { return; }
      var out := WriteFiltered(s, r, allowed);
      Unmoved(old(tables));
      PushRecord(out, CopyAlternates(s.alternates, r));
    }

    method WriteFiltered(s: Snapshot, r: Record, allowed: set<string>) returns (out: Record)
      requires TablesValid() && Sane(s.tables) && Fits(s.tables, r) && AltsFit(s.alternates, r)
      modifies this`tables, this`sourceIDs, this`protocolIDs, this`countryIDs, this`cityIDs
      ensures TablesValid() && Extends(old(tables), tables) && Fits(tables, out)
      ensures MeaningWith(tables, out, RecordAlternates(s.alternates, r)) == Filtered(Meaning(s, r), allowed)
      ensures KnownProtocols(s.tables) && KnownProtocols(old(tables)) ==> KnownProtocols(tables)
    {
      assert s.tables.protocols[r.protocolID] in s.tables.protocols;
      out := InternValues(s.tables.protocols[r.protocolID], s.tables.countries[r.countryID], s.tables.cities[r.cityID], r);
      var t := tables;
      assert Flat(t) == Flat(old(tables));
      var count := CopyAllowedSources(s.tables, r, allowed);
      out := out.(sourceOffset := |t.sourceRefs|, sourceCount := count);
      Placed(t, tables, out, KeepIn(RecordSources(s.tables, r), allowed));
    }

    // The merge loop of appendMergedRecord: the retained sources of a and all of
    // b in one ascending list.
    method MergeSources(ta: Tables, a: Record, tb: Tables, b: Record, allowed: set<string>) returns (count: nat)
      requires TablesValid() && Sane(ta) && Sane(tb) && Fits(ta, a) && Fits(tb, b)
      requires StrictlySorted(RecordSources(ta, a)) && StrictlySorted(RecordSources(tb, b))
      modifies this`tables, this`sourceIDs
      ensures TablesValid() && SourcesGrown(old(tables), tables)
      ensures Flat(tables) == old(Flat(tables)) + Merge2(KeepIn(RecordSources(ta, a), allowed), RecordSources(tb, b))
      ensures count == |Merge2(KeepIn(RecordSources(ta, a), allowed), RecordSources(tb, b))|
    {
      hide Merge2, KeepIn;
      ghost var ka, kb := RecordSources(ta, a), RecordSources(tb, b);
      ghost var done: seq<string> := [];
      var ai: nat, bi: nat, more := 0, 0, true;
      count := 0;
      while more
        invariant TablesValid() && SourcesGrown(old(tables), tables)
        invariant MergedUpTo(ka, kb, allowed, ai, bi, done) && count == |done|
        invariant Flat(tables) == old(Flat(tables)) + done
        invariant !more ==> ai >= a.sourceCount && bi >= b.sourceCount
        decreases a.sourceCount + b.sourceCount - ai - bi, more
      {
        more, ai, bi, done := MergeRound(ta, a, ai, tb, b, bi, count == 0, allowed, done);
        if more { count := count + 1; }
      }
      MergedWhole(ka, kb, allowed, done);
    }

    // One round of the merge loop: pass over dropped sources, then write one.
    method MergeRound(ta: Tables, a: Record, ai: nat, tb: Tables, b: Record, bi: nat, first: bool, allowed: set<string>, ghost done: seq<string>)
      returns (more: bool, aj: nat, bj: nat, ghost done': seq<string>)
      requires TablesValid() && Sane(ta) && Sane(tb) && Fits(ta, a) && Fits(tb, b)
      requires StrictlySorted(RecordSources(ta, a)) && StrictlySorted(RecordSources(tb, b))
      requires MergedUpTo(RecordSources(ta, a), RecordSources(tb, b), allowed, ai, bi, done)
      requires first == (done == []) && |done| <= |tables.sourceRefs| && done == Flat(tables)[|tables.sourceRefs| - |done|..]
      modifies this`tables, this`sourceIDs
      ensures TablesValid() && SourcesGrown(old(tables), tables)
      ensures MergedUpTo(RecordSources(ta, a), RecordSources(tb, b), allowed, aj, bj, done')
      ensures ai <= aj && bi <= bj
      ensures if more then
                |done'| == |done| + 1 && done' == done + [done'[|done|]]
                && Flat(tables) == old(Flat(tables)) + [done'[|done|]] && ai + bi < aj + bj
              else
                done' == done && tables == old(tables) && aj >= a.sourceCount && bj >= b.sourceCount
    {
      bj, done' := bi, done;
      aj := SkipDropped(ta, a, allowed, ai, RecordSources(tb, b), bi, done);
      more := aj < a.sourceCount || bj < b.sourceCount;
      if more {
        aj, bj, done' := MergeOneSource(ta, a, aj, tb, b, bj, first, allowed, done);
      }
    }

    // One source written: the smaller of the two next ones, an equal pair once.
    method MergeOneSource(ta: Tables, a: Record, ai: nat, tb: Tables, b: Record, bi: nat, first: bool,
                          ghost allowed: set<string>, ghost done: seq<string>)
      returns (aj: nat, bj: nat, ghost done': seq<string>)
      requires TablesValid() && Sane(ta) && Sane(tb) && Fits(ta, a) && Fits(tb, b)
      requires StrictlySorted(RecordSources(ta, a)) && StrictlySorted(RecordSources(tb, b))
      requires MergedUpTo(RecordSources(ta, a), RecordSources(tb, b), allowed, ai, bi, done)
      requires ai < a.sourceCount ==> RecordSources(ta, a)[ai] in allowed
      requires ai < a.sourceCount || bi < b.sourceCount
      requires first == (done == []) && |done| <= |tables.sourceRefs| && done == Flat(tables)[|tables.sourceRefs| - |done|..]
      modifies this`tables, this`sourceIDs
      ensures TablesValid() && SourcesGrown(old(tables), tables)
      ensures MergedUpTo(RecordSources(ta, a), RecordSources(tb, b), allowed, aj, bj, done')
      ensures |done'| == |done| + 1 && done' == done + [done'[|done|]]
      ensures Flat(tables) == old(Flat(tables)) + [done'[|done|]]
      ensures ai <= aj && bi <= bj && ai + bi < aj + bj
    {
      var key, name;
      key, name, aj, bj := PickSource(ta, a, ai, tb, b, bi, allowed, done);
      done' := done + [key];
      if !first {
        NeverRepeats(RecordSources(ta, a), RecordSources(tb, b), allowed, aj, bj, done, key);
        assert Flat(tables)[|tables.sourceRefs| - 1] == done[|done|-1];
      }
      if first || tables.sourceKeys[tables.sourceRefs[|tables.sourceRefs| - 1]] != key {
        AppendSource(key, name);
      }
    }

    // Appends a record with the given alternates and the merged sources of a and
    // other, its values taken from the dictionaries of m.
    method AppendWithMergedSources(m: Tables, r: Record, alts: seq<Credential>, ta: Tables, a: Record, retained: set<string>,
                                   tb: Tables, other: Record)
      requires Valid() && Sane(ta) && Sane(tb) && Fits(ta, a) && Fits(tb, other)
      requires r.protocolID < |m.protocols| && r.countryID < |m.countries| && r.cityID < |m.cities|
      requires StrictlySorted(RecordSources(ta, a)) && StrictlySorted(RecordSources(tb, other))
      modifies this
      ensures Valid()
      ensures Entries() == old(Entries()) + [WithValues(m, r, Merge2(KeepIn(RecordSources(ta, a), retained), RecordSources(tb, other)), alts)]
      ensures FailedEntries() == old(FailedEntries())
      ensures KnownProtocol(m.protocols[r.protocolID]) && KnownProtocols(old(tables)) ==> KnownProtocols(tables)
    {
      var out := WriteMerged(m, r, alts, ta, a, retained, tb, other);
      Unmoved(old(tables));
      PushRecord(out, alts);
    }

    method WriteMerged(m: Tables, r: Record, ghost alts: seq<Credential>, ta: Tables, a: Record, retained: set<string>,
                       tb: Tables, other: Record) returns (out: Record)
      requires TablesValid() && Sane(ta) && Sane(tb) && Fits(ta, a) && Fits(tb, other)
      requires r.protocolID < |m.protocols| && r.countryID < |m.countries| && r.cityID < |m.cities|
      requires StrictlySorted(RecordSources(ta, a)) && StrictlySorted(RecordSources(tb, other))
      modifies this`tables, this`sourceIDs, this`protocolIDs, this`countryIDs, this`cityIDs
      ensures TablesValid() && Extends(old(tables), tables) && Fits(tables, out)
      ensures MeaningWith(tables, out, alts) == WithValues(m, r, Merge2(KeepIn(RecordSources(ta, a), retained), RecordSources(tb, other)), alts)
      ensures KnownProtocol(m.protocols[r.protocolID]) && KnownProtocols(old(tables)) ==> KnownProtocols(tables)
    {
      out := InternValues(m.protocols[r.protocolID], m.countries[r.countryID], m.cities[r.cityID], r);
      var t := tables;
      assert Flat(t) == Flat(old(tables));
      var count := MergeSources(ta, a, tb, other, retained);
      out := out.(sourceOffset := |t.sourceRefs|, sourceCount := count);
      Placed(t, tables, out, Merge2(KeepIn(RecordSources(ta, a), retained), RecordSources(tb, other)));
    }

    method AppendMergedRecord(m: Tables, r: Record, sa: Snapshot, a: Record, retained: set<string>, sb: Snapshot, other: Record)
      requires Valid() && Sane(sa.tables) && Sane(sb.tables)
      requires Fits(sa.tables, a) && AltsFit(sa.alternates, a) && Fits(sb.tables, other) && AltsFit(sb.alternates, other)
      requires r.protocolID < |m.protocols| && r.countryID < |m.countries| && r.cityID < |m.cities|
      requires StrictlySorted(RecordSources(sa.tables, a)) && StrictlySorted(RecordSources(sb.tables, other))
      modifies this
      ensures Valid()
      ensures Entries() == old(Entries()) + [MergedWith(m, r, Meaning(sa, a), Meaning(sb, other), retained)]
      ensures FailedEntries() == old(FailedEntries())
      ensures KnownProtocol(m.protocols[r.protocolID]) && KnownProtocols(old(tables)) ==> KnownProtocols(tables)
    {
      var kept := RecordHasSourceIn(sa.tables, a, retained);
      var alts, hasAuth := MergedCredentials(r, CopyAlternates(sb.alternates, other), kept, a, CopyAlternates(sa.alternates, a));
      AppendWithMergedSources(m, r.(hasAuth := hasAuth), alts, sa.tables, a, retained, sb.tables, other);
    }

    // The equal-key branch of mergeCandidateSnapshots: the record of this cycle
    // with the outcome of the previous one, and what a retained declaration
    // still has to add.
    method AppendSeenAgain(previous: Snapshot, p: Record, current: Snapshot, c: Record, failedSources: set<string>)
      requires Valid() && Sane(previous.tables) && Sane(current.tables)
      requires Fits(previous.tables, p) && AltsFit(previous.alternates, p) && Fits(current.tables, c) && AltsFit(current.alternates, c)
      requires StrictlySorted(RecordSources(previous.tables, p)) && StrictlySorted(RecordSources(current.tables, c))
      modifies this
      ensures Valid()
      ensures Entries() == old(Entries()) + [MergedEntry(Meaning(previous, p), Meaning(current, c), failedSources)]
      ensures FailedEntries() == old(FailedEntries())
      ensures KnownProtocols(current.tables) && KnownProtocols(old(tables)) ==> KnownProtocols(tables)
    {
      var retained := RecordHasSourceIn(previous.tables, p, failedSources);
      var m, merged := SeenAgain(previous.tables, p, current.tables, c, retained);
      assert current.tables.protocols[c.protocolID] in current.tables.protocols;
      SeenAgainMeans(previous, p, current, c, failedSources, m, merged);
      AppendMergedRecord(m, merged, previous, p, failedSources, current, c);
    }

    // finalizeCredentialAlternates: both collections share one credential table.
    method FinalizeCredentialAlternates() returns (table: seq<Credential>)
      requires Valid()
      modifies this`records, this`failed
      ensures Valid() && Entries() == old(Entries()) && FailedEntries() == old(FailedEntries())
      ensures AllBound(table, records, perRecordAlts) && AllBound(table, RecordsOf(failed), perFailedAlts)
    {
      var half, rs := BindAlternates([], records, perRecordAlts);
      var fs;
      table, fs := BindAlternates(half, RecordsOf(failed), perFailedAlts);
      assert table == half + table[|half|..];
      AllBoundGrows(half, table[|half|..], rs, perRecordAlts);
      ReboundMeans(tables, records, rs, perRecordAlts);
      ReboundMeans(tables, RecordsOf(failed), fs, perFailedAlts);
      records := rs;
      failed := seq(|failed|, i requires 0 <= i < |fs| && |fs| == |failed| reads this => failed[i].(record := fs[i]));
      assert RecordsOf(failed) == fs;
    }

    // The finished snapshot means what the builder holds, alternates cut to
    // sixteen.
    method Finish(meta: Meta) returns (s: Snapshot)
      requires Valid()
      modifies this`records, this`failed
      ensures Grounded(s) && Sane(s.tables) && s.meta == meta && s.tables == tables
      ensures Pending(s) == CapEntries(old(Entries()))
      ensures FailedOf(s) == CapFailed(old(FailedEntries()))
    {
      var table := FinalizeCredentialAlternates();
      s := Snapshot(records, failed, table, tables, meta);
      FinishedMeans(s, perRecordAlts, perFailedAlts);
    }

    // Whether a source reference in the given range stands for the key.
    method HasReference(key: string, start: nat, end: nat) returns (found: bool)
      requires TablesValid() && start <= end <= |tables.sourceRefs|
      ensures found <==> key in Flat(tables)[start..end]
    {
      var offset := start;
      while offset < end
        invariant start <= offset <= end
        invariant key !in Flat(tables)[start..offset]
      {
        assert Flat(tables)[offset] == tables.sourceKeys[tables.sourceRefs[offset]];
        if tables.sourceKeys[tables.sourceRefs[offset]] == key {
          assert Flat(tables)[start..end][offset - start] == key;
          return true;
        }
        assert Flat(tables)[start..offset + 1] == Flat(tables)[start..offset] + [Flat(tables)[offset]];
        offset := offset + 1;
      }
      found := false;
    }

    method AppendUnlessPresent(key: string, name: string, start: nat, end: nat) returns (added: nat)
      requires TablesValid() && start <= end <= |tables.sourceRefs| && key != ""
      modifies this`tables, this`sourceIDs
      ensures TablesValid() && SourcesGrown(old(tables), tables)
      ensures added == if key in old(Flat(tables))[start..end] then 0 else 1
      ensures Flat(tables) == old(Flat(tables)) + if added == 0 then [] else [key]
    {
      var duplicate := HasReference(key, start, end);
      added := 0;
      if !duplicate {
        AppendSource(key, name);
        added := 1;
      }
    }

    // Appends the sources of r that the references from start on lack.
    method AppendMissing(t: Tables, r: Record, start: nat, ghost own: seq<string>) returns (count: nat)
      requires TablesValid() && Sane(t) && Fits(t, r) && start <= |tables.sourceRefs|
      requires own == Flat(tables)[start..]
      modifies this`tables, this`sourceIDs
      ensures TablesValid() && SourcesGrown(old(tables), tables)
      ensures Flat(tables) == old(Flat(tables)) + Missing(own, RecordSources(t, r))
      ensures count == |Missing(own, RecordSources(t, r))|
    {
      ghost var keys, flat := RecordSources(t, r), Flat(tables);
      var end := |tables.sourceRefs|;
      ghost var done: seq<string> := [];
      var i := 0;
      count := 0;
      while i < r.sourceCount
        invariant 0 <= i <= r.sourceCount && done == Missing(own, keys[..i]) && count == |done|
        invariant TablesValid() && SourcesGrown(old(tables), tables)
        invariant Flat(tables) == flat + done
      {
        OwnStays(flat, own, done, start, end);
        var added;
        added, done := AppendMissingOne(t, r, i, start, end, own, done);
        count := count + added;
        i := i + 1;
      }
      assert keys[..r.sourceCount] == keys;
    }

    method AppendMissingOne(t: Tables, r: Record, i: nat, start: nat, end: nat, ghost own: seq<string>, ghost done: seq<string>)
      returns (added: nat, ghost done': seq<string>)
      requires TablesValid() && Sane(t) && Fits(t, r) && i < r.sourceCount
      requires start <= end <= |tables.sourceRefs| && Flat(tables)[start..end] == own
      requires done == Missing(own, RecordSources(t, r)[..i])
      modifies this`tables, this`sourceIDs
      ensures TablesValid() && SourcesGrown(old(tables), tables)
      ensures done' == Missing(own, RecordSources(t, r)[..i + 1]) && |done'| == |done| + added && done <= done'
      ensures Flat(tables) == old(Flat(tables)) + done'[|done|..]
    {
      SourcesAt(t, r, i);
      var ref := t.sourceRefs[r.sourceOffset + i];
      assert t.sourceKeys[ref] in t.sourceKeys;
      MissingNext(own, RecordSources(t, r), i);
      added := AppendUnlessPresent(t.sourceKeys[ref], t.sources[ref], start, end);
      done' := done + if added == 0 then [] else [t.sourceKeys[ref]];
    }

    // Sorts the references from start on by key, in place.
    method SortSegment(start: nat, ghost a: seq<string>, ghost b: seq<string>)
      requires TablesValid() && start <= |tables.sourceRefs|
      requires Flat(tables)[start..] == a + Missing(a, b) && StrictlySorted(a) && StrictlySorted(b)
      modifies this`tables
      ensures TablesValid() && tables == old(tables).(sourceRefs := tables.sourceRefs)
      ensures |tables.sourceRefs| == old(|tables.sourceRefs|) && tables.sourceRefs[..start] == old(tables.sourceRefs[..start])
      ensures Flat(tables) == old(Flat(tables)[..start]) + Merge2(a, b)
    {
      SegmentKeys(tables, start);
      SegmentIsMerge(tables.sourceKeys, tables.sourceRefs[start..], a, b);
      var sorted: seq<nat> := SortBy<nat>(RefLess(tables.sourceKeys), tables.sourceRefs[start..]);
      SegmentReplaced(tables, start, sorted);
      tables := tables.(sourceRefs := tables.sourceRefs[..start] + sorted);
    }

    // Adds the sources of r to the record written last, in order.
    method JoinSources(written: Record, t: Tables, r: Record) returns (out: Record)
      requires TablesValid() && Sane(t) && Fits(t, r) && Fits(tables, written)
      requires written.sourceOffset + written.sourceCount == |tables.sourceRefs|
      requires StrictlySorted(RecordSources(tables, written)) && StrictlySorted(RecordSources(t, r))
      modifies this`tables, this`sourceIDs
      ensures TablesValid() && Fits(tables, out) && Reordered(old(tables), tables, written.sourceOffset)
      ensures out == written.(sourceCount := out.sourceCount)
      ensures RecordSources(tables, out) == Merge2(old(RecordSources(tables, written)), RecordSources(t, r))
    {
      hide Merge2, Missing;
      ghost var own, more := RecordSources(tables, written), RecordSources(t, r);
      SourcesAreFlat(tables, written);
      ghost var front := Flat(tables)[..written.sourceOffset];
      assert Flat(tables) == front + own;
      var count := AppendMissing(t, r, written.sourceOffset, own);
      assert Flat(tables) == front + (own + Missing(own, more));
      SortSegment(written.sourceOffset, own, more);
      out := written.(sourceCount := written.sourceCount + count);
      assert Flat(tables) == front + Merge2(own, more);
      SourcesAreFlat(tables, out);
    }

    // A record of s with the sources of f joined to its own.
    method WriteJoined(s: Snapshot, r: Record, tf: Tables, f: Record, ghost alts: seq<Credential>) returns (out: Record)
      requires TablesValid() && Sane(s.tables) && Sane(tf)
      requires Fits(s.tables, r) && AltsFit(s.alternates, r) && Fits(tf, f)
      requires RecordSources(s.tables, r) != [] && StrictlySorted(RecordSources(s.tables, r)) && StrictlySorted(RecordSources(tf, f))
      modifies this`tables, this`sourceIDs, this`protocolIDs, this`countryIDs, this`cityIDs
      ensures TablesValid() && Extends(old(tables), tables) && Fits(tables, out)
      ensures MeaningWith(tables, out, alts)
              == Meaning(s, r).(sources := Merge2(RecordSources(s.tables, r), RecordSources(tf, f)), alternates := alts)
      ensures KnownProtocols(s.tables) && KnownProtocols(old(tables)) ==> KnownProtocols(tables)
    {
      var written, own := TranslateRecord(s, r);
      ghost var t := tables;
      out := JoinSources(written, tf, f);
      ReorderedExtends(old(tables), t, tables, written.sourceOffset);
      ReorderedMeans(t, tables, written, out, own, alts);
    }

    // The rediscovered branch of reconcileCandidateFailures.
    method AppendRediscovered(current: Snapshot, r: Record, previous: Snapshot, f: Failure)
      requires Valid() && Sane(current.tables) && Sane(previous.tables)
      requires Fits(current.tables, r) && AltsFit(current.alternates, r)
      requires Fits(previous.tables, f.record) && AltsFit(previous.alternates, f.record)
      requires RecordSources(current.tables, r) != [] && StrictlySorted(RecordSources(current.tables, r))
      requires StrictlySorted(RecordSources(previous.tables, f.record))
      modifies this
      ensures Valid()
      ensures FailedEntries() == old(FailedEntries())
              + [Rediscovered(Meaning(current, r), FailedEntry(Meaning(previous, f.record), f.kind, f.lastError))]
      ensures Entries() == old(Entries())
      ensures KnownProtocols(current.tables) && KnownProtocols(old(tables)) ==> KnownProtocols(tables)
    {
      var merged, alts := RediscoveredRecord(r, CopyAlternates(current.alternates, r), f.record, CopyAlternates(previous.alternates, f.record));
      var out := WriteJoined(current, merged, previous.tables, f.record, alts);
      Unmoved(old(tables));
      RediscoveredMeans(current, r, previous, f, merged, alts);
      PushFailure(Failure(out, f.kind, f.lastError), alts);
    }

    // The permutation sort of reconcileCandidateFailures: failures and their
    // alternates move together.
    method SortFailures()
      requires Valid() && DistinctFailedKeys(FailedEntries())
      modifies this`failed, this`perFailedAlts
      ensures Valid() && Entries() == old(Entries())
      ensures FailedSorted(FailedEntries())
      ensures forall x :: x in FailedEntries() <==> x in old(FailedEntries())
    {
      hide SortBy, FailedSorted;
      ghost var before := FailedEntries();
      var keys := FailureKeys(tables, failed);
      var order: seq<nat> := SortBy<nat>(IndexLess(keys), Indices(|failed|));
      assert forall i | 0 <= i < |keys| :: keys[i] == before[i].entry.key;
      IndicesSorted(keys);
      var sortedFailures, sortedAlts := [], [];
      for newPos := 0 to |order|
        invariant |sortedFailures| == |sortedAlts| == newPos
        invariant forall m | 0 <= m < newPos :: sortedFailures[m] == failed[order[m]] && sortedAlts[m] == perFailedAlts[order[m]]
      {
        sortedFailures := sortedFailures + [failed[order[newPos]]];
        sortedAlts := sortedAlts + [perFailedAlts[order[newPos]]];
      }
      PermutedMeans(tables, failed, perFailedAlts, order, sortedFailures, sortedAlts);
      PermutedSorted(before, keys, order, MeansFailed(tables, sortedFailures, sortedAlts));
      failed := sortedFailures;
      perFailedAlts := sortedAlts;
    }

    // The stable sort of buildCandidateSnapshot: records and their alternates
    // move together.
    method SortRecords()
      requires Valid()
      modifies this`records, this`perRecordAlts
      ensures Valid() && FailedEntries() == old(FailedEntries())
      ensures Entries() == SortBy(EntryLess(), old(Entries()))
    {
      var items := Items(records, perRecordAlts);
      var sorted := SortBy(ItemLess(tables.protocols), items);
      assert Mirrors(tables, items, Entries());
      SortMirrors(tables, items, Entries());
      UnzippedMeans(tables, sorted, SortBy(EntryLess(), Entries()));
      records := RecordsIn(sorted);
      perRecordAlts := AltsIn(sorted);
    }
  }
}
