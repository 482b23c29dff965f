// The pieces of candidateSnapshotBuilder that touch no builder state
// (candidate_catalog.go): credential merging and binding, the two-index source
// merge, the segment re-sort and the permutation sort, each with its meaning.
module CatalogParts {
  import opened Proxies
  import opened CatalogModel
  import opened CatalogTables
  import opened CatalogMerge
  import opened Credentials
  import opened CatalogReconcile
  import opened Sorting
  import Lexicographic

  const LEGACY := "legacy-name:"

  function LegacyKey(name: string): string { LEGACY + name }

  // internSource files a source without a key under its label.
  function InternedKey(key: string, name: string): string { if key == "" then LegacyKey(name) else key }

  // translateRecord gives a record without sources the unknown one.
  function Translated(e: Entry): Entry { e.(sources := SourcesOrUnknown(e.sources)) }

  function SourcesOrUnknown(ks: seq<string>): seq<string> { if ks == [] then [LegacyKey("")] else ks }

  // The tables grew and kept the three value dictionaries.
  ghost predicate SourcesGrown(t: Tables, u: Tables) {
    Extends(t, u) && u.protocols == t.protocols && u.countries == t.countries && u.cities == t.cities
  }

  // Only the three value dictionaries grew.
  ghost predicate ValuesGrown(t: Tables, u: Tables) {
    Extends(t, u) && u.sourceRefs == t.sourceRefs && u.sourceKeys == t.sourceKeys && u.sources == t.sources
  }

  // What appendMergedRecord writes for a record whose values the dictionaries of
  // m hold, given the meanings of the two records it merges.
  ghost function MergedWith(m: Tables, r: Record, a: Entry, other: Entry, retained: set<string>): Entry
    requires r.protocolID < |m.protocols| && r.countryID < |m.countries| && r.cityID < |m.cities|
  {
    var kept := HasSourceIn(a, retained);
    var alts := if kept then MergeAlternates(other.alternates, r.credential, a.credential, a.alternates) else other.alternates;
    WithValues(m, r.(hasAuth := r.hasAuth || (kept && a.hasAuth) || HasCredentials(r.credential) || AnyCredentials(alts)),
               Merge2(KeepIn(a.sources, retained), other.sources), alts)
  }

  // A record's values looked up in m, its sources and alternates given.
  function WithValues(m: Tables, r: Record, sources: seq<string>, alts: seq<Credential>): Entry
    requires r.protocolID < |m.protocols| && r.countryID < |m.countries| && r.cityID < |m.cities|
  {
    Entry(Key(m.protocols[r.protocolID], r.addr), r.credential, m.countries[r.countryID], m.cities[r.cityID], r.continent,
          r.status, r.hasAuth, r.seenUnix, r.checkedUnix, sources, alts)
  }

  // A snapshot keeps at most sixteen alternates a record.
  function Capped(cs: seq<Credential>): seq<Credential> { if |cs| > MAX_ALTERNATES then cs[..MAX_ALTERNATES] else cs }

  ghost function CapEntries(es: seq<Entry>): (r: seq<Entry>)
    ensures |r| == |es|
    ensures (forall e | e in es :: |e.alternates| <= MAX_ALTERNATES) ==> r == es
  {
    seq(|es|, i requires 0 <= i < |es| => es[i].(alternates := Capped(es[i].alternates)))
  }

  ghost function CapFailed(fs: seq<FailedEntry>): (r: seq<FailedEntry>)
    ensures |r| == |fs|
    ensures (forall f | f in fs :: |f.entry.alternates| <= MAX_ALTERNATES) ==> r == fs
  {
    seq(|fs|, i requires 0 <= i < |fs| => fs[i].(entry := fs[i].entry.(alternates := Capped(fs[i].entry.alternates))))
  }

  // ------------------------------------------------- two declarations' sources

  // The keys of b that a does not have, in order.
  function Missing(a: seq<string>, b: seq<string>): seq<string> {
    if b == [] then [] else Missing(a, b[..|b|-1]) + (if b[|b|-1] in a then [] else [b[|b|-1]])
  }

  lemma {:induction false} MissingElements(a: seq<string>, b: seq<string>)
    ensures forall k :: k in Missing(a, b) <==> k in b && k !in a
  {
    if b != [] {
      MissingElements(a, b[..|b|-1]);
      assert b == b[..|b|-1] + [b[|b|-1]];
    }
  }

  lemma MissingNext(a: seq<string>, b: seq<string>, i: nat)
    requires i < |b|
    ensures Missing(a, b[..i + 1]) == Missing(a, b[..i]) + if b[i] in a then [] else [b[i]]
  {
    assert b[..i + 1][..i] == b[..i];
  }

  lemma OwnStays(flat: seq<string>, own: seq<string>, done: seq<string>, start: nat, end: nat)
    requires start <= end == |flat| && own == flat[start..]
    ensures (flat + done)[start..end] == own
  {
  }

  ghost predicate AllDistinct(ks: seq<string>) { forall i, j | 0 <= i < j < |ks| :: ks[i] != ks[j] }

  lemma {:induction false} MissingDistinct(a: seq<string>, b: seq<string>)
    requires AllDistinct(b)
    ensures AllDistinct(Missing(a, b))
  {
    if b != [] {
      var init, last := b[..|b|-1], b[|b|-1];
      assert AllDistinct(init) by { forall i, j | 0 <= i < j < |init| ensures init[i] != init[j] { assert b[i] != b[j]; } }
      MissingDistinct(a, init);
      MissingElements(a, init);
      assert last !in init;
    }
  }

  lemma JoinDistinct(a: seq<string>, b: seq<string>)
    requires StrictlySorted(a) && StrictlySorted(b)
    ensures AllDistinct(a + Missing(a, b))
    ensures forall k :: k in a + Missing(a, b) <==> k in Merge2(a, b)
  {
    SortedDistinct(a);
    SortedDistinct(b);
    MissingElements(a, b);
    MissingDistinct(a, b);
    Merge2Elements(a, b);
    var c := a + Missing(a, b);
    forall i, j | 0 <= i < j < |c| ensures c[i] != c[j] {
      if i < |a| && |a| <= j { assert c[j] in Missing(a, b) && c[i] in a; }
    }
  }

  // References ordered by the keys they stand for.
  function RefLess(keys: seq<string>): (nat, nat) -> bool {
    (x: nat, y: nat) => x < |keys| && y < |keys| && Lexicographic.Less(keys[x], keys[y])
  }

  function KeysOf(keys: seq<string>, refs: seq<nat>): (ks: seq<string>)
    requires forall i | 0 <= i < |refs| :: refs[i] < |keys|
    ensures |ks| == |refs|
  {
    seq(|refs|, i requires 0 <= i < |refs| => keys[refs[i]])
  }

  ghost predicate RefsBelow(refs: seq<nat>, n: nat) { forall i | 0 <= i < |refs| :: refs[i] < n }

  lemma RefOrder(keys: seq<string>, refs: seq<nat>)
    requires RefsBelow(refs, |keys|) && AllDistinct(KeysOf(keys, refs))
    ensures StrictOrderOn(RefLess(keys), refs)
  {
    var less := RefLess(keys);
    forall x | x in refs ensures !less(x, x) { if x < |keys| { Lexicographic.Irreflexive(keys[x]); } }
    forall x, y, z | x in refs && y in refs && z in refs && less(x, y) && less(y, z) ensures less(x, z) {
      Lexicographic.Transitive(keys[x], keys[y], keys[z]);
    }
    forall i, j | 0 <= i < j < |refs| ensures less(refs[i], refs[j]) || less(refs[j], refs[i]) {
      assert KeysOf(keys, refs)[i] != KeysOf(keys, refs)[j];
      Lexicographic.Trichotomy(keys[refs[i]], keys[refs[j]]);
    }
  }

  // Sorting distinct references puts their keys in strict order and loses none.
  lemma SortedRefs(keys: seq<string>, refs: seq<nat>)
    requires RefsBelow(refs, |keys|) && AllDistinct(KeysOf(keys, refs))
    ensures var s := SortBy(RefLess(keys), refs);
            && RefsBelow(s, |keys|) && StrictlySorted(KeysOf(keys, s))
            && forall k :: k in KeysOf(keys, s) <==> k in KeysOf(keys, refs)
  {
    var less := RefLess(keys);
    RefOrder(keys, refs);
    SortAscending(less, refs);
    var s := SortBy(less, refs);
    SameElements(s, refs);
    forall i | 0 <= i < |s| ensures s[i] < |keys| { assert s[i] in refs; }
    forall i, j | 0 <= i < j < |s| ensures Lexicographic.Less(KeysOf(keys, s)[i], KeysOf(keys, s)[j]) { assert less(s[i], s[j]); }
    SameKeys(keys, s, refs);
    SameKeys(keys, refs, s);
  }

  lemma SameKeys(keys: seq<string>, a: seq<nat>, b: seq<nat>)
    requires RefsBelow(a, |keys|) && RefsBelow(b, |keys|) && forall x | x in a :: x in b
    ensures forall k | k in KeysOf(keys, a) :: k in KeysOf(keys, b)
  {
    forall k | k in KeysOf(keys, a) ensures k in KeysOf(keys, b) {
      var i :| 0 <= i < |a| && KeysOf(keys, a)[i] == k;
      assert a[i] in b;
      var j :| 0 <= j < |b| && b[j] == a[i];
      assert KeysOf(keys, b)[j] == k;
    }
  }

  // The re-sorted segment of a rediscovered failure spells out the merged lists.
  lemma SegmentIsMerge(keys: seq<string>, refs: seq<nat>, a: seq<string>, b: seq<string>)
    requires RefsBelow(refs, |keys|) && KeysOf(keys, refs) == a + Missing(a, b)
    requires StrictlySorted(a) && StrictlySorted(b)
    ensures RefsBelow(SortBy(RefLess(keys), refs), |keys|)
    ensures KeysOf(keys, SortBy(RefLess(keys), refs)) == Merge2(a, b)
  {
    JoinDistinct(a, b);
    SortedRefs(keys, refs);
    Merge2Sorted(a, b);
    SortedStringsUnique(KeysOf(keys, SortBy(RefLess(keys), refs)), Merge2(a, b));
  }

  lemma SegmentKeys(t: Tables, start: nat)
    requires RefsIn(t) && start <= |t.sourceRefs|
    ensures RefsBelow(t.sourceRefs[start..], |t.sourceKeys|)
    ensures KeysOf(t.sourceKeys, t.sourceRefs[start..]) == Flat(t)[start..]
  {
  }

  lemma SegmentReplaced(t: Tables, start: nat, segment: seq<nat>)
    requires RefsIn(t) && start <= |t.sourceRefs| && RefsBelow(segment, |t.sourceKeys|)
    ensures var u := t.(sourceRefs := t.sourceRefs[..start] + segment);
            RefsIn(u) && Flat(u) == Flat(t)[..start] + KeysOf(t.sourceKeys, segment)
  {
  }

  // The range of r in the credential table holds its own alternates.
  ghost predicate Bound(table: seq<Credential>, r: Record, cs: seq<Credential>) {
    AltsFit(table, r) && RecordAlternates(table, r) == Capped(cs)
  }

  lemma BoundGrows(table: seq<Credential>, more: seq<Credential>, r: Record, cs: seq<Credential>)
    requires Bound(table, r, cs)
    ensures Bound(table + more, r, cs)
  {
    assert (table + more)[r.altOffset..r.altOffset + r.altCount] == table[r.altOffset..r.altOffset + r.altCount];
  }

  ghost predicate AllBound(table: seq<Credential>, rs: seq<Record>, alts: seq<seq<Credential>>) {
    |alts| == |rs| && forall i | 0 <= i < |rs| :: Bound(table, rs[i], alts[i])
  }

  lemma AllBoundGrows(table: seq<Credential>, more: seq<Credential>, rs: seq<Record>, alts: seq<seq<Credential>>)
    requires AllBound(table, rs, alts)
    ensures AllBound(table + more, rs, alts)
  {
    forall i | 0 <= i < |rs| ensures Bound(table + more, rs[i], alts[i]) { BoundGrows(table, more, rs[i], alts[i]); }
  }

  // The same record but for where its alternates are.
  ghost predicate Rebound(r: Record, out: Record) { out == r.(altOffset := out.altOffset, altCount := out.altCount) }

  // The appendAlternates closure of finalizeCredentialAlternates.
  method AppendAlternates(start: seq<Credential>, r: Record, cs: seq<Credential>) returns (table: seq<Credential>, out: Record)
    ensures start <= table && Rebound(r, out) && Bound(table, out, cs)
  {
    var kept := if |cs| > MAX_ALTERNATES then cs[..MAX_ALTERNATES] else cs;
    out := r.(altOffset := |start|, altCount := |kept|);
    table := start + kept;
  }

  method BindAlternates(start: seq<Credential>, rs: seq<Record>, alts: seq<seq<Credential>>)
    returns (table: seq<Credential>, out: seq<Record>)
    requires |alts| == |rs|
    ensures start <= table && AllBound(table, out, alts)
    ensures |out| == |rs| && forall i | 0 <= i < |rs| :: Rebound(rs[i], out[i])
  {
    table, out := start, [];
    for i := 0 to |rs|
      invariant start <= table && AllBound(table, out, alts[..i])
      invariant |out| == i && forall j | 0 <= j < i :: Rebound(rs[j], out[j])
    {
      var grown, r := AppendAlternates(table, rs[i], alts[i]);
      assert grown == table + grown[|table|..];
      AllBoundGrows(table, grown[|table|..], out, alts[..i]);
      table, out := grown, out + [r];
    }
  }

  // ------------------------------------------------------------ credentials

  // copyCredentialAlternates
  function CopyAlternates(alternates: seq<Credential>, r: Record): (cs: seq<Credential>)
    ensures AltsFit(alternates, r) ==> cs == RecordAlternates(alternates, r)
  {
    if r.altCount == 0 || r.altOffset + r.altCount > |alternates| then []
    else alternates[r.altOffset..r.altOffset + r.altCount]
  }

  method MergeCredentialAlternates(primaryAlts: seq<Credential>, primary: Credential, fallback: Credential, fallbackAlts: seq<Credential>)
    returns (merged: seq<Credential>)
    ensures merged == MergeAlternates(primaryAlts, primary, fallback, fallbackAlts)
  {
    var seen: set<Credential>;
    merged, seen := AppendCredentials(MAX_ALTERNATES, [], {primary}, primary, primaryAlts);
    merged, seen := AppendCredentials(MAX_ALTERNATES, merged, seen, primary, [fallback]);
    AppendNewSplit(MAX_ALTERNATES, [], primary, primaryAlts, [fallback]);
    merged, seen := AppendCredentials(MAX_ALTERNATES, merged, seen, primary, fallbackAlts);
    AppendNewSplit(MAX_ALTERNATES, [], primary, primaryAlts + [fallback], fallbackAlts);
  }

  method HaveAuth(cs: seq<Credential>) returns (found: bool)
    ensures found <==> AnyCredentials(cs)
  {
    for i := 0 to |cs|
      invariant forall j | 0 <= j < i :: !HasCredentials(cs[j])
    {
      if HasCredentials(cs[i]) { return true; }
    }
    found := false;
  }

  // recordHasSourceIn
  method RecordHasSourceIn(t: Tables, r: Record, allowed: set<string>) returns (found: bool)
    requires RefsIn(t) && Fits(t, r)
    ensures found <==> exists k | k in RecordSources(t, r) :: k in allowed
  {
    var i := 0;
    while i < r.sourceCount
      invariant 0 <= i <= r.sourceCount
      invariant forall j | 0 <= j < i :: RecordSources(t, r)[j] !in allowed
    {
      SourcesAt(t, r, i);
      if t.sourceKeys[t.sourceRefs[r.sourceOffset + i]] in allowed {
        assert RecordSources(t, r)[i] in RecordSources(t, r);
        return true;
      }
      i := i + 1;
    }
    found := false;
  }

  // --------------------------------------------------------------- builder

  // A record whose sources are the last ones written.
  lemma Placed(t0: Tables, t: Tables, out: Record, keys: seq<string>)
    requires RefsIn(t0) && RefsIn(t) && Flat(t) == Flat(t0) + keys
    requires out.protocolID < |t.protocols| && out.countryID < |t.countries| && out.cityID < |t.cities|
    requires out.sourceOffset == |t0.sourceRefs| && out.sourceCount == |keys|
    ensures Fits(t, out) && RecordSources(t, out) == keys
  {
    assert |Flat(t)| == |t.sourceRefs| && |Flat(t0)| == |t0.sourceRefs|;
    SourcesAreFlat(t, out);
  }

  // done is what the filter keeps of the first i keys.
  ghost predicate KeptUpTo(keys: seq<string>, i: nat, allowed: set<string>, done: seq<string>) {
    i <= |keys| && done + KeepIn(keys[i..], allowed) == KeepIn(keys, allowed)
  }

  lemma KeptNext(keys: seq<string>, i: nat, allowed: set<string>, done: seq<string>)
    requires i < |keys| && KeptUpTo(keys, i, allowed, done)
    ensures KeptUpTo(keys, i + 1, allowed, if keys[i] in allowed then done + [keys[i]] else done)
  {
    assert keys[i..][1..] == keys[i + 1..];
    assert done + ([keys[i]] + KeepIn(keys[i + 1..], allowed)) == (done + [keys[i]]) + KeepIn(keys[i + 1..], allowed);
  }

  // done is what the merge has written when it stands at ai and bi.
  ghost predicate MergedUpTo(a: seq<string>, b: seq<string>, allowed: set<string>, ai: nat, bi: nat, done: seq<string>) {
    && ai <= |a| && bi <= |b|
    && done + Merge2(KeepIn(a[ai..], allowed), b[bi..]) == Merge2(KeepIn(a, allowed), b)
  }

  lemma MergedWhole(a: seq<string>, b: seq<string>, allowed: set<string>, done: seq<string>)
    ensures MergedUpTo(a, b, allowed, |a|, |b|, done) ==> done == Merge2(KeepIn(a, allowed), b)
  {
    assert a[|a|..] == [] && b[|b|..] == [] && done + [] == done;
  }

  // Sources of a that are not retained are passed over.
  lemma SkipOne(a: seq<string>, b: seq<string>, allowed: set<string>, ai: nat, bi: nat, done: seq<string>)
    requires MergedUpTo(a, b, allowed, ai, bi, done) && ai < |a| && a[ai] !in allowed
    ensures MergedUpTo(a, b, allowed, ai + 1, bi, done)
  {
    assert a[ai..][1..] == a[ai + 1..];
    assert KeepIn(a[ai..], allowed) == KeepIn(a[ai + 1..], allowed);
  }

  method SkipDropped(t: Tables, r: Record, allowed: set<string>, from: nat, ghost b: seq<string>, ghost bi: nat, ghost done: seq<string>)
    returns (ai: nat)
    requires RefsIn(t) && Fits(t, r) && MergedUpTo(RecordSources(t, r), b, allowed, from, bi, done)
    ensures MergedUpTo(RecordSources(t, r), b, allowed, ai, bi, done)
    ensures from <= ai && (ai < r.sourceCount ==> RecordSources(t, r)[ai] in allowed)
  {
    ai := from;
    while ai < r.sourceCount
      invariant from <= ai && MergedUpTo(RecordSources(t, r), b, allowed, ai, bi, done)
    {
      SourcesAt(t, r, ai);
      if t.sourceKeys[t.sourceRefs[r.sourceOffset + ai]] in allowed { return; }
      SkipOne(RecordSources(t, r), b, allowed, ai, bi, done);
      ai := ai + 1;
    }
  }

  // Moving the head of the kept keys, of b, or of both, behind what is written.
  lemma TakeLeft(x: seq<string>, y: seq<string>, done: seq<string>)
    requires x != [] && (y == [] || Lexicographic.Less(x[0], y[0]))
    ensures done + Merge2(x, y) == (done + [x[0]]) + Merge2(x[1..], y)
  {
    if y == [] { MergeRightEmpty(x[1..]); }
    assert Merge2(x, y) == [x[0]] + Merge2(x[1..], y);
  }

  lemma TakeRight(x: seq<string>, y: seq<string>, done: seq<string>)
    requires y != [] && (x == [] || (!Lexicographic.Less(x[0], y[0]) && Lexicographic.Less(y[0], x[0])))
    ensures done + Merge2(x, y) == (done + [y[0]]) + Merge2(x, y[1..])
  {
    if x == [] { assert y == [y[0]] + y[1..]; }
    var rest := Merge2(x, y[1..]);
    assert Merge2(x, y) == [y[0]] + rest;
    assert done + ([y[0]] + rest) == (done + [y[0]]) + rest;
  }

  lemma TakeBoth(x: seq<string>, y: seq<string>, done: seq<string>)
    requires x != [] && y != [] && !Lexicographic.Less(x[0], y[0]) && !Lexicographic.Less(y[0], x[0])
    ensures done + Merge2(x, y) == (done + [x[0]]) + Merge2(x[1..], y[1..])
  {
    assert Merge2(x, y) == [x[0]] + Merge2(x[1..], y[1..]);
  }

  lemma MergeRightEmpty(a: seq<string>)
    ensures Merge2(a, []) == a
  {
  }

  lemma KeptHead(a: seq<string>, allowed: set<string>, ai: nat)
    requires ai < |a| && a[ai] in allowed
    ensures var x := KeepIn(a[ai..], allowed); x != [] && x[0] == a[ai] && x[1..] == KeepIn(a[ai + 1..], allowed)
  {
    assert a[ai..][1..] == a[ai + 1..];
    assert KeepIn(a[ai..], allowed) == [a[ai]] + KeepIn(a[ai + 1..], allowed);
  }

  lemma NextLeft(a: seq<string>, b: seq<string>, allowed: set<string>, ai: nat, bi: nat, done: seq<string>)
    requires MergedUpTo(a, b, allowed, ai, bi, done) && ai < |a| && a[ai] in allowed
    requires bi == |b| || Lexicographic.Less(a[ai], b[bi])
    ensures MergedUpTo(a, b, allowed, ai + 1, bi, done + [a[ai]])
  {
    KeptHead(a, allowed, ai);
    TakeLeft(KeepIn(a[ai..], allowed), b[bi..], done);
  }

  lemma NextRight(a: seq<string>, b: seq<string>, allowed: set<string>, ai: nat, bi: nat, done: seq<string>)
    requires MergedUpTo(a, b, allowed, ai, bi, done) && bi < |b|
    requires ai == |a| || (a[ai] in allowed && !Lexicographic.Less(a[ai], b[bi]) && Lexicographic.Less(b[bi], a[ai]))
    ensures MergedUpTo(a, b, allowed, ai, bi + 1, done + [b[bi]])
  {
    if ai < |a| { KeptHead(a, allowed, ai); }
    assert b[bi..][1..] == b[bi + 1..];
    TakeRight(KeepIn(a[ai..], allowed), b[bi..], done);
  }

  lemma NextBoth(a: seq<string>, b: seq<string>, allowed: set<string>, ai: nat, bi: nat, done: seq<string>)
    requires MergedUpTo(a, b, allowed, ai, bi, done) && ai < |a| && bi < |b| && a[ai] in allowed
    requires !Lexicographic.Less(a[ai], b[bi]) && !Lexicographic.Less(b[bi], a[ai])
    ensures MergedUpTo(a, b, allowed, ai + 1, bi + 1, done + [a[ai]])
  {
    KeptHead(a, allowed, ai);
    assert b[bi..][1..] == b[bi + 1..];
    TakeBoth(KeepIn(a[ai..], allowed), b[bi..], done);
  }

  // The written keys never repeat: the guard against the last one always passes.
  lemma NeverRepeats(a: seq<string>, b: seq<string>, allowed: set<string>, ai: nat, bi: nat, done: seq<string>, key: string)
    requires StrictlySorted(a) && StrictlySorted(b)
    requires MergedUpTo(a, b, allowed, ai, bi, done + [key]) && done != []
    ensures done[|done|-1] != key
  {
    KeepInSorted(a, allowed);
    Merge2Sorted(KeepIn(a, allowed), b);
    var all := Merge2(KeepIn(a, allowed), b);
    assert all[|done|-1] == done[|done|-1] && all[|done|] == key;
    Lexicographic.Asymmetric(all[|done|-1], all[|done|]);
  }

  // One round of the merge loop, after the skip.
  method PickSource(ta: Tables, a: Record, ai: nat, tb: Tables, b: Record, bi: nat, ghost allowed: set<string>, ghost done: seq<string>)
    returns (key: string, name: string, aj: nat, bj: nat)
    requires Sane(ta) && Sane(tb) && Fits(ta, a) && Fits(tb, b)
    requires MergedUpTo(RecordSources(ta, a), RecordSources(tb, b), allowed, ai, bi, done)
    requires ai < a.sourceCount ==> RecordSources(ta, a)[ai] in allowed
    requires ai < a.sourceCount || bi < b.sourceCount
    ensures MergedUpTo(RecordSources(ta, a), RecordSources(tb, b), allowed, aj, bj, done + [key])
    ensures ai <= aj <= a.sourceCount && bi <= bj <= b.sourceCount && ai + bi < aj + bj
    ensures key != ""
  {
    ghost var ka, kb := RecordSources(ta, a), RecordSources(tb, b);
    if ai >= a.sourceCount {
      SourcesAt(tb, b, bi);
      var br := tb.sourceRefs[b.sourceOffset + bi];
      assert tb.sourceKeys[br] in tb.sourceKeys;
      NextRight(ka, kb, allowed, ai, bi, done);
      return tb.sourceKeys[br], tb.sources[br], ai, bi + 1;
    }
    SourcesAt(ta, a, ai);
    var ar := ta.sourceRefs[a.sourceOffset + ai];
    assert ta.sourceKeys[ar] in ta.sourceKeys;
    if bi >= b.sourceCount {
      NextLeft(ka, kb, allowed, ai, bi, done);
      return ta.sourceKeys[ar], ta.sources[ar], ai + 1, bi;
    }
    SourcesAt(tb, b, bi);
    var br := tb.sourceRefs[b.sourceOffset + bi];
    assert tb.sourceKeys[br] in tb.sourceKeys;
    if Lexicographic.Less(ta.sourceKeys[ar], tb.sourceKeys[br]) {
      NextLeft(ka, kb, allowed, ai, bi, done);
      return ta.sourceKeys[ar], ta.sources[ar], ai + 1, bi;
    } else if Lexicographic.Less(tb.sourceKeys[br], ta.sourceKeys[ar]) {
      NextRight(ka, kb, allowed, ai, bi, done);
      return tb.sourceKeys[br], tb.sources[br], ai, bi + 1;
    }
    NextBoth(ka, kb, allowed, ai, bi, done);
    key, name, aj, bj := ta.sourceKeys[ar], tb.sources[br], ai + 1, bi + 1;
  }

  // The credentials of appendMergedRecord and whether any is set.
  method MergedCredentials(r: Record, own: seq<Credential>, kept: bool, a: Record, fallback: seq<Credential>)
    returns (alts: seq<Credential>, hasAuth: bool)
    ensures alts == if kept then MergeAlternates(own, r.credential, a.credential, fallback) else own
    ensures hasAuth == (r.hasAuth || (kept && a.hasAuth) || HasCredentials(r.credential) || AnyCredentials(alts))
  {
    alts, hasAuth := own, r.hasAuth;
    if kept {
      alts := MergeCredentialAlternates(alts, r.credential, a.credential, fallback);
      hasAuth := hasAuth || a.hasAuth;
    }
    var any := HaveAuth(alts);
    hasAuth := hasAuth || HasCredentials(r.credential) || any;
  }

  // The assembled record: this cycle's values, the previous outcome, and from a
  // retained declaration the credential, location and city this cycle lacks.
  ghost predicate IsSeenAgain(tp: Tables, p: Record, tc: Tables, c: Record, retained: bool, m: Tables, merged: Record)
    requires Fits(tp, p) && Fits(tc, c)
  {
    var country, city := tc.countries[c.countryID], tc.cities[c.cityID];
    var located := retained && country == "" && tp.countries[p.countryID] != "";
    && merged.protocolID < |m.protocols| && merged.countryID < |m.countries| && merged.cityID < |m.cities|
    && merged.addr == c.addr && m.protocols[merged.protocolID] == tc.protocols[c.protocolID]
    && merged.status == p.status && merged.checkedUnix == p.checkedUnix && merged.seenUnix == c.seenUnix
    && merged.credential == (if retained && c.credential.username == "" && p.credential.username != "" then p.credential else c.credential)
    && merged.hasAuth == HasCredentials(merged.credential)
    && m.countries[merged.countryID] == (if located then tp.countries[p.countryID] else country)
    && merged.continent == (if located then p.continent else c.continent)
    && m.cities[merged.cityID] == (if retained && city == "" && tp.cities[p.cityID] != "" then tp.cities[p.cityID] else city)
  }

  // The record mergeCandidateSnapshots assembles for a key seen again, and the
  // dictionaries that own its ids.
  method SeenAgain(tp: Tables, p: Record, tc: Tables, c: Record, retained: bool) returns (m: Tables, merged: Record)
    requires Sane(tp) && Sane(tc) && Fits(tp, p) && Fits(tc, c)
    ensures IsSeenAgain(tp, p, tc, c, retained, m, merged)
  {
    ZeroIsEmpty(tp.countries, p.countryID);
    ZeroIsEmpty(tc.countries, c.countryID);
    ZeroIsEmpty(tp.cities, p.cityID);
    ZeroIsEmpty(tc.cities, c.cityID);
    merged := c.(status := p.status, checkedUnix := p.checkedUnix);
    if retained && merged.credential.username == "" && p.credential.username != "" {
      merged := merged.(credential := p.credential);
    }
    merged := merged.(hasAuth := HasCredentials(merged.credential));
    if retained && c.countryID == 0 && p.countryID != 0 {
      merged := merged.(countryID := p.countryID, continent := p.continent);
    }
    if retained && c.cityID == 0 && p.cityID != 0 {
      merged := merged.(cityID := p.cityID);
    }
    m := Tables([], [], [], tc.protocols, tc.countries, tc.cities);
    if merged.countryID == p.countryID && c.countryID == 0 && p.countryID != 0 {
      m := m.(countries := tp.countries);
    }
    if merged.cityID == p.cityID && c.cityID == 0 && p.cityID != 0 {
      m := m.(cities := tp.cities);
    }
  }

  lemma SeenAgainMeans(previous: Snapshot, p: Record, current: Snapshot, c: Record, failedSources: set<string>, m: Tables, merged: Record)
    requires RefsIn(previous.tables) && RefsIn(current.tables)
    requires Fits(previous.tables, p) && AltsFit(previous.alternates, p) && Fits(current.tables, c) && AltsFit(current.alternates, c)
    requires IsSeenAgain(previous.tables, p, current.tables, c, HasSourceIn(Meaning(previous, p), failedSources), m, merged)
    ensures MergedWith(m, merged, Meaning(previous, p), Meaning(current, c), failedSources)
            == MergedEntry(Meaning(previous, p), Meaning(current, c), failedSources)
  {
    var mp, mc := Meaning(previous, p), Meaning(current, c);
    var x, y := MergedWith(m, merged, mp, mc, failedSources), MergedEntry(mp, mc, failedSources);
    assert x.alternates == y.alternates;
    assert x.hasAuth == y.hasAuth;
    assert x.sources == y.sources;
  }

  // Where the alternates are kept is no part of the meaning.
  lemma ReboundMeans(t: Tables, rs: seq<Record>, out: seq<Record>, alts: seq<seq<Credential>>)
    requires RefsIn(t) && AllFit(t, rs) && |alts| == |rs| == |out|
    requires forall i | 0 <= i < |rs| :: Rebound(rs[i], out[i])
    ensures AllFit(t, out) && Means(t, out, alts) == Means(t, rs, alts)
  {
    forall i | 0 <= i < |rs| ensures Fits(t, out[i]) && MeaningWith(t, out[i], alts[i]) == MeaningWith(t, rs[i], alts[i]) {
      assert rs[i] in rs && Rebound(rs[i], out[i]);
    }
  }

  lemma FinishedMeans(s: Snapshot, alts: seq<seq<Credential>>, failedAlts: seq<seq<Credential>>)
    requires Sane(s.tables) && AllFit(s.tables, s.records) && AllFit(s.tables, RecordsOf(s.failed))
    requires AllBound(s.alternates, s.records, alts) && AllBound(s.alternates, RecordsOf(s.failed), failedAlts)
    ensures Grounded(s)
    ensures Pending(s) == CapEntries(Means(s.tables, s.records, alts))
    ensures FailedOf(s) == CapFailed(MeansFailed(s.tables, s.failed, failedAlts))
  {
    forall f | f in s.failed ensures Fits(s.tables, f.record) && AltsFit(s.alternates, f.record) {
      var i :| 0 <= i < |s.failed| && s.failed[i] == f;
      assert RecordsOf(s.failed)[i] in RecordsOf(s.failed) && Bound(s.alternates, RecordsOf(s.failed)[i], failedAlts[i]);
    }
    forall i | 0 <= i < |s.failed| ensures FailedOf(s)[i] == CapFailed(MeansFailed(s.tables, s.failed, failedAlts))[i] {
      assert Bound(s.alternates, RecordsOf(s.failed)[i], failedAlts[i]);
    }
  }

  // The tables kept their references up to start and every dictionary but the
  // sources', which grew.
  ghost predicate Reordered(t: Tables, u: Tables, start: nat) {
    && start <= |t.sourceRefs| && start <= |u.sourceRefs| && u.sourceRefs[..start] == t.sourceRefs[..start]
    && t.sourceKeys <= u.sourceKeys && t.sources <= u.sources
    && u.protocols == t.protocols && u.countries == t.countries && u.cities == t.cities
  }

  lemma ReorderedExtends(t: Tables, u: Tables, v: Tables, start: nat)
    requires Extends(t, u) && Reordered(u, v, start) && |t.sourceRefs| == start
    ensures Extends(t, v)
  {
    assert t.sourceRefs == u.sourceRefs[..start] == v.sourceRefs[..start];
  }

  lemma ReorderedMeans(u: Tables, v: Tables, r: Record, out: Record, own: seq<Credential>, alts: seq<Credential>)
    requires RefsIn(u) && RefsIn(v) && Fits(u, r) && Fits(v, out)
    requires Reordered(u, v, r.sourceOffset) && out == r.(sourceCount := out.sourceCount)
    ensures MeaningWith(v, out, alts) == MeaningWith(u, r, own).(sources := RecordSources(v, out), alternates := alts)
  {
  }

  // The record of a rediscovered failure: the new declaration with the failure's
  // check time and both declarations' credentials.
  method RediscoveredRecord(r: Record, own: seq<Credential>, f: Record, fallback: seq<Credential>)
    returns (merged: Record, alts: seq<Credential>)
    ensures alts == MergeAlternates(own, r.credential, f.credential, fallback)
    ensures merged == r.(checkedUnix := f.checkedUnix, hasAuth := r.hasAuth || f.hasAuth || AnyCredentials(alts))
  {
    merged := r.(checkedUnix := f.checkedUnix);
    alts := MergeCredentialAlternates(own, merged.credential, f.credential, fallback);
    var any := HaveAuth(alts);
    merged := merged.(hasAuth := merged.hasAuth || f.hasAuth || any);
  }

  lemma RediscoveredMeans(current: Snapshot, r: Record, previous: Snapshot, f: Failure, merged: Record, alts: seq<Credential>)
    requires RefsIn(current.tables) && Fits(current.tables, r) && AltsFit(current.alternates, r)
    requires RefsIn(previous.tables) && Fits(previous.tables, f.record) && AltsFit(previous.alternates, f.record)
    requires alts == MergeAlternates(RecordAlternates(current.alternates, r), r.credential,
                                     f.record.credential, RecordAlternates(previous.alternates, f.record))
    requires merged == r.(checkedUnix := f.record.checkedUnix, hasAuth := r.hasAuth || f.record.hasAuth || AnyCredentials(alts))
    ensures var sources := Merge2(RecordSources(current.tables, r), RecordSources(previous.tables, f.record));
            FailedEntry(Meaning(current, merged).(sources := sources, alternates := alts), f.kind, f.lastError)
            == Rediscovered(Meaning(current, r), FailedEntry(Meaning(previous, f.record), f.kind, f.lastError))
  {
  }

  // ---------------------------------------------------- sorting the failures

  ghost predicate DistinctFailedKeys(fs: seq<FailedEntry>) {
    forall i, j | 0 <= i < j < |fs| :: fs[i].entry.key != fs[j].entry.key
  }

  function FailureKeys(t: Tables, failed: seq<Failure>): (ks: seq<Key>)
    requires AllFit(t, RecordsOf(failed))
    ensures |ks| == |failed|
  {
    seq(|failed|, i requires 0 <= i < |failed| => assert RecordsOf(failed)[i] in RecordsOf(failed); RecordKey(t, failed[i].record))
  }

  function Indices(n: nat): (s: seq<nat>)
    ensures |s| == n && forall i | 0 <= i < n :: s[i] == i
  {
    seq(n, i requires 0 <= i < n => i)
  }

  function IndexLess(keys: seq<Key>): (nat, nat) -> bool {
    (x: nat, y: nat) => x < |keys| && y < |keys| && KeyLess(keys[x], keys[y])
  }

  // The indices in the order of their keys: each once, ascending.
  ghost predicate OrderOf(keys: seq<Key>, order: seq<nat>) {
    && |order| == |keys|
    && (forall m | 0 <= m < |order| :: order[m] < |keys|)
    && (forall m, n | 0 <= m < n < |order| :: KeyLess(keys[order[m]], keys[order[n]]))
    && (forall i | 0 <= i < |keys| :: i in order)
  }

  lemma IndicesSorted(keys: seq<Key>)
    requires forall i, j | 0 <= i < j < |keys| :: keys[i] != keys[j]
    ensures OrderOf(keys, SortBy<nat>(IndexLess(keys), Indices(|keys|)))
  {
    var less, s := IndexLess(keys), Indices(|keys|);
    forall x: nat, y: nat, z: nat ensures !less(x, x) && (less(x, y) && less(y, z) ==> less(x, z)) {
      if x < |keys| && y < |keys| && z < |keys| { KeyOrder(keys[x], keys[y], keys[z]); }
      if x < |keys| { KeyOrder(keys[x], keys[x], keys[x]); }
    }
    forall i, j | 0 <= i < j < |s| ensures less(s[i], s[j]) || less(s[j], s[i]) { KeyOrder(keys[i], keys[j], keys[i]); }
    SortAscending(less, s);
    var order: seq<nat> := SortBy<nat>(less, s);
    SameElements(order, s);
    forall m | 0 <= m < |order| ensures order[m] < |keys| { assert order[m] in s; }
    forall m, n | 0 <= m < n < |order| ensures KeyLess(keys[order[m]], keys[order[n]]) { assert less(order[m], order[n]); }
    forall i | 0 <= i < |keys| ensures i in order { assert s[i] in s; }
  }

  lemma PermutedMeans(t: Tables, failed: seq<Failure>, alts: seq<seq<Credential>>, order: seq<nat>,
                      sorted: seq<Failure>, sortedAlts: seq<seq<Credential>>)
    requires RefsIn(t) && AllFit(t, RecordsOf(failed)) && |alts| == |failed|
    requires |sorted| == |sortedAlts| == |order| && forall m | 0 <= m < |order| :: order[m] < |failed|
    requires forall m | 0 <= m < |order| :: sorted[m] == failed[order[m]] && sortedAlts[m] == alts[order[m]]
    ensures AllFit(t, RecordsOf(sorted))
    ensures forall m | 0 <= m < |order| :: MeansFailed(t, sorted, sortedAlts)[m] == MeansFailed(t, failed, alts)[order[m]]
  {
    forall m | 0 <= m < |order| ensures Fits(t, RecordsOf(sorted)[m]) { assert RecordsOf(failed)[order[m]] in RecordsOf(failed); }
  }

  lemma PermutedSorted(before: seq<FailedEntry>, keys: seq<Key>, order: seq<nat>, after: seq<FailedEntry>)
    requires |keys| == |before| && forall i | 0 <= i < |keys| :: keys[i] == before[i].entry.key
    requires OrderOf(keys, order) && |after| == |order| && forall m | 0 <= m < |order| :: after[m] == before[order[m]]
    ensures FailedSorted(after) && forall x :: x in after <==> x in before
  {
    forall x | x in before ensures x in after {
      var i :| 0 <= i < |before| && before[i] == x;
      assert i < |keys| && i in order;
      var m :| 0 <= m < |order| && order[m] == i;
      assert after[m] == x;
    }
  }

  // ---------------------------------------------------- sorting the records

  // A record still separate from its alternates.
  datatype Item = Item(record: Record, alts: seq<Credential>)

  function ItemLess(protocols: seq<string>): (Item, Item) -> bool {
    (a: Item, b: Item) =>
      a.record.protocolID < |protocols| && b.record.protocolID < |protocols|
      && KeyLess(Key(protocols[a.record.protocolID], a.record.addr), Key(protocols[b.record.protocolID], b.record.addr))
  }

  function EntryLess(): (Entry, Entry) -> bool { (a: Entry, b: Entry) => KeyLess(a.key, b.key) }

  ghost predicate Mirrors(t: Tables, items: seq<Item>, es: seq<Entry>)
    requires RefsIn(t)
  {
    |items| == |es| && forall i | 0 <= i < |items| :: MirrorsOne(t, items[i], es[i])
  }

  // Sorting records by what they mean is sorting what they mean.
  ghost predicate MirrorsOne(t: Tables, x: Item, e: Entry)
    requires RefsIn(t)
  {
    Fits(t, x.record) && MeaningWith(t, x.record, x.alts) == e
  }

  lemma SameOrder(t: Tables, x: Item, e: Entry, y: Item, f: Entry)
    requires RefsIn(t) && MirrorsOne(t, x, e) && MirrorsOne(t, y, f)
    ensures ItemLess(t.protocols)(x, y) == EntryLess()(e, f)
  {
  }

  lemma {:induction false} InsertMirrors(t: Tables, items: seq<Item>, es: seq<Entry>, x: Item, e: Entry)
    requires RefsIn(t) && Mirrors(t, items, es) && MirrorsOne(t, x, e)
    ensures Mirrors(t, Insert(ItemLess(t.protocols), items, x), Insert(EntryLess(), es, e))
  {
    hide MirrorsOne, ItemLess, EntryLess, RefsIn;
    if items != [] {
      assert MirrorsOne(t, items[0], es[0]);
      SameOrder(t, x, e, items[0], es[0]);
      if !ItemLess(t.protocols)(x, items[0]) {
        InsertMirrors(t, items[1..], es[1..], x, e);
      }
    }
  }

  lemma {:induction false} SortMirrors(t: Tables, items: seq<Item>, es: seq<Entry>)
    requires RefsIn(t) && Mirrors(t, items, es)
    ensures Mirrors(t, SortBy(ItemLess(t.protocols), items), SortBy(EntryLess(), es))
  {
    if items != [] {
      var n := |items| - 1;
      assert Mirrors(t, items[..n], es[..n]) && MirrorsOne(t, items[n], es[n]);
      SortMirrors(t, items[..n], es[..n]);
      InsertMirrors(t, SortBy(ItemLess(t.protocols), items[..n]), SortBy(EntryLess(), es[..n]), items[n], es[n]);
    }
  }

  function Items(records: seq<Record>, alts: seq<seq<Credential>>): (items: seq<Item>)
    requires |alts| == |records|
    ensures |items| == |records|
  {
    seq(|records|, i requires 0 <= i < |records| => Item(records[i], alts[i]))
  }

  lemma UnzippedMeans(t: Tables, items: seq<Item>, es: seq<Entry>)
    requires RefsIn(t) && Mirrors(t, items, es)
    ensures var rs, alts := RecordsIn(items), AltsIn(items);
            AllFit(t, rs) && Means(t, rs, alts) == es
  {
    forall i | 0 <= i < |items| ensures Fits(t, RecordsIn(items)[i]) && MeaningWith(t, RecordsIn(items)[i], AltsIn(items)[i]) == es[i] {
      assert MirrorsOne(t, items[i], es[i]);
    }
  }

  function RecordsIn(items: seq<Item>): (rs: seq<Record>)
    ensures |rs| == |items|
  {
    seq(|items|, i requires 0 <= i < |items| => items[i].record)
  }

  function AltsIn(items: seq<Item>): (alts: seq<seq<Credential>>)
    ensures |alts| == |items|
  {
    seq(|items|, i requires 0 <= i < |items| => items[i].alts)
  }
}
