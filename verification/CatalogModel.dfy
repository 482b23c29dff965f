// The candidate catalog (candidate_catalog.go): its compact representation and
// what it means.  A snapshot keeps two sorted record arrays over interned
// dictionaries, one flat array of source references and one flat credential
// table; its meaning is two sorted lists of self-contained entries.
module CatalogModel {
  import opened Proxies
  import Lexicographic

  const MAX_ALTERNATES := 16

  datatype Status = Deferred | CheckedFailed | PolicyFiltered | KnownAvailable | KnownUnavailable | Resource

  datatype FailureKind = Unreachable | PolicyRejected

  datatype Record = Record(
    addr: string,
    credential: Credential,
    sourceOffset: nat,
    sourceCount: nat,
    countryID: nat,
    cityID: nat,
    protocolID: nat,
    continent: nat,
    status: Status,
    hasAuth: bool,
    seenUnix: int,
    checkedUnix: int,
    altOffset: nat,
    altCount: nat)

  datatype Failure = Failure(record: Record, kind: FailureKind, lastError: string)

  // The flat source references and the dictionaries they and the ids point into.
  datatype Tables = Tables(
    sourceRefs: seq<nat>,
    sourceKeys: seq<string>,
    sources: seq<string>,
    protocols: seq<string>,
    countries: seq<string>,
    cities: seq<string>)

  datatype Meta = Meta(
    generation: nat,
    revision: nat,
    phase: string,
    sourceErrors: nat,
    seenAt: Option<int>,
    refreshAttempt: Option<int>,
    completedAt: Option<int>)

  datatype Snapshot = Snapshot(
    records: seq<Record>,
    failed: seq<Failure>,
    alternates: seq<Credential>,
    tables: Tables,
    meta: Meta)

  // ----------------------------------------------------------------- meaning

  datatype Entry = Entry(
    key: Key,
    credential: Credential,
    country: string,
    city: string,
    continent: nat,
    status: Status,
    hasAuth: bool,
    seenUnix: int,
    checkedUnix: int,
    sources: seq<string>,
    alternates: seq<Credential>)

  datatype FailedEntry = FailedEntry(entry: Entry, kind: FailureKind, lastError: string)

  ghost predicate RefsIn(t: Tables) {
    forall i | 0 <= i < |t.sourceRefs| :: t.sourceRefs[i] < |t.sourceKeys|
  }

  // The record's ids and source range point into the tables.
  predicate Fits(t: Tables, r: Record) {
    && r.protocolID < |t.protocols|
    && r.countryID < |t.countries|
    && r.cityID < |t.cities|
    && r.sourceOffset + r.sourceCount <= |t.sourceRefs|
  }

  predicate AltsFit(alternates: seq<Credential>, r: Record) {
    r.altOffset + r.altCount <= |alternates|
  }

  function SourceKeys(t: Tables, refs: seq<nat>): seq<string>
    requires forall i | 0 <= i < |refs| :: refs[i] < |t.sourceKeys|
  {
    seq(|refs|, i requires 0 <= i < |refs| => t.sourceKeys[refs[i]])
  }

  function RecordSources(t: Tables, r: Record): seq<string>
    requires RefsIn(t) && Fits(t, r)
  {
    SourceKeys(t, t.sourceRefs[r.sourceOffset..r.sourceOffset + r.sourceCount])
  }

  function RecordKey(t: Tables, r: Record): Key
    requires Fits(t, r)
  {
    Key(t.protocols[r.protocolID], r.addr)
  }

  // A record with its alternates supplied from outside, as the builder holds them.
  function MeaningWith(t: Tables, r: Record, alts: seq<Credential>): Entry
    requires RefsIn(t) && Fits(t, r)
  {
    Entry(RecordKey(t, r), r.credential, t.countries[r.countryID], t.cities[r.cityID], r.continent,
          r.status, r.hasAuth, r.seenUnix, r.checkedUnix, RecordSources(t, r), alts)
  }

  function RecordAlternates(alternates: seq<Credential>, r: Record): seq<Credential>
    requires AltsFit(alternates, r)
  {
    alternates[r.altOffset..r.altOffset + r.altCount]
  }

  ghost predicate Grounded(s: Snapshot) {
    && RefsIn(s.tables)
    && |s.tables.sources| == |s.tables.sourceKeys|
    && (forall r | r in s.records :: Fits(s.tables, r) && AltsFit(s.alternates, r))
    && (forall f | f in s.failed :: Fits(s.tables, f.record) && AltsFit(s.alternates, f.record))
  }

  function Meaning(s: Snapshot, r: Record): Entry
    requires RefsIn(s.tables) && Fits(s.tables, r) && AltsFit(s.alternates, r)
  {
    MeaningWith(s.tables, r, RecordAlternates(s.alternates, r))
  }

  // The abstract catalog.
  ghost function Pending(s: Snapshot): (es: seq<Entry>)
    requires Grounded(s)
    ensures |es| == |s.records|
  {
    seq(|s.records|, i requires 0 <= i < |s.records| => Meaning(s, s.records[i]))
  }

  ghost function FailedOf(s: Snapshot): (es: seq<FailedEntry>)
    requires Grounded(s)
    ensures |es| == |s.failed|
  {
    seq(|s.failed|, i requires 0 <= i < |s.failed| =>
      FailedEntry(Meaning(s, s.failed[i].record), s.failed[i].kind, s.failed[i].lastError))
  }

  // ------------------------------------------------------------------- order

  // compareCandidateRecords: protocol first, then address.
  predicate KeyLess(a: Key, b: Key) {
    Lexicographic.PairLess(a.protocol, a.addr, b.protocol, b.addr)
  }

  lemma KeyOrder(a: Key, b: Key, c: Key)
    ensures !KeyLess(a, a)
    ensures KeyLess(a, b) && KeyLess(b, c) ==> KeyLess(a, c)
    ensures KeyLess(a, b) || a == b || KeyLess(b, a)
    ensures KeyLess(a, b) ==> !KeyLess(b, a) && a != b
  {
    Lexicographic.PairIrreflexive(a.protocol, a.addr);
    Lexicographic.PairTrichotomy(a.protocol, a.addr, b.protocol, b.addr);
    if KeyLess(a, b) {
      Lexicographic.PairAsymmetric(a.protocol, a.addr, b.protocol, b.addr);
      if KeyLess(b, c) {
        Lexicographic.PairTransitive(a.protocol, a.addr, b.protocol, b.addr, c.protocol, c.addr);
      }
    }
  }

  ghost predicate EntriesSorted(es: seq<Entry>) {
    forall i, j | 0 <= i < j < |es| :: KeyLess(es[i].key, es[j].key)
  }

  ghost predicate FailedSorted(fs: seq<FailedEntry>) {
    forall i, j | 0 <= i < j < |fs| :: KeyLess(fs[i].entry.key, fs[j].entry.key)
  }

  ghost function EntryKeys(es: seq<Entry>): set<Key> { set e | e in es :: e.key }

  ghost function FailedKeys(fs: seq<FailedEntry>): set<Key> { set f | f in fs :: f.entry.key }

  ghost predicate StrictlySorted(ks: seq<string>) {
    forall i, j | 0 <= i < j < |ks| :: Lexicographic.Less(ks[i], ks[j])
  }

  // ---------------------------------------------------------------- validity

  predicate HasCredentials(c: Credential) { c.username != "" || c.password != "" }

  predicate AnyCredentials(cs: seq<Credential>) { exists c | c in cs :: HasCredentials(c) }

  predicate KnownProtocol(p: string) { p == "socks5" || p == "http" || p == "https" || p == "proxyip" }

  // What validateCandidateSnapshot demands of one record, in terms of its
  // meaning: sources present and strictly sorted, credentials never hidden by a
  // false marker, at most sixteen alternates.
  ghost predicate EntryOk(e: Entry) {
    && KnownProtocol(e.key.protocol)
    && e.sources != [] && StrictlySorted(e.sources) && "" !in e.sources
    && |e.alternates| <= MAX_ALTERNATES
    && (HasCredentials(e.credential) || AnyCredentials(e.alternates) ==> e.hasAuth)
    && e.continent <= 7
  }

  ghost predicate PendingOk(e: Entry) { EntryOk(e) && e.status != CheckedFailed && e.status != PolicyFiltered }

  ghost predicate Dictionary(d: seq<string>) { d != [] && d[0] == "" }

  // The structural clauses of validateCandidateSnapshot (size caps, phase and
  // address syntax aside).
  ghost predicate Validated(s: Snapshot) {
    && Grounded(s)
    && Dictionary(s.tables.countries) && Dictionary(s.tables.cities)
    && (forall p | p in s.tables.protocols :: KnownProtocol(p))
    && (forall k | k in s.tables.sourceKeys :: k != "")
    && (forall r | r in s.records :: r.sourceCount <= |s.tables.sources|)
    && (forall f | f in s.failed :: f.record.sourceCount <= |s.tables.sources|)
    && (forall e | e in Pending(s) :: PendingOk(e))
    && (forall f | f in FailedOf(s) :: EntryOk(f.entry) && f.entry.status == Deferred)
    && EntriesSorted(Pending(s)) && FailedSorted(FailedOf(s))
  }

  // What the catalog's own steps keep on top of that: only id zero is the empty
  // value, no key is pending and failed at once, and a resource is never a
  // failure.
  ghost predicate OneBlank(d: seq<string>) { forall i | 0 < i < |d| :: d[i] != "" }

  ghost predicate Invariant(s: Snapshot) {
    && Validated(s)
    && OneBlank(s.tables.countries) && OneBlank(s.tables.cities)
    && EntryKeys(Pending(s)) !! FailedKeys(FailedOf(s))
    && forall f | f in FailedOf(s) :: f.entry.key.protocol != "proxyip"
  }

  // ----------------------------------------------------------- growing tables

  ghost predicate Extends(t: Tables, u: Tables) {
    && t.sourceRefs <= u.sourceRefs
    && t.sourceKeys <= u.sourceKeys
    && t.sources <= u.sources
    && t.protocols <= u.protocols
    && t.countries <= u.countries
    && t.cities <= u.cities
  }

  // Appending to the tables changes the meaning of no record.
  lemma MeaningStable(t: Tables, u: Tables, r: Record, alts: seq<Credential>)
    requires Extends(t, u) && RefsIn(t) && RefsIn(u) && Fits(t, r)
    ensures Fits(u, r) && MeaningWith(u, r, alts) == MeaningWith(t, r, alts)
  {
    var a := t.sourceRefs[r.sourceOffset..r.sourceOffset + r.sourceCount];
    var b := u.sourceRefs[r.sourceOffset..r.sourceOffset + r.sourceCount];
    assert a == b;
    forall i | 0 <= i < |a| ensures t.sourceKeys[a[i]] == u.sourceKeys[b[i]] {
      assert a[i] == t.sourceRefs[r.sourceOffset + i];
    }
    assert RecordSources(t, r) == RecordSources(u, r);
  }

  lemma SourcesAt(t: Tables, r: Record, i: nat)
    requires RefsIn(t) && Fits(t, r) && i < r.sourceCount
    ensures RecordSources(t, r)[i] == t.sourceKeys[t.sourceRefs[r.sourceOffset + i]]
  {
  }

  // -------------------------------------------------- distinct sorted strings

  lemma SortedDistinct(ks: seq<string>)
    requires StrictlySorted(ks)
    ensures forall i, j | 0 <= i < j < |ks| :: ks[i] != ks[j]
  {
    forall i, j | 0 <= i < j < |ks| ensures ks[i] != ks[j] {
      Lexicographic.Asymmetric(ks[i], ks[j]);
    }
  }

  // Strictly sorted sequences with the same elements are equal.
  lemma {:induction false} SortedStringsUnique(a: seq<string>, b: seq<string>)
    requires StrictlySorted(a) && StrictlySorted(b)
    requires forall k :: k in a <==> k in b
    ensures a == b
  {
    assert |b| > 0 ==> b[0] in b;
    if a != [] {
      assert a[0] in a && b != [];
      assert b[0] in b;
      FirstIsLeast(a, b[0]);
      FirstIsLeast(b, a[0]);
      if a[0] != b[0] { Lexicographic.Asymmetric(a[0], b[0]); }
      TailElements(a);
      TailElements(b);
      SortedStringsUnique(a[1..], b[1..]);
      assert a == [a[0]] + a[1..] && b == [b[0]] + b[1..];
    }
  }

  lemma FirstIsLeast(a: seq<string>, k: string)
    requires StrictlySorted(a) && k in a
    ensures k == a[0] || Lexicographic.Less(a[0], k)
  {
    var i :| 0 <= i < |a| && a[i] == k;
  }

  lemma TailElements(a: seq<string>)
    requires a != [] && StrictlySorted(a)
    ensures StrictlySorted(a[1..])
    ensures forall k :: k in a[1..] <==> k in a && k != a[0]
  {
    SortedDistinct(a);
    assert a == [a[0]] + a[1..];
    var t := a[1..];
    forall i, j | 0 <= i < j < |t| ensures Lexicographic.Less(t[i], t[j]) { assert t[i] == a[i + 1] && t[j] == a[j + 1]; }
    forall k | k in t ensures k != a[0] {
      var i :| 0 <= i < |t| && t[i] == k;
      assert a[i + 1] == k;
    }
  }
}
