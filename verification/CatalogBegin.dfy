// begin (candidate_catalog.go): a scrape's candidates become a snapshot, take
// over history, and meet the durable failures.  The published snapshot keeps
// the whole representation invariant.
module CatalogBegin {
  import opened Proxies
  import opened CatalogModel
  import opened CatalogTables
  import opened CatalogMerge
  import opened Credentials
  import opened CatalogReconcile
  import opened CatalogParts
  import opened CatalogBuilder
  import opened CatalogRefresh
  import opened Sorting
  import Lexicographic

  // A scraped declaration.
  datatype Candidate = Candidate(
    key: Key,
    credential: Credential,
    alternates: seq<Credential>,
    country: string,
    city: string,
    continent: nat,
    sourceName: string,
    sourceNames: seq<string>)

  type Labels = map<string, string>

  // ------------------------------------------------------- declared sources

  function Names(c: Candidate): seq<string> { if c.sourceNames == [] then [c.sourceName] else c.sourceNames }

  function LabelOf(name: string, labels: Labels): string { if name in labels then labels[name] else "" }

  // appendSourceValue: a name without a display label becomes a legacy key.
  function SourceKey(name: string, labels: Labels): string {
    if LabelOf(name, labels) == "" then LegacyKey(name) else InternedKey(name, LabelOf(name, labels))
  }

  function SourcesFrom(names: seq<string>, last: string, labels: Labels): seq<string> {
    if names == [] then []
    else if names[0] == last then SourcesFrom(names[1..], last, labels)
    else [SourceKey(names[0], labels)] + SourcesFrom(names[1..], names[0], labels)
  }

  const NO_SOURCE := "\0"

  function DeclaredSources(c: Candidate, labels: Labels): seq<string> {
    var keys := SourcesFrom(Names(c), NO_SOURCE, labels);
    if keys == [] then [LegacyKey("")] else keys
  }

  function Declared(c: Candidate, labels: Labels): Entry {
    Entry(c.key, c.credential, c.country, c.city, c.continent,
          if c.key.protocol == "proxyip" then Resource else Deferred,
          HasCredentials(c.credential) || AnyCredentials(c.alternates),
          0, 0, DeclaredSources(c, labels), c.alternates)
  }

  predicate IsLabelled(name: string, labels: Labels) { LabelOf(name, labels) != "" }

  ghost predicate Adjacent(p: (string, string) -> bool, names: seq<string>) {
    forall i | 0 <= i < |names| - 1 :: p(names[i], names[i + 1])
  }

  function NoDescent(): (string, string) -> bool { (v: string, w: string) => v == w || Lexicographic.Less(v, w) }

  // Names as the deduplication leaves them: a single one, or sorted and not blank.
  ghost predicate Regular(c: Candidate) {
    |Names(c)| == 1 || ("" !in Names(c) && NO_SOURCE !in Names(c) && Adjacent(NoDescent(), Names(c)))
  }

  // Of two names side by side, one filed under its own key and one under a
  // legacy key, the keys must come in the order of the names.
  predicate MixedInOrder(v: string, w: string, labels: Labels) {
    && (!IsLabelled(v, labels) && IsLabelled(w, labels) ==> Lexicographic.Less(LegacyKey(v), w))
    && (IsLabelled(v, labels) && !IsLabelled(w, labels) ==> Lexicographic.Less(v, LegacyKey(w)))
  }

  function MixedSteps(labels: Labels): (string, string) -> bool { (v: string, w: string) => v == w || MixedInOrder(v, w, labels) }

  ghost predicate InOrder(c: Candidate, labels: Labels) { |Names(c)| == 1 || Adjacent(MixedSteps(labels), Names(c)) }

  // ---------------------------------------------- when the keys are in order

  function KeySteps(labels: Labels): (string, string) -> bool {
    (v: string, w: string) => v == w || Lexicographic.Less(SourceKey(v, labels), SourceKey(w, labels))
  }

  lemma AdjacentCons(p: (string, string) -> bool, name: string, names: seq<string>)
    ensures Adjacent(p, [name] + names) <==> Adjacent(p, names) && (names == [] || p(name, names[0]))
  {
    var all := [name] + names;
    assert forall i | 0 <= i < |names| :: all[i + 1] == names[i];
    if Adjacent(p, all) {
      forall i | 0 <= i < |names| - 1 ensures p(names[i], names[i + 1]) { assert p(all[i + 1], all[i + 2]); }
      if names != [] { assert p(all[0], all[1]); }
    }
    if Adjacent(p, names) && (names == [] || p(name, names[0])) {
      forall i | 0 <= i < |all| - 1 ensures p(all[i], all[i + 1]) {
        if i > 0 { assert p(names[i - 1], names[i]); }
      }
    }
  }

  lemma SortedCons(k: string, ks: seq<string>)
    ensures StrictlySorted([k] + ks) <==> StrictlySorted(ks) && (ks == [] || Lexicographic.Less(k, ks[0]))
  {
    var all := [k] + ks;
    assert forall i | 0 <= i < |ks| :: all[i + 1] == ks[i];
    if StrictlySorted(all) {
      forall i, j | 0 <= i < j < |ks| ensures Lexicographic.Less(ks[i], ks[j]) { assert Lexicographic.Less(all[i + 1], all[j + 1]); }
      if ks != [] { assert Lexicographic.Less(all[0], all[1]); }
    }
    if StrictlySorted(ks) && (ks == [] || Lexicographic.Less(k, ks[0])) {
      forall i, j | 0 <= i < j < |all| ensures Lexicographic.Less(all[i], all[j]) {
        if i == 0 && j > 1 { Lexicographic.Transitive(k, ks[0], ks[j - 1]); }
      }
    }
  }

  // The keys from the last name on ascend iff every step does.
  lemma {:induction false} KeysAscend(names: seq<string>, last: string, labels: Labels)
    ensures StrictlySorted([SourceKey(last, labels)] + SourcesFrom(names, last, labels)) <==> Adjacent(KeySteps(labels), [last] + names)
  {
    AdjacentCons(KeySteps(labels), last, names);
    if names != [] {
      var tail := names[1..];
      assert names == [names[0]] + tail;
      KeysAscend(tail, names[0], labels);
      if names[0] != last {
        SortedCons(SourceKey(last, labels), [SourceKey(names[0], labels)] + SourcesFrom(tail, names[0], labels));
      }
    }
  }

  lemma {:induction false} PrefixLess(p: string, v: string, w: string)
    ensures Lexicographic.Less(p + v, p + w) <==> Lexicographic.Less(v, w)
  {
    if p == [] {
      assert p + v == v && p + w == w;
    } else {
      assert (p + v)[1..] == p[1..] + v && (p + w)[1..] == p[1..] + w;
      PrefixLess(p[1..], v, w);
    }
  }

  // Only a labelled name beside an unlabelled one can go wrong.
  lemma StepExact(v: string, w: string, labels: Labels)
    requires v != "" && w != "" && Lexicographic.Less(v, w)
    ensures Lexicographic.Less(SourceKey(v, labels), SourceKey(w, labels)) <==> MixedInOrder(v, w, labels)
  {
    PrefixLess(LEGACY, v, w);
  }

  lemma StepsAreMixed(names: seq<string>, labels: Labels)
    requires "" !in names && Adjacent(NoDescent(), names)
    ensures Adjacent(KeySteps(labels), names) <==> Adjacent(MixedSteps(labels), names)
  {
    forall i | 0 <= i < |names| - 1
      ensures KeySteps(labels)(names[i], names[i + 1]) <==> MixedSteps(labels)(names[i], names[i + 1])
    {
      assert names[i] in names && names[i + 1] in names && NoDescent()(names[i], names[i + 1]);
      if names[i] != names[i + 1] { StepExact(names[i], names[i + 1], labels); }
    }
  }

  // The exact condition: a declaration's source keys are in strict order iff no
  // labelled name stands beside an unlabelled one in the wrong order.
  lemma SourceOrderExact(c: Candidate, labels: Labels)
    requires Regular(c)
    ensures StrictlySorted(DeclaredSources(c, labels)) <==> InOrder(c, labels)
    ensures DeclaredSources(c, labels) != [] && "" !in DeclaredSources(c, labels)
  {
    var names := Names(c);
    KeysNotBlank(names, NO_SOURCE, labels);
    assert names == [names[0]] + names[1..];
    if |names| == 1 {
      assert SourcesFrom(names[1..], names[0], labels) == [] && |DeclaredSources(c, labels)| == 1;
    } else {
      assert names[0] in names;
      KeysAscend(names[1..], names[0], labels);
      StepsAreMixed(names, labels);
    }
  }

  lemma {:induction false} KeysNotBlank(names: seq<string>, last: string, labels: Labels)
    ensures "" !in SourcesFrom(names, last, labels)
  {
    if names != [] { KeysNotBlank(names[1..], if names[0] == last then last else names[0], labels); }
  }

  // All labelled, or all unlabelled: always in order.
  lemma UniformInOrder(c: Candidate, labels: Labels)
    requires (forall v | v in Names(c) :: IsLabelled(v, labels)) || (forall v | v in Names(c) :: !IsLabelled(v, labels))
    ensures InOrder(c, labels)
  {
    var names := Names(c);
    assert forall i | 0 <= i < |names| :: names[i] in names;
  }

  // A labelled name beside an unlabelled one, sorted names, unsorted keys.
  lemma UnlabelledBreaksOrder()
    ensures exists c: Candidate, labels: Labels :: Regular(c) && !InOrder(c, labels) && !StrictlySorted(DeclaredSources(c, labels))
  {
    var c := Candidate(Key("http", "1.1.1.1:80"), Credential("", ""), [], "", "", 0, "", ["a", "b"]);
    var labels: Labels := map["b" := "B"];
    assert LegacyKey("a")[0] == 'l' && Lexicographic.Less("a", "b");
    assert !MixedSteps(labels)(Names(c)[0], Names(c)[1]);
    assert Regular(c);
    SourceOrderExact(c, labels);
  }

  // ------------------------------------------------- buildCandidateSnapshot

  // One name of a declaration: repeats of the last one are skipped.
  method AppendSourceValue(b: Builder, value: string, lastSource: string, labels: Labels) returns (added: nat)
    requires b.TablesValid()
    modifies b`tables, b`sourceIDs
    ensures b.TablesValid() && SourcesGrown(old(b.tables), b.tables)
    ensures added == if value == lastSource then 0 else 1
    ensures Flat(b.tables) == old(Flat(b.tables)) + if value == lastSource then [] else [SourceKey(value, labels)]
  {
    if value == lastSource { return 0; }
    var key, display := value, LabelOf(value, labels);
    if display == "" {
      key, display := LegacyKey(value), value;
    }
    b.AppendSource(key, display);
    added := 1;
  }

  // What the first i names wrote, and what the others still will.
  ghost predicate SourcesTo(names: seq<string>, labels: Labels, i: nat, last: string, done: seq<string>) {
    i <= |names| && done + SourcesFrom(names[i..], last, labels) == SourcesFrom(names, NO_SOURCE, labels)
  }

  lemma SourcesNext(names: seq<string>, labels: Labels, i: nat, last: string, done: seq<string>)
    requires SourcesTo(names, labels, i, last, done) && i < |names|
    ensures SourcesTo(names, labels, i + 1, names[i], done + if names[i] == last then [] else [SourceKey(names[i], labels)])
  {
    hide SourceKey, LegacyKey, LabelOf;
    assert names[i..][1..] == names[i + 1..];
    var f := if names[i] == last then [] else [SourceKey(names[i], labels)];
    assert SourcesFrom(names[i..], last, labels) == f + SourcesFrom(names[i + 1..], names[i], labels);
    assert done + (f + SourcesFrom(names[i + 1..], names[i], labels)) == (done + f) + SourcesFrom(names[i + 1..], names[i], labels);
  }

  method AppendDeclaredSources(b: Builder, c: Candidate, labels: Labels) returns (count: nat)
    requires b.TablesValid()
    modifies b`tables, b`sourceIDs
    ensures b.TablesValid() && SourcesGrown(old(b.tables), b.tables)
    ensures Flat(b.tables) == old(Flat(b.tables)) + DeclaredSources(c, labels) && count == |DeclaredSources(c, labels)|
  {
    var names, lastSource := Names(c), NO_SOURCE;
    ghost var done: seq<string> := [];
    count := 0;
    assert names[0..] == names;
    for i := 0 to |names|
      invariant b.TablesValid() && SourcesGrown(old(b.tables), b.tables)
      invariant SourcesTo(names, labels, i, lastSource, done) && count == |done|
      invariant Flat(b.tables) == old(Flat(b.tables)) + done
    {
      SourcesNext(names, labels, i, lastSource, done);
      var added := AppendSourceValue(b, names[i], lastSource, labels);
      done := done + if added == 0 then [] else [SourceKey(names[i], labels)];
      count, lastSource := count + added, names[i];
    }
    assert names[|names|..] == [];
    if count == 0 {
      b.AppendSource(LegacyKey(""), "");
      count := 1;
    }
  }

  // The record of a candidate, its values and sources put into the tables.
  method DeclareRecord(b: Builder, c: Candidate, labels: Labels) returns (out: Record)
    requires b.TablesValid()
    modifies b`tables, b`protocolIDs, b`countryIDs, b`cityIDs, b`sourceIDs
    ensures b.TablesValid() && Extends(old(b.tables), b.tables)
    ensures Fits(b.tables, out) && MeaningWith(b.tables, out, c.alternates) == Declared(c, labels)
    ensures KnownProtocol(c.key.protocol) && KnownProtocols(old(b.tables)) ==> KnownProtocols(b.tables)
  {
    hide DeclaredSources;
    var any := HaveAuth(c.alternates);
    var status := if c.key.protocol == "proxyip" then Resource else Deferred;
    var r := Record(c.key.addr, c.credential, 0, 0, 0, 0, 0, c.continent, status, HasCredentials(c.credential) || any, 0, 0, 0, 0);
    out := b.InternValues(c.key.protocol, c.country, c.city, r);
    var t := b.tables;
    assert Flat(t) == Flat(old(b.tables));
    var count := AppendDeclaredSources(b, c, labels);
    out := out.(sourceOffset := |t.sourceRefs|, sourceCount := count);
    Placed(t, b.tables, out, DeclaredSources(c, labels));
  }

  method AppendCandidate(b: Builder, c: Candidate, labels: Labels)
    requires b.Valid()
    modifies b
    ensures b.Valid() && b.FailedEntries() == old(b.FailedEntries())
    ensures b.Entries() == old(b.Entries()) + [Declared(c, labels)]
    ensures KnownProtocol(c.key.protocol) && KnownProtocols(old(b.tables)) ==> KnownProtocols(b.tables)
  {
    hide Declared, MeaningWith, KnownProtocols, KnownProtocol, Extends, Fits;
    var out := DeclareRecord(b, c, labels);
    b.Unmoved(old(b.tables));
    b.PushRecord(out, c.alternates);
  }

  ghost function AllDeclared(cs: seq<Candidate>, labels: Labels): (es: seq<Entry>)
    ensures |es| == |cs|
  {
    seq(|cs|, i requires 0 <= i < |cs| => Declared(cs[i], labels))
  }

  ghost predicate AllKnown(cs: seq<Candidate>) { forall c | c in cs :: KnownProtocol(c.key.protocol) }

  method AppendCandidates(b: Builder, candidates: seq<Candidate>, labels: Labels)
    requires b.Valid() && b.Entries() == [] && b.FailedEntries() == [] && KnownProtocols(b.tables)
    modifies b
    ensures b.Valid() && b.FailedEntries() == [] && b.Entries() == AllDeclared(candidates, labels)
    ensures AllKnown(candidates) ==> KnownProtocols(b.tables)
  {
    hide KnownProtocols, Declared;
    for i := 0 to |candidates|
      invariant b.Valid() && b.FailedEntries() == []
      invariant b.Entries() == AllDeclared(candidates[..i], labels)
      invariant AllKnown(candidates) ==> KnownProtocols(b.tables)
    {
      AppendCandidate(b, candidates[i], labels);
      assert candidates[..i + 1] == candidates[..i] + [candidates[i]];
      assert AllDeclared(candidates[..i + 1], labels) == AllDeclared(candidates[..i], labels) + [Declared(candidates[i], labels)];
    }
    assert candidates[..|candidates|] == candidates;
  }

  // The built snapshot means the declarations, sorted by key, with at most
  // sixteen alternates each.
  method BuildCandidateSnapshot(candidates: seq<Candidate>, labels: Labels) returns (s: Snapshot)
    ensures Grounded(s) && Sane(s.tables) && s.failed == []
    ensures Pending(s) == CapEntries(SortBy(EntryLess(), AllDeclared(candidates, labels)))
    ensures AllKnown(candidates) ==> KnownProtocols(s.tables)
    ensures s.meta == Meta(0, 0, "", 0, None, None, None)
  {
    var b := new Builder();
    AppendCandidates(b, candidates, labels);
    b.SortRecords();
    s := b.Finish(Meta(0, 0, "", 0, None, None, None));
    assert |FailedOf(s)| == 0;
  }

  // ----------------------------------------------------- a scrape's inventory

  ghost predicate OneEach(cs: seq<Candidate>) { forall i, j | 0 <= i < j < |cs| :: cs[i].key != cs[j].key }

  // What the caller's deduplication guarantees: one candidate a key, regular
  // names.
  ghost predicate Deduplicated(cs: seq<Candidate>) { OneEach(cs) && forall c | c in cs :: Regular(c) }

  // An inventory whose source keys come out in order.
  ghost predicate Inventory(cs: seq<Candidate>, labels: Labels) {
    Deduplicated(cs) && forall c | c in cs :: InOrder(c, labels)
  }

  // Addresses whose protocol and continent the validator accepts.
  ghost predicate WellFormed(cs: seq<Candidate>) { forall c | c in cs :: KnownProtocol(c.key.protocol) && c.continent <= 7 }

  // The entries of a fresh snapshot, seen at the given time.
  ghost function Fresh(cs: seq<Candidate>, labels: Labels, now: int): (es: seq<Entry>)
    ensures |es| == |cs|
  {
    Stamp(CapEntries(SortBy(EntryLess(), AllDeclared(cs, labels))), now)
  }

  ghost function Stamp(es: seq<Entry>, now: int): (r: seq<Entry>)
    ensures |r| == |es|
  {
    seq(|es|, i requires 0 <= i < |es| => es[i].(seenUnix := now))
  }

  lemma DeclaredOrder(cs: seq<Candidate>, labels: Labels)
    requires OneEach(cs)
    ensures var es := SortBy(EntryLess(), AllDeclared(cs, labels));
            EntriesSorted(es) && forall e | e in es :: exists i | 0 <= i < |cs| :: e == Declared(cs[i], labels)
  {
    var less, all := EntryLess(), AllDeclared(cs, labels);
    forall x: Entry, y: Entry, z: Entry ensures !less(x, x) && (less(x, y) && less(y, z) ==> less(x, z)) {
      KeyOrder(x.key, y.key, z.key);
    }
    forall i, j | 0 <= i < j < |all| ensures less(all[i], all[j]) || less(all[j], all[i]) {
      KeyOrder(all[i].key, all[j].key, all[i].key);
    }
    SortAscending(less, all);
    var es := SortBy(less, all);
    SameElements(es, all);
    forall i, j | 0 <= i < j < |es| ensures KeyLess(es[i].key, es[j].key) { assert less(es[i], es[j]); }
    forall e | e in es ensures exists i | 0 <= i < |cs| :: e == Declared(cs[i], labels) {
      var i :| 0 <= i < |all| && all[i] == e;
      assert e == Declared(cs[i], labels);
    }
  }

  lemma FreshAt(cs: seq<Candidate>, labels: Labels, now: int, j: nat) returns (i: nat)
    requires OneEach(cs) && j < |cs|
    ensures i < |cs|
    ensures Fresh(cs, labels, now)[j] == Declared(cs[i], labels).(alternates := Capped(cs[i].alternates), seenUnix := now)
  {
    DeclaredOrder(cs, labels);
    var es := SortBy(EntryLess(), AllDeclared(cs, labels));
    assert es[j] in es;
    i :| 0 <= i < |cs| && es[j] == Declared(cs[i], labels);
  }

  lemma FreshIs(cs: seq<Candidate>, labels: Labels, now: int)
    requires Inventory(cs, labels)
    ensures EntriesSorted(Fresh(cs, labels, now)) && AllAttributed(Fresh(cs, labels, now))
    ensures WellFormed(cs) ==> forall e | e in Fresh(cs, labels, now) :: PendingOk(e)
    ensures forall e | e in Fresh(cs, labels, now) :: e.key.protocol != "proxyip" ==> e.status == Deferred
  {
    DeclaredOrder(cs, labels);
    var es := Fresh(cs, labels, now);
    forall e | e in es
      ensures Attributed(e) && (WellFormed(cs) ==> PendingOk(e)) && (e.key.protocol != "proxyip" ==> e.status == Deferred)
    {
      var j :| 0 <= j < |es| && es[j] == e;
      var i := FreshAt(cs, labels, now, j);
      assert cs[i] in cs && Regular(cs[i]) && InOrder(cs[i], labels);
      SourceOrderExact(cs[i], labels);
      assert forall c | c in Capped(cs[i].alternates) :: c in cs[i].alternates;
    }
  }

  // Over no previous snapshot, the entries begin publishes meet the validator iff
  // every declaration is in order.
  lemma FreshExactlyWhen(cs: seq<Candidate>, labels: Labels, now: int)
    requires Deduplicated(cs) && WellFormed(cs)
    ensures (forall e | e in Fresh(cs, labels, now) :: PendingOk(e)) <==> Inventory(cs, labels)
  {
    if Inventory(cs, labels) {
      FreshIs(cs, labels, now);
    } else {
      var c :| c in cs && !InOrder(c, labels);
      var e := FreshOf(cs, labels, now, c);
      SourceOrderExact(c, labels);
      assert !PendingOk(e);
    }
  }

  lemma FreshOf(cs: seq<Candidate>, labels: Labels, now: int, c: Candidate) returns (e: Entry)
    requires c in cs
    ensures e in Fresh(cs, labels, now) && e == Declared(c, labels).(alternates := Capped(c.alternates), seenUnix := now)
  {
    var i :| 0 <= i < |cs| && cs[i] == c;
    var all := AllDeclared(cs, labels);
    var es := SortBy(EntryLess(), all);
    assert all[i] == Declared(c, labels) && all[i] in all;
    SortElements(EntryLess(), all);
    SameElements(es, all);
    var j :| 0 <= j < |es| && es[j] == all[i];
    e := Fresh(cs, labels, now)[j];
  }

  // A name filed under itself if it has a display label, else as a legacy name.
  function FiledAs(v: string, labels: Labels): string { if v in labels && labels[v] != "" then v else "legacy-name:" + v }

  lemma {:induction false} SourcesAre(names: seq<string>, last: string, labels: Labels)
    requires "" !in names
    ensures forall k | k in SourcesFrom(names, last, labels) :: exists v | v in names :: k == FiledAs(v, labels)
    ensures forall v | v in names :: v == last || FiledAs(v, labels) in SourcesFrom(names, last, labels)
  {
    if names != [] {
      assert names == [names[0]] + names[1..] && names[0] in names;
      SourcesAre(names[1..], names[0], labels);
      forall k | k in SourcesFrom(names, last, labels) ensures exists v | v in names :: k == FiledAs(v, labels) {
        if k in SourcesFrom(names[1..], names[0], labels) {
          var v :| v in names[1..] && k == FiledAs(v, labels);
          assert v in names;
        } else {
          assert k == FiledAs(names[0], labels);
        }
      }
    }
  }

  // The entry of a declaration: as declared, first seen now, never checked, its
  // alternates cut to sixteen, one source for each of its names.
  ghost predicate DeclaredAs(c: Candidate, labels: Labels, now: int, e: Entry) {
    && e.key == c.key && e.credential == c.credential
    && e.country == c.country && e.city == c.city && e.continent == c.continent
    && e.status == (if c.key.protocol == "proxyip" then Resource else Deferred)
    && e.seenUnix == now && e.checkedUnix == 0
    && e.alternates == (if |c.alternates| <= 16 then c.alternates else c.alternates[..16])
    && (e.hasAuth <==> HasCredentials(c.credential) || AnyCredentials(c.alternates))
    && forall k :: k in e.sources <==> exists v | v in Names(c) :: k == FiledAs(v, labels)
  }

  // A scrape lists every declaration once, and nothing else.
  lemma FreshDeclares(cs: seq<Candidate>, labels: Labels, now: int, c: Candidate)
    requires OneEach(cs) && c in cs && "" !in Names(c) && NO_SOURCE !in Names(c)
    ensures |Fresh(cs, labels, now)| == |cs| && EntriesSorted(Fresh(cs, labels, now))
    ensures Find(Fresh(cs, labels, now), c.key).Some? && DeclaredAs(c, labels, now, Find(Fresh(cs, labels, now), c.key).value)
  {
    var e := FreshOf(cs, labels, now, c);
    DeclaredOrder(cs, labels);
    FindUnique(Fresh(cs, labels, now), e);
    SourcesAre(Names(c), NO_SOURCE, labels);
    assert Names(c)[0] in Names(c);
    assert FiledAs(Names(c)[0], labels) in SourcesFrom(Names(c), NO_SOURCE, labels);
  }

  // --------------------------------------------------------------- history

  ghost predicate Refreshable(previous: Option<Snapshot>) {
    previous.Some? ==> Usable(previous.value) && UsableFailures(previous.value) && EntriesSorted(Pending(previous.value))
  }

  ghost function PreviousPending(previous: Option<Snapshot>): seq<Entry>
    requires Refreshable(previous)
  {
    if previous.Some? then Pending(previous.value) else []
  }

  ghost function PreviousFailed(previous: Option<Snapshot>): seq<FailedEntry>
    requires Refreshable(previous)
  {
    if previous.Some? then FailedOf(previous.value) else []
  }

  // The new inventory with what it takes over: merged by source when a feed
  // failed, else only outcomes carried.
  ghost function Base(ps: seq<Entry>, cs: seq<Entry>, failedSources: set<string>): seq<Entry> {
    if failedSources == {} then Carry(ps, cs) else MergeEntries(ps, cs, failedSources)
  }

  lemma BaseOfNothing(cs: seq<Entry>, failedSources: set<string>)
    ensures Base([], cs, failedSources) == cs
  {
  }

  method StampRecords(s: Snapshot, records: array<Record>, now: int)
    requires Grounded(s) && records[..] == s.records
    modifies records
    ensures var t := s.(records := records[..]); Grounded(t) && Pending(t) == Stamp(Pending(s), now)
  {
    for i := 0 to records.Length
      invariant forall n | 0 <= n < i :: records[n] == s.records[n].(seenUnix := now)
      invariant forall n | i <= n < records.Length :: records[n] == s.records[n]
    {
      records[i] := records[i].(seenUnix := now);
    }
    StampedMeans(s, records[..], now);
  }

  lemma StampedMeans(s: Snapshot, now: seq<Record>, at: int)
    requires Grounded(s) && |now| == |s.records| && forall n | 0 <= n < |now| :: now[n] == s.records[n].(seenUnix := at)
    ensures var t := s.(records := now); Grounded(t) && Pending(t) == Stamp(Pending(s), at)
  {
    var t := s.(records := now);
    forall n | 0 <= n < |now| ensures Fits(t.tables, now[n]) && AltsFit(t.alternates, now[n]) { assert s.records[n] in s.records; }
  }

  // A fresh snapshot of the scrape, every record stamped.
  method FreshSnapshot(candidates: seq<Candidate>, labels: Labels, now: int) returns (s: Snapshot)
    requires Inventory(candidates, labels)
    ensures Usable(s) && s.failed == [] && Pending(s) == Fresh(candidates, labels, now)
    ensures AllKnown(candidates) ==> KnownProtocols(s.tables)
    ensures s.meta == Meta(0, 0, "", 0, None, None, None)
  {
    s := BuildCandidateSnapshot(candidates, labels);
    var built := s.records;
    var records := new Record[|built|](i requires 0 <= i < |built| => built[i]);
    assert records[..] == s.records;
    StampRecords(s, records, now);
    s := s.(records := records[..]);
    FreshIs(candidates, labels, now);
  }

  method TakeHistory(previous: Snapshot, current: Snapshot, failedSources: set<string>) returns (s: Snapshot)
    requires Usable(previous) && EntriesSorted(Pending(previous))
    requires Usable(current) && EntriesSorted(Pending(current)) && current.failed == []
    ensures Grounded(s) && Sane(s.tables) && s.failed == []
    ensures Pending(s) == Base(Pending(previous), Pending(current), failedSources)
    ensures KnownProtocols(previous.tables) && KnownProtocols(current.tables) ==> KnownProtocols(s.tables)
    ensures s.meta == if previous.records == [] then current.meta else current.meta.(completedAt := previous.meta.completedAt)
  {
    s := current;
    if |previous.records| > 0 {
      if failedSources != {} {
        s := MergeCandidateSnapshots(previous, current, failedSources);
      } else {
        var records := new Record[|current.records|](i requires 0 <= i < |current.records| => current.records[i]);
        assert records[..] == current.records;
        CarryCandidateHistory(previous, current, records);
        s := current.(records := records[..]);
        s := s.(meta := s.meta.(completedAt := previous.meta.completedAt));
        assert Pending(s) == Pending(current.(records := records[..]));
      }
    } else {
      BaseOfNothing(Pending(current), failedSources);
    }
  }

  lemma {:induction false} MergeAttributed(ps: seq<Entry>, cs: seq<Entry>, failed: set<string>)
    requires AllAttributed(ps) && AllAttributed(cs)
    ensures AllAttributed(MergeEntries(ps, cs, failed))
    decreases |ps| + |cs|
  {
    MergeFits(ps, cs, failed);
    if ps != [] {
      assert ps[0] in ps && forall e | e in ps[1..] :: e in ps;
      if HasSourceIn(ps[0], failed) { FilteredAttributed(ps[0], failed); }
      if cs == [] || KeyLess(ps[0].key, cs[0].key) {
        MergeAttributed(ps[1..], cs, failed);
      } else {
        assert cs[0] in cs && forall e | e in cs[1..] :: e in cs;
        if KeyLess(cs[0].key, ps[0].key) {
          MergeAttributed(ps, cs[1..], failed);
        } else {
          MergedAttributed(ps[0], cs[0], failed);
          MergeAttributed(ps[1..], cs[1..], failed);
        }
      }
    }
  }

  lemma FilteredAttributed(e: Entry, failed: set<string>)
    requires Attributed(e) && HasSourceIn(e, failed)
    ensures Attributed(Filtered(e, failed))
  {
    KeepInElements(e.sources, failed);
    KeepInSorted(e.sources, failed);
    var k :| k in e.sources && k in failed;
    assert k in KeepIn(e.sources, failed);
  }

  lemma MergedAttributed(p: Entry, c: Entry, failed: set<string>)
    requires Attributed(p) && Attributed(c)
    ensures Attributed(MergedEntry(p, c, failed))
  {
    KeepInSorted(p.sources, failed);
    Merge2Elements(KeepIn(p.sources, failed), c.sources);
    Merge2Sorted(KeepIn(p.sources, failed), c.sources);
    assert c.sources[0] in c.sources;
    assert c.sources[0] in MergedEntry(p, c, failed).sources;
    AppendNewIs(MAX_ALTERNATES, [], MergedEntry(p, c, failed).credential, c.alternates + [p.credential] + p.alternates);
  }

  lemma BaseIs(ps: seq<Entry>, cs: seq<Entry>, failedSources: set<string>)
    requires EntriesSorted(ps) && EntriesSorted(cs) && AllAttributed(ps) && AllAttributed(cs)
    ensures EntriesSorted(Base(ps, cs, failedSources)) && AllAttributed(Base(ps, cs, failedSources))
  {
    if failedSources == {} {
      var r := Carry(ps, cs);
      forall j | 0 <= j < |cs| ensures r[j].key == cs[j].key && Attributed(r[j]) { assert cs[j] in cs; }
    } else {
      MergeSorted(ps, cs, failedSources);
      MergeAttributed(ps, cs, failedSources);
    }
  }

  // ------------------------------------------------------------------ begin

  // History and durable failures of the previous snapshot.
  method MeetPrevious(previous: Snapshot, current: Snapshot, failedSources: set<string>) returns (s: Snapshot)
    requires Refreshable(Some(previous)) && Usable(current) && EntriesSorted(Pending(current)) && current.failed == []
    ensures Grounded(s) && Sane(s.tables)
    ensures var base := Base(Pending(previous), Pending(current), failedSources);
            Pending(s) == ReconciledPending(FailedOf(previous), base) && FailedOf(s) == ReconciledFailed(FailedOf(previous), base)
    ensures KnownProtocols(previous.tables) && KnownProtocols(current.tables) ==> KnownProtocols(s.tables)
    ensures s.meta == if previous.records != [] || previous.failed != [] then current.meta.(completedAt := previous.meta.completedAt) else current.meta
  {
    BaseIs(Pending(previous), Pending(current), failedSources);
    s := TakeHistory(previous, current, failedSources);
    s := ReconcileCandidateFailures(previous, s);
  }

  // The snapshot begin publishes over previous.
  method BeginSnapshot(previous: Option<Snapshot>, candidates: seq<Candidate>, labels: Labels, failedSources: set<string>,
                       sourceErrors: nat, generation: nat, now: int) returns (s: Snapshot)
    requires Inventory(candidates, labels) && Refreshable(previous)
    ensures Grounded(s) && Sane(s.tables)
    ensures var base := Base(PreviousPending(previous), Fresh(candidates, labels, now), failedSources);
            && Pending(s) == ReconciledPending(PreviousFailed(previous), base)
            && FailedOf(s) == ReconciledFailed(PreviousFailed(previous), base)
    ensures (previous.Some? ==> KnownProtocols(previous.value.tables)) && AllKnown(candidates) ==> KnownProtocols(s.tables)
    ensures s.meta == Meta(generation, 1, "checking", sourceErrors, Some(now), Some(now),
              if previous.Some? && (previous.value.records != [] || previous.value.failed != []) then previous.value.meta.completedAt else None)
  {
    FreshIs(candidates, labels, now);
    s := FreshSnapshot(candidates, labels, now);
    if previous.Some? {
      s := MeetPrevious(previous.value, s, failedSources);
    } else {
      BaseOfNothing(Pending(s), failedSources);
      NothingFailed(Pending(s));
      assert FailedOf(s) == ReconciledFailed([], Pending(s));
    }
    s := WithMeta(s, s.meta.(generation := generation, revision := 1, phase := "checking", sourceErrors := sourceErrors,
                             seenAt := Some(now), refreshAttempt := Some(now)));
  }

  method WithMeta(s: Snapshot, m: Meta) returns (t: Snapshot)
    requires Grounded(s)
    ensures t == s.(meta := m) && Grounded(t) && Pending(t) == Pending(s) && FailedOf(t) == FailedOf(s)
  {
    t := s.(meta := m);
    assert Pending(t) == Pending(s) && FailedOf(t) == FailedOf(s);
  }

  // ----------------------------------------------------------- the invariant

  lemma InvariantRefreshable(s: Snapshot)
    requires Invariant(s)
    ensures Refreshable(Some(s)) && KnownProtocols(s.tables)
  {
  }

  // What entries must be like for their snapshot to meet the invariant.
  lemma InvariantFrom(s: Snapshot)
    requires Grounded(s) && Sane(s.tables) && KnownProtocols(s.tables)
    requires forall e | e in Pending(s) :: PendingOk(e)
    requires forall f | f in FailedOf(s) :: EntryOk(f.entry) && f.entry.status == Deferred && f.entry.key.protocol != "proxyip"
    requires EntriesSorted(Pending(s)) && FailedSorted(FailedOf(s))
    requires EntryKeys(Pending(s)) !! FailedKeys(FailedOf(s))
    ensures Invariant(s)
  {
    forall r | r in s.records ensures r.sourceCount <= |s.tables.sources| {
      var i :| 0 <= i < |s.records| && s.records[i] == r;
      assert Pending(s)[i] in Pending(s);
      SourceCountBound(s.tables, r);
    }
    forall f | f in s.failed ensures f.record.sourceCount <= |s.tables.sources| {
      var i :| 0 <= i < |s.failed| && s.failed[i] == f;
      assert FailedOf(s)[i] in FailedOf(s);
      SourceCountBound(s.tables, f.record);
    }
  }

  // A failed key is not pending before, so what a scrape declares for it is new.
  lemma BaseDefersFailures(ps: seq<Entry>, cs: seq<Entry>, fs: seq<FailedEntry>, failedSources: set<string>)
    requires EntriesSorted(ps) && EntriesSorted(cs) && EntryKeys(ps) !! FailedKeys(fs)
    requires forall f | f in fs :: f.entry.key.protocol != "proxyip"
    requires forall e | e in cs && e.key.protocol != "proxyip" :: e.status == Deferred
    ensures forall e | e in Base(ps, cs, failedSources) && e.key in FailedKeys(fs) :: e.status == Deferred
  {
    var base := Base(ps, cs, failedSources);
    forall e | e in base && e.key in FailedKeys(fs) ensures e.status == Deferred {
      FindIs(ps, e.key);
      assert Find(ps, e.key) == None;
      if failedSources == {} {
        var j :| 0 <= j < |base| && base[j] == e;
        assert cs[j] in cs && cs[j].key == e.key && Find(ps, cs[j].key) == None;
      } else {
        MergeSorted(ps, cs, failedSources);
        FindUnique(base, e);
        MergeIsMap(ps, cs, failedSources, e.key);
        FindIs(cs, e.key);
      }
    }
  }

  lemma BaseOk(ps: seq<Entry>, cs: seq<Entry>, failedSources: set<string>)
    requires EntriesSorted(ps) && EntriesSorted(cs)
    requires (forall e | e in ps :: PendingOk(e)) && (forall e | e in cs :: PendingOk(e))
    ensures EntriesSorted(Base(ps, cs, failedSources)) && forall e | e in Base(ps, cs, failedSources) :: PendingOk(e)
  {
    if failedSources == {} {
      CarryKeeps(ps, cs);
    } else {
      MergeSorted(ps, cs, failedSources);
      MergeOk(ps, cs, failedSources);
    }
  }

  ghost predicate Good(previous: Option<Snapshot>) { previous.Some? ==> Invariant(previous.value) }

  // begin keeps the invariant: from a snapshot that meets it, a deduplicated and
  // labelled inventory, whatever feeds failed, the published snapshot meets
  // every structural clause of the validator.
  method Begin(previous: Option<Snapshot>, candidates: seq<Candidate>, labels: Labels, failedSources: set<string>,
               sourceErrors: nat, generation: nat, now: int) returns (s: Snapshot)
    requires Inventory(candidates, labels) && WellFormed(candidates) && Good(previous)
    ensures Invariant(s) && Refreshable(previous)
    ensures var base := Base(PreviousPending(previous), Fresh(candidates, labels, now), failedSources);
            && Pending(s) == ReconciledPending(PreviousFailed(previous), base)
            && FailedOf(s) == ReconciledFailed(PreviousFailed(previous), base)
    ensures s.meta == Meta(generation, 1, "checking", sourceErrors, Some(now), Some(now),
              if previous.Some? && (previous.value.records != [] || previous.value.failed != []) then previous.value.meta.completedAt else None)
  {
    if previous.Some? { InvariantRefreshable(previous.value); }
    s := BeginSnapshot(previous, candidates, labels, failedSources, sourceErrors, generation, now);
    ghost var ps, fs, cs := PreviousPending(previous), PreviousFailed(previous), Fresh(candidates, labels, now);
    BegunOk(ps, fs, cs, candidates, labels, failedSources, now);
    InvariantFrom(s);
  }

  lemma BegunOk(ps: seq<Entry>, fs: seq<FailedEntry>, cs: seq<Entry>, candidates: seq<Candidate>, labels: Labels,
                failedSources: set<string>, now: int)
    requires Inventory(candidates, labels) && WellFormed(candidates) && cs == Fresh(candidates, labels, now)
    requires EntriesSorted(ps) && FailedSorted(fs) && EntryKeys(ps) !! FailedKeys(fs) && forall e | e in ps :: PendingOk(e)
    requires forall f | f in fs :: EntryOk(f.entry) && f.entry.status == Deferred && f.entry.key.protocol != "proxyip"
    ensures var base := Base(ps, cs, failedSources);
            var pending, failed := ReconciledPending(fs, base), ReconciledFailed(fs, base);
            && (forall e | e in pending :: PendingOk(e))
            && (forall f | f in failed :: EntryOk(f.entry) && f.entry.status == Deferred && f.entry.key.protocol != "proxyip")
            && EntriesSorted(pending) && FailedSorted(failed) && EntryKeys(pending) !! FailedKeys(failed)
  {
    var base := Base(ps, cs, failedSources);
    FreshIs(candidates, labels, now);
    BaseOk(ps, cs, failedSources);
    BaseDefersFailures(ps, cs, fs, failedSources);
    ReconcileKeys(fs, base);
    ReconcileOk(fs, base);
  }
}
