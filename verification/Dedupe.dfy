// dedupeCandidates (main.go): the scraped inventory is sorted and compacted in
// place, one entry for each protocol, address and port, with all its sources
// and credentials.
module Dedupe {
  import opened Proxies
  import opened Credentials
  import opened Sorting
  import Lexicographic

  const MAX_CREDENTIAL_ALTERNATES := 8
  const UNKNOWN_COUNTRY := "Unknown"

  datatype Declared = Declared(
    protocol: string,
    ip: string,
    port: string,
    source: string,
    sources: seq<string>,
    credential: Credential,
    alternates: seq<Credential>,
    country: string,
    city: string,
    continent: string)

  const BLANK := Declared("", "", "", "", [], Credential("", ""), [], "", "", "")

  datatype Ident = Ident(protocol: string, ip: string, port: string)

  function IdentOf(d: Declared): Ident { Ident(d.protocol, d.ip, d.port) }

  // -------------------------------------------------------------------- order

  predicate IdentLess(a: Ident, b: Ident) {
    Lexicographic.Less(a.protocol, b.protocol) || (a.protocol == b.protocol && Lexicographic.PairLess(a.ip, a.port, b.ip, b.port))
  }

  lemma IdentOrder(a: Ident, b: Ident, c: Ident)
    ensures !IdentLess(a, a)
    ensures IdentLess(a, b) && IdentLess(b, c) ==> IdentLess(a, c)
    ensures IdentLess(a, b) || a == b || IdentLess(b, a)
    ensures IdentLess(a, b) ==> !IdentLess(b, a) && a != b
  {
    Lexicographic.Irreflexive(a.protocol);
    Lexicographic.PairIrreflexive(a.ip, a.port);
    Lexicographic.Trichotomy(a.protocol, b.protocol);
    Lexicographic.PairTrichotomy(a.ip, a.port, b.ip, b.port);
    if IdentLess(a, b) {
      if Lexicographic.Less(a.protocol, b.protocol) {
        Lexicographic.Asymmetric(a.protocol, b.protocol);
      } else {
        Lexicographic.PairAsymmetric(a.ip, a.port, b.ip, b.port);
      }
      if IdentLess(b, c) {
        if Lexicographic.Less(a.protocol, b.protocol) && Lexicographic.Less(b.protocol, c.protocol) {
          Lexicographic.Transitive(a.protocol, b.protocol, c.protocol);
        }
        if a.protocol == b.protocol == c.protocol { Lexicographic.PairTransitive(a.ip, a.port, b.ip, b.port, c.ip, c.port); }
      }
    }
  }

  // The comparison of the sort: identity, then source, then credential.
  predicate RestLess(a: Declared, b: Declared) {
    Lexicographic.Less(a.source, b.source)
    || (a.source == b.source && Lexicographic.PairLess(a.credential.username, a.credential.password, b.credential.username, b.credential.password))
  }

  function Order(): (Declared, Declared) -> bool {
    (a: Declared, b: Declared) => IdentLess(IdentOf(a), IdentOf(b)) || (IdentOf(a) == IdentOf(b) && RestLess(a, b))
  }

  lemma RestOrder(a: Declared, b: Declared, c: Declared)
    ensures !RestLess(a, a)
    ensures RestLess(a, b) && RestLess(b, c) ==> RestLess(a, c)
  {
    Lexicographic.Irreflexive(a.source);
    Lexicographic.PairIrreflexive(a.credential.username, a.credential.password);
    if RestLess(a, b) && RestLess(b, c) {
      if Lexicographic.Less(a.source, b.source) && Lexicographic.Less(b.source, c.source) { Lexicographic.Transitive(a.source, b.source, c.source); }
      if a.source == b.source == c.source {
        Lexicographic.PairTransitive(a.credential.username, a.credential.password, b.credential.username, b.credential.password,
                                     c.credential.username, c.credential.password);
      }
    }
  }

  lemma OrderIsStrict()
    ensures Transitive(Order()) && Irreflexive(Order())
  {
    forall a: Declared, b: Declared, c: Declared ensures !Order()(a, a) && (Order()(a, b) && Order()(b, c) ==> Order()(a, c)) {
      IdentOrder(IdentOf(a), IdentOf(b), IdentOf(c));
      RestOrder(a, b, c);
    }
  }

  ghost predicate IdentsAscend(s: seq<Declared>) { forall i, j | 0 <= i < j < |s| :: !IdentLess(IdentOf(s[j]), IdentOf(s[i])) }

  // ---------------------------------------------------------------- merging

  function StringOrder(): (string, string) -> bool { (a: string, b: string) => Lexicographic.Less(a, b) }

  // The appendUnique closure over a list: empty names and repeats are skipped.
  function Unique(names: seq<string>): seq<string> {
    if names == [] then []
    else
      var before, v := Unique(names[..|names|-1]), names[|names|-1];
      if v == "" || v in before then before else before + [v]
  }

  // mergeCandidateSources
  function MergedSources(a: Declared, b: Declared): seq<string> {
    SortBy(StringOrder(), Unique([a.source] + a.sources + [b.source] + b.sources))
  }

  // mergeCandidateMetadata
  function Filled(d: Declared, other: Declared): Declared {
    d.(country := if d.country == "" || d.country == UNKNOWN_COUNTRY then other.country else d.country,
       city := if d.city == "" then other.city else d.city,
       continent := if d.continent == "" then other.continent else d.continent)
  }

  function CredentialOrder(): (Credential, Credential) -> bool {
    (a: Credential, b: Credential) => Lexicographic.PairLess(a.username, a.password, b.username, b.password)
  }

  // mergeCandidateCredentials
  function MergedCredentials(d: Declared, other: Declared): Declared {
    d.(alternates := SortBy(CredentialOrder(),
         AppendNew(MAX_CREDENTIAL_ALTERNATES, d.alternates, d.credential, [other.credential] + other.alternates)))
  }

  function Attributed(d: Declared, attribution: seq<string>): Declared {
    d.(sources := attribution, source := if attribution != [] then attribution[0] else d.source)
  }

  predicate TakesOver(cur: Declared, px: Declared) {
    px.source != "" && (cur.source == "" || Lexicographic.Less(px.source, cur.source))
  }

  // The duplicate branch of the compaction loop.
  function Merged(cur: Declared, px: Declared): Declared {
    if TakesOver(cur, px) then Attributed(MergedCredentials(Filled(px, cur), cur), MergedSources(cur, px))
    else Attributed(MergedCredentials(Filled(cur, px), px), MergedSources(cur, px))
  }

  // As a value: what the duplicate branch is in the facts about the compaction.
  function Merger(): (Declared, Declared) -> Declared { (cur: Declared, px: Declared) => Merged(cur, px) }

  function Compact(merge: (Declared, Declared) -> Declared, s: seq<Declared>): seq<Declared> {
    if s == [] then [] else Joined(merge, Compact(merge, s[..|s|-1]), s[|s|-1])
  }

  // One round of the compaction loop.
  function Joined(merge: (Declared, Declared) -> Declared, c: seq<Declared>, px: Declared): seq<Declared> {
    if c == [] || IdentOf(c[|c|-1]) != IdentOf(px) then c + [px] else c[..|c|-1] + [merge(c[|c|-1], px)]
  }

  // The last loop: the source list sorted, its first entry the primary source.
  function Settled(d: Declared): Declared {
    if d.sources == [] then d
    else var sorted := SortBy(StringOrder(), d.sources); d.(sources := sorted, source := sorted[0])
  }

  function AllSettled(ds: seq<Declared>): (r: seq<Declared>)
    ensures |r| == |ds|
  {
    seq(|ds|, i requires 0 <= i < |ds| => Settled(ds[i]))
  }

  // ------------------------------------------------------------ what it keeps

  function SourcesOf(d: Declared): set<string> { (set k | k in d.sources && k != "") + (if d.source == "" then {} else {d.source}) }

  function CredentialsOf(d: Declared): set<Credential> { (set c | c in d.alternates) + {d.credential} }

  // The union over all declarations of one identity.
  function GroupSources(s: seq<Declared>, id: Ident): set<string> {
    if s == [] then {} else GroupSources(s[..|s|-1], id) + if IdentOf(s[|s|-1]) == id then SourcesOf(s[|s|-1]) else {}
  }

  function GroupCredentials(s: seq<Declared>, id: Ident): set<Credential> {
    if s == [] then {} else GroupCredentials(s[..|s|-1], id) + if IdentOf(s[|s|-1]) == id then CredentialsOf(s[|s|-1]) else {}
  }

  lemma {:induction false} GroupSourcesAre(s: seq<Declared>, id: Ident)
    ensures forall k :: k in GroupSources(s, id) <==> exists d | d in s :: IdentOf(d) == id && k in SourcesOf(d)
  {
    if s != [] {
      GroupSourcesAre(s[..|s|-1], id);
      assert s == s[..|s|-1] + [s[|s|-1]];
    }
  }

  lemma {:induction false} GroupCredentialsAre(s: seq<Declared>, id: Ident)
    ensures forall c :: c in GroupCredentials(s, id) <==> exists d | d in s :: IdentOf(d) == id && c in CredentialsOf(d)
  {
    if s != [] {
      GroupCredentialsAre(s[..|s|-1], id);
      assert s == s[..|s|-1] + [s[|s|-1]];
    }
  }

  // Alternates as raw declarations and merged entries have them.
  ghost predicate Tidy(d: Declared) {
    Alternates(MAX_CREDENTIAL_ALTERNATES, d.credential, d.alternates)
    && forall i, j | 0 <= i < j < |d.alternates| :: CredentialOrder()(d.alternates[i], d.alternates[j])
  }

  // The primary source is blank or among the sources, if there are any.
  ghost predicate NamesItself(d: Declared) { d.sources == [] || d.source == "" || d.source in d.sources }

  // ----------------------------------------------------------------- one merge

  ghost predicate DistinctStrings(s: seq<string>) { forall i, j | 0 <= i < j < |s| :: s[i] != s[j] }

  lemma {:induction false} UniqueIs(names: seq<string>)
    ensures DistinctStrings(Unique(names))
    ensures forall k :: k in Unique(names) <==> k in names && k != ""
  {
    if names != [] {
      UniqueIs(names[..|names|-1]);
      var before, v := Unique(names[..|names|-1]), names[|names|-1];
      if v !in before { forall i | 0 <= i < |before| ensures before[i] != v { assert before[i] in before; } }
      assert names == names[..|names|-1] + [names[|names|-1]];
    }
  }

  lemma StringsAreOrdered(s: seq<string>)
    requires DistinctStrings(s)
    ensures StrictOrderOn(StringOrder(), s)
  {
    var less := StringOrder();
    forall x | x in s ensures !less(x, x) { Lexicographic.Irreflexive(x); }
    forall x, y, z | x in s && y in s && z in s && less(x, y) && less(y, z) ensures less(x, z) { Lexicographic.Transitive(x, y, z); }
    forall i, j | 0 <= i < j < |s| ensures less(s[i], s[j]) || less(s[j], s[i]) { Lexicographic.Trichotomy(s[i], s[j]); }
  }

  lemma MergedSourcesAre(a: Declared, b: Declared)
    ensures var r := MergedSources(a, b);
            && (forall k :: k in r <==> k in SourcesOf(a) + SourcesOf(b))
            && (forall i, j | 0 <= i < j < |r| :: Lexicographic.Less(r[i], r[j]))
            && "" !in r
  {
    var names := [a.source] + a.sources + [b.source] + b.sources;
    var u := Unique(names);
    assert forall k :: k in names <==> k == a.source || k in a.sources || k == b.source || k in b.sources;
    UniqueIs(names);
    StringsAreOrdered(u);
    SortAscending(StringOrder(), u);
    var r := SortBy(StringOrder(), u);
    SameElements(r, u);
    forall i, j | 0 <= i < j < |r| ensures Lexicographic.Less(r[i], r[j]) { assert StringOrder()(r[i], r[j]); }
  }

  lemma CredentialsAreOrdered(s: seq<Credential>)
    requires DistinctCredentials(s)
    ensures StrictOrderOn(CredentialOrder(), s)
  {
    var less := CredentialOrder();
    forall x | x in s ensures !less(x, x) { Lexicographic.PairIrreflexive(x.username, x.password); }
    forall x, y, z | x in s && y in s && z in s && less(x, y) && less(y, z) ensures less(x, z) {
      Lexicographic.PairTransitive(x.username, x.password, y.username, y.password, z.username, z.password);
    }
    forall i, j | 0 <= i < j < |s| ensures less(s[i], s[j]) || less(s[j], s[i]) {
      Lexicographic.PairTrichotomy(s[i].username, s[i].password, s[j].username, s[j].password);
    }
  }

  // Merging credentials keeps the alternates tidy and invents none.
  lemma MergedCredentialsAre(d: Declared, other: Declared)
    requires Tidy(d)
    ensures var m := MergedCredentials(d, other);
            Tidy(m) && m.credential == d.credential && CredentialsOf(m) <= CredentialsOf(d) + CredentialsOf(other)
    ensures forall c :: c in MergedCredentials(d, other).alternates
              <==> c in AppendNew(MAX_CREDENTIAL_ALTERNATES, d.alternates, d.credential, [other.credential] + other.alternates)
  {
    var cs := [other.credential] + other.alternates;
    var a := AppendNew(MAX_CREDENTIAL_ALTERNATES, d.alternates, d.credential, cs);
    AppendNewIs(MAX_CREDENTIAL_ALTERNATES, d.alternates, d.credential, cs);
    CredentialsAreOrdered(a);
    SortAscending(CredentialOrder(), a);
    var r := SortBy(CredentialOrder(), a);
    SameElements(r, a);
    AscendingDistinct(r);
    assert forall i, j | 0 <= i < j < |r| :: CredentialOrder()(r[i], r[j]);
  }

  // With at most nine distinct credentials it loses none.
  lemma MergedCredentialsKept(d: Declared, other: Declared)
    requires Tidy(d) && |CredentialsOf(d) + CredentialsOf(other)| <= MAX_CREDENTIAL_ALTERNATES + 1
    ensures CredentialsOf(MergedCredentials(d, other)) == CredentialsOf(d) + CredentialsOf(other)
  {
    MergedCredentialsAre(d, other);
    AllTaken(d.alternates, d.credential, [other.credential] + other.alternates, CredentialsOf(d) + CredentialsOf(other));
  }

  lemma AllTaken(alternates: seq<Credential>, primary: Credential, cs: seq<Credential>, both: set<Credential>)
    requires Alternates(MAX_CREDENTIAL_ALTERNATES, primary, alternates) && |both| <= MAX_CREDENTIAL_ALTERNATES + 1
    requires primary in both && forall c | c in both :: c == primary || c in alternates || c in cs
    requires forall c | c in alternates || c in cs :: c in both
    ensures forall c | c in both :: c == primary || c in AppendNew(MAX_CREDENTIAL_ALTERNATES, alternates, primary, cs)
  {
    assert |both - {primary}| == |both| - 1;
    AllCredentialsKept(MAX_CREDENTIAL_ALTERNATES, alternates, primary, cs, both - {primary});
    AppendNewIs(MAX_CREDENTIAL_ALTERNATES, alternates, primary, cs);
    var a := AppendNew(MAX_CREDENTIAL_ALTERNATES, alternates, primary, cs);
    forall c | c in alternates ensures c in a { assert c in a[..|alternates|]; }
  }

  lemma AscendingDistinct(r: seq<Credential>)
    requires Ascending(CredentialOrder(), r)
    ensures DistinctCredentials(r)
  {
    forall i, j | 0 <= i < j < |r| ensures r[i] != r[j] {
      assert CredentialOrder()(r[i], r[j]);
      Lexicographic.PairIrreflexive(r[i].username, r[i].password);
    }
  }

  // What one merge keeps.
  lemma MergedIs(cur: Declared, px: Declared)
    requires IdentOf(cur) == IdentOf(px) && Tidy(cur) && Tidy(px)
    ensures var m := Merged(cur, px);
            && IdentOf(m) == IdentOf(cur) && Tidy(m)
            && SourcesOf(m) == SourcesOf(cur) + SourcesOf(px)
            && CredentialsOf(m) <= CredentialsOf(cur) + CredentialsOf(px)
            && (|CredentialsOf(cur) + CredentialsOf(px)| <= MAX_CREDENTIAL_ALTERNATES + 1 ==>
                  CredentialsOf(m) == CredentialsOf(cur) + CredentialsOf(px))
  {
    hide Unique, AppendNew;
    MergedSourcesAre(cur, px);
    MergedCredentialsAre(Filled(px, cur), cur);
    MergedCredentialsAre(Filled(cur, px), px);
    if |CredentialsOf(cur) + CredentialsOf(px)| <= MAX_CREDENTIAL_ALTERNATES + 1 {
      assert CredentialsOf(cur) + CredentialsOf(px) == CredentialsOf(Filled(px, cur)) + CredentialsOf(cur);
      MergedCredentialsKept(Filled(px, cur), cur);
      MergedCredentialsKept(Filled(cur, px), px);
    }
    MergedSourcesOf(cur, px);
    assert CredentialsOf(cur) + CredentialsOf(px) == CredentialsOf(px) + CredentialsOf(cur);
  }

  lemma MergedSourcesOf(cur: Declared, px: Declared)
    ensures SourcesOf(Merged(cur, px)) == SourcesOf(cur) + SourcesOf(px)
    ensures Merged(cur, px).sources == [] || Merged(cur, px).source in Merged(cur, px).sources
  {
    MergedSourcesAre(cur, px);
    var a, m := MergedSources(cur, px), Merged(cur, px);
    assert m.sources == a;
    if a == [] {
      assert forall k :: k !in SourcesOf(cur) + SourcesOf(px);
      assert cur.source != "" ==> cur.source in SourcesOf(cur);
      assert px.source != "" ==> px.source in SourcesOf(px);
    } else {
      assert a[0] in a && m.source == a[0];
    }
  }

  // ------------------------------------------------------------ the compaction

  ghost predicate Strict(ds: seq<Declared>) { forall i, j | 0 <= i < j < |ds| :: IdentLess(IdentOf(ds[i]), IdentOf(ds[j])) }

  function Idents(s: seq<Declared>): set<Ident> { set d | d in s :: IdentOf(d) }

  lemma IdentsPush(s: seq<Declared>, d: Declared)
    ensures Idents(s + [d]) == Idents(s) + {IdentOf(d)}
  {
    assert forall x :: x in s + [d] <==> x in s || x == d;
  }

  // Everything in the set is at or below the identity.
  ghost predicate UpTo(ids: set<Ident>, id: Ident) { forall x | x in ids :: x == id || IdentLess(x, id) }

  lemma AscendsUpTo(s: seq<Declared>)
    requires s != [] && IdentsAscend(s)
    ensures IdentsAscend(s[..|s|-1]) && UpTo(Idents(s), IdentOf(s[|s|-1]))
  {
    forall x | x in Idents(s) ensures x == IdentOf(s[|s|-1]) || IdentLess(x, IdentOf(s[|s|-1])) {
      var d :| d in s && IdentOf(d) == x;
      var i :| 0 <= i < |s| && s[i] == d;
      IdentOrder(x, IdentOf(s[|s|-1]), x);
    }
  }

  ghost predicate KeepsIdents(merge: (Declared, Declared) -> Declared) {
    forall cur, px | IdentOf(cur) == IdentOf(px) :: IdentOf(merge(cur, px)) == IdentOf(px)
  }

  lemma StrictPush(c: seq<Declared>, d: Declared)
    requires Strict(c) && UpTo(Idents(c), IdentOf(d)) && IdentOf(d) !in Idents(c)
    ensures Strict(c + [d])
  {
    forall i | 0 <= i < |c| ensures IdentLess(IdentOf(c[i]), IdentOf(d)) { assert c[i] in c && IdentOf(c[i]) in Idents(c); }
  }

  // In a strict list the last identity is on top, and not among the others.
  lemma LastOnTop(c: seq<Declared>)
    requires c != [] && Strict(c)
    ensures var last := IdentOf(c[|c|-1]);
            Strict(c[..|c|-1]) && last !in Idents(c[..|c|-1]) && UpTo(Idents(c[..|c|-1]), last) && Idents(c) == Idents(c[..|c|-1]) + {last}
  {
    var front, last := c[..|c|-1], IdentOf(c[|c|-1]);
    assert c == front + [c[|c|-1]];
    IdentsPush(front, c[|c|-1]);
    forall x | x in Idents(front) ensures x != last && IdentLess(x, last) {
      var d :| d in front && IdentOf(d) == x;
      var i :| 0 <= i < |front| && front[i] == d;
      assert c[i] == d;
      IdentOrder(x, last, x);
    }
  }

  // Where the compaction stands: a strict list of the identities so far, the last
  // one on top.
  ghost predicate Compacted(s: seq<Declared>, c: seq<Declared>) {
    Strict(c) && Idents(c) == Idents(s) && (c != [] ==> s != [] && IdentOf(c[|c|-1]) == IdentOf(s[|s|-1])) && (c == [] ==> s == [])
  }

  lemma CompactedPush(s: seq<Declared>, c: seq<Declared>, px: Declared)
    requires Compacted(s, c) && UpTo(Idents(s), IdentOf(px)) && (c == [] || IdentOf(c[|c|-1]) != IdentOf(px))
    ensures IdentOf(px) !in Idents(s) && Compacted(s + [px], c + [px])
  {
    if c != [] {
      LastOnTop(c);
      var last := IdentOf(c[|c|-1]);
      assert last in Idents(c);
      IdentOrder(last, IdentOf(px), last);
      if IdentOf(px) in Idents(c) { IdentOrder(IdentOf(px), last, last); }
    }
    StrictPush(c, px);
    IdentsPush(s, px);
    IdentsPush(c, px);
  }

  lemma CompactedSwap(s: seq<Declared>, c: seq<Declared>, px: Declared, m: Declared)
    requires Compacted(s, c) && c != [] && IdentOf(c[|c|-1]) == IdentOf(px) == IdentOf(m)
    ensures Compacted(s + [px], c[..|c|-1] + [m])
  {
    LastOnTop(c);
    StrictPush(c[..|c|-1], m);
    IdentsPush(s, px);
    IdentsPush(c[..|c|-1], m);
  }

  // The compacted list has each identity of the input once, in strict order.
  lemma {:induction false} CompactIdents(merge: (Declared, Declared) -> Declared, s: seq<Declared>)
    requires KeepsIdents(merge) && IdentsAscend(s)
    ensures Compacted(s, Compact(merge, s))
  {
    if s != [] {
      var front, px := s[..|s|-1], s[|s|-1];
      assert s == front + [px];
      AscendsUpTo(s);
      CompactIdents(merge, front);
      IdentsPush(front, px);
      var c := Compact(merge, front);
      if c == [] || IdentOf(c[|c|-1]) != IdentOf(px) {
        CompactedPush(front, c, px);
      } else {
        CompactedSwap(front, c, px, merge(c[|c|-1], px));
      }
    }
  }

  // An identity that is not there has no group.
  lemma {:induction false} NoGroup(s: seq<Declared>, id: Ident)
    requires id !in Idents(s)
    ensures GroupSources(s, id) == {} && GroupCredentials(s, id) == {}
  {
    if s != [] {
      IdentsPush(s[..|s|-1], s[|s|-1]);
      assert s == s[..|s|-1] + [s[|s|-1]];
      NoGroup(s[..|s|-1], id);
    }
  }

  ghost predicate GroupTidy(s: seq<Declared>, id: Ident) { forall d | d in s && IdentOf(d) == id :: Tidy(d) }

  // The one declaration of its identity.
  ghost predicate OnlyOne(s: seq<Declared>, d: Declared) {
    multiset(s)[d] == 1 && forall x | x in s && IdentOf(x) == IdentOf(d) :: x == d
  }

  // Of tidy declarations: tidy alternates, no foreign credential, and all of them
  // if there are at most nine.
  ghost predicate HoldsCredentials(s: seq<Declared>, e: Declared) {
    && Tidy(e)
    && CredentialsOf(e) <= GroupCredentials(s, IdentOf(e))
    && (|GroupCredentials(s, IdentOf(e))| <= MAX_CREDENTIAL_ALTERNATES + 1 ==> CredentialsOf(e) == GroupCredentials(s, IdentOf(e)))
  }

  // A group of one is its declaration, a merged entry lists its own source.
  ghost predicate HoldsName(s: seq<Declared>, e: Declared) {
    && (NamesItself(e) || OnlyOne(s, e))
    && forall d | OnlyOne(s, d) && IdentOf(d) == IdentOf(e) :: d == e
  }

  // What every entry of the compacted list holds of its group.
  ghost predicate HoldsGroup(s: seq<Declared>, e: Declared) {
    && IdentOf(e) in Idents(s)
    && SourcesOf(e) == GroupSources(s, IdentOf(e))
    && (GroupTidy(s, IdentOf(e)) ==> HoldsCredentials(s, e))
    && HoldsName(s, e)
  }

  lemma OnlyOnePush(s: seq<Declared>, px: Declared, d: Declared)
    ensures OnlyOne(s + [px], d) <==> if IdentOf(px) == IdentOf(d) then d == px && IdentOf(px) !in Idents(s) else OnlyOne(s, d)
  {
    assert forall x :: x in s + [px] <==> x in s || x == px;
    assert multiset(s + [px]) == multiset(s) + multiset{px};
    if IdentOf(px) == IdentOf(d) {
      if IdentOf(px) in Idents(s) {
        var x :| x in s && IdentOf(x) == IdentOf(px);
        assert multiset(s)[x] > 0;
      }
      if d == px && IdentOf(px) !in Idents(s) { assert px !in s; }
    }
  }

  lemma HoldsGroupPast(s: seq<Declared>, e: Declared, px: Declared)
    requires HoldsGroup(s, e) && IdentOf(px) != IdentOf(e)
    ensures HoldsGroup(s + [px], e)
  {
    assert (s + [px])[..|s|] == s;
    IdentsPush(s, px);
    assert GroupTidy(s + [px], IdentOf(e)) ==> GroupTidy(s, IdentOf(e)) by { assert forall x :: x in s ==> x in s + [px]; }
    forall d ensures IdentOf(d) == IdentOf(e) ==> (OnlyOne(s + [px], d) <==> OnlyOne(s, d)) { OnlyOnePush(s, px, d); }
  }

  lemma HoldsGroupFirst(s: seq<Declared>, px: Declared)
    requires IdentOf(px) !in Idents(s)
    ensures HoldsGroup(s + [px], px)
  {
    assert (s + [px])[..|s|] == s;
    IdentsPush(s, px);
    NoGroup(s, IdentOf(px));
    assert px in s + [px];
    forall d ensures OnlyOne(s + [px], d) && IdentOf(d) == IdentOf(px) <==> d == px { OnlyOnePush(s, px, d); }
  }

  lemma HoldsGroupMerged(s: seq<Declared>, cur: Declared, px: Declared)
    requires HoldsGroup(s, cur) && IdentOf(px) == IdentOf(cur)
    ensures HoldsGroup(s + [px], Merged(cur, px))
  {
    var id := IdentOf(cur);
    assert (s + [px])[..|s|] == s;
    IdentsPush(s, px);
    MergedSourcesOf(cur, px);
    forall d ensures !(OnlyOne(s + [px], d) && IdentOf(d) == id) { OnlyOnePush(s, px, d); }
    if GroupTidy(s + [px], id) {
      assert px in s + [px] && forall x :: x in s ==> x in s + [px];
      CredentialsMerged(s, cur, px);
    }
  }

  lemma CredentialsMerged(s: seq<Declared>, cur: Declared, px: Declared)
    requires HoldsCredentials(s, cur) && IdentOf(px) == IdentOf(cur) && Tidy(px)
    ensures HoldsCredentials(s + [px], Merged(cur, px))
  {
    var group := GroupCredentials(s + [px], IdentOf(cur));
    assert (s + [px])[..|s|] == s;
    MergedIs(cur, px);
    assert group == GroupCredentials(s, IdentOf(cur)) + CredentialsOf(px);
    if |group| <= MAX_CREDENTIAL_ALTERNATES + 1 { SmallerGroup(GroupCredentials(s, IdentOf(cur)), group); }
  }

  lemma SmallerGroup(a: set<Credential>, b: set<Credential>)
    requires a <= b
    ensures |a| <= |b|
  {
    assert |b - a| == |b| - |a|;
  }

  ghost function GroupHeld(): (seq<Declared>, Declared) -> bool { (s: seq<Declared>, e: Declared) => HoldsGroup(s, e) }

  // Where the node is, as some declaration of the group says: known iff any of
  // them knows.
  ghost predicate HoldsPlace(s: seq<Declared>, e: Declared) {
    && (exists d | d in s :: IdentOf(d) == IdentOf(e) && d.country == e.country)
    && (IsKnown(e.country) <==> exists d | d in s :: IdentOf(d) == IdentOf(e) && IsKnown(d.country))
    && (exists d | d in s :: IdentOf(d) == IdentOf(e) && d.city == e.city)
    && (e.city != "" <==> exists d | d in s :: IdentOf(d) == IdentOf(e) && d.city != "")
    && (exists d | d in s :: IdentOf(d) == IdentOf(e) && d.continent == e.continent)
    && (e.continent != "" <==> exists d | d in s :: IdentOf(d) == IdentOf(e) && d.continent != "")
  }

  predicate IsKnown(country: string) { country != "" && country != "Unknown" }

  lemma HoldsPlacePast(s: seq<Declared>, e: Declared, px: Declared)
    requires HoldsPlace(s, e) && IdentOf(px) != IdentOf(e)
    ensures HoldsPlace(s + [px], e)
  {
    assert forall x :: x in s + [px] <==> x in s || x == px;
  }

  lemma HoldsPlaceFirst(s: seq<Declared>, px: Declared)
    requires IdentOf(px) !in Idents(s)
    ensures HoldsPlace(s + [px], px)
  {
    assert forall x :: x in s + [px] <==> x in s || x == px;
    forall x | x in s ensures IdentOf(x) != IdentOf(px) { }
  }

  lemma HoldsPlaceMerged(s: seq<Declared>, cur: Declared, px: Declared)
    requires HoldsPlace(s, cur) && IdentOf(px) == IdentOf(cur)
    ensures HoldsPlace(s + [px], Merged(cur, px))
  {
    hide MergedSources, SortBy, AppendNew;
    assert forall x :: x in s + [px] <==> x in s || x == px;
  }

  ghost function PlaceHeld(): (seq<Declared>, Declared) -> bool { (s: seq<Declared>, e: Declared) => HoldsPlace(s, e) }

  lemma PlaceIsHeld()
    ensures Renewed(PlaceHeld(), Merger())
  {
    hide HoldsPlace, Idents;
    forall s: seq<Declared>, e: Declared, px: Declared | HoldsPlace(s, e) && IdentOf(px) != IdentOf(e) ensures HoldsPlace(s + [px], e) {
      HoldsPlacePast(s, e, px);
    }
    forall s: seq<Declared>, px: Declared | IdentOf(px) !in Idents(s) ensures HoldsPlace(s + [px], px) { HoldsPlaceFirst(s, px); }
    forall s: seq<Declared>, e: Declared, px: Declared | HoldsPlace(s, e) && IdentOf(px) == IdentOf(e)
      ensures HoldsPlace(s + [px], Merged(e, px))
    {
      HoldsPlaceMerged(s, e, px);
    }
  }

  // Declarations as a scrape makes them: one source each.
  ghost predicate Raw(s: seq<Declared>, id: Ident) { forall d | d in s && IdentOf(d) == id :: d.sources == [] }

  // The declaration comes before the other: named sources before none, then by
  // source, then by credential.
  ghost predicate NotBehind(d: Declared, x: Declared) {
    if d.source == x.source then !Lexicographic.PairLess(x.credential.username, x.credential.password, d.credential.username, d.credential.password)
    else d.source != "" && (x.source == "" || Lexicographic.Less(d.source, x.source))
  }

  // Of the group's declarations, the one that comes first.
  ghost predicate Leads(s: seq<Declared>, d: Declared) {
    d in s && forall x | x in s && IdentOf(x) == IdentOf(d) :: NotBehind(d, x)
  }

  // Its source and credential, and of the place what it knows.
  ghost predicate LedBy(e: Declared, d: Declared) {
    && IdentOf(d) == IdentOf(e) && d.source == e.source && d.credential == e.credential
    && (IsKnown(d.country) ==> e.country == d.country)
    && (d.city != "" ==> e.city == d.city) && (d.continent != "" ==> e.continent == d.continent)
  }

  // The list as it is read.
  ghost predicate InOrder(s: seq<Declared>) { forall i, j | 0 <= i < j < |s| :: !Order()(s[j], s[i]) }

  lemma InOrderNext(s: seq<Declared>, px: Declared)
    requires InOrder(s + [px])
    ensures InOrder(s) && forall d | d in s && IdentOf(d) == IdentOf(px) :: !RestLess(px, d)
  {
    var all := s + [px];
    forall i, j | 0 <= i < j < |s| ensures !Order()(s[j], s[i]) { assert !Order()(all[j], all[i]); }
    forall d | d in s && IdentOf(d) == IdentOf(px) ensures !RestLess(px, d) {
      var i :| 0 <= i < |s| && s[i] == d;
      assert !Order()(all[|s|], all[i]);
    }
  }

  // Of a list in order, the entry is led by the group's first declaration.
  ghost predicate HoldsPrimary(s: seq<Declared>, e: Declared) {
    InOrder(s) && Raw(s, IdentOf(e)) ==>
      && (exists d | d in s :: Leads(s, d) && LedBy(e, d))
      && (forall k | k in SourcesOf(e) :: exists x | x in s :: IdentOf(x) == IdentOf(e) && x.source == k)
      && (e.source != "" ==> e.source in SourcesOf(e))
      && (e.sources == [] || (e.source == e.sources[0] && forall k | k in e.sources :: k == e.source || Lexicographic.Less(e.source, k)))
  }

  lemma LeadsPast(s: seq<Declared>, d: Declared, px: Declared)
    requires Leads(s, d) && (IdentOf(px) == IdentOf(d) ==> NotBehind(d, px))
    ensures Leads(s + [px], d)
  {
    assert forall x :: x in s + [px] <==> x in s || x == px;
  }

  lemma HoldsPrimaryPast(s: seq<Declared>, e: Declared, px: Declared)
    requires HoldsPrimary(s, e) && IdentOf(px) != IdentOf(e)
    ensures HoldsPrimary(s + [px], e)
  {
    assert forall x :: x in s + [px] <==> x in s || x == px;
    if InOrder(s + [px]) && Raw(s + [px], IdentOf(e)) {
      InOrderNext(s, px);
      assert Raw(s, IdentOf(e));
      var d :| d in s && Leads(s, d) && LedBy(e, d);
      LeadsPast(s, d, px);
    }
  }

  lemma HoldsPrimaryFirst(s: seq<Declared>, px: Declared)
    requires IdentOf(px) !in Idents(s)
    ensures HoldsPrimary(s + [px], px)
  {
    assert forall x :: x in s + [px] <==> x in s || x == px;
    forall x | x in s ensures IdentOf(x) != IdentOf(px) { }
    if Raw(s + [px], IdentOf(px)) {
      Lexicographic.PairIrreflexive(px.credential.username, px.credential.password);
      assert Leads(s + [px], px) && LedBy(px, px);
    }
  }

  lemma HoldsPrimaryMerged(s: seq<Declared>, cur: Declared, px: Declared)
    requires HoldsPrimary(s, cur) && IdentOf(px) == IdentOf(cur)
    ensures HoldsPrimary(s + [px], Merged(cur, px))
  {
    hide Merged, MergedSources, NotBehind, InOrder;
    var id, all, m := IdentOf(cur), s + [px], Merged(cur, px);
    MergedIdent(cur, px);
    assert forall x :: x in all <==> x in s || x == px;
    if InOrder(all) && Raw(all, id) {
      InOrderNext(s, px);
      assert Raw(s, id) && px in all;
      var d :| d in s && Leads(s, d) && LedBy(cur, d);
      MergedSourcesAre(cur, px);
      MergedSourcesOf(cur, px);
      var lead := if TakesOver(cur, px) then px else d;
      NewLead(s, d, px, lead);
      PrimaryIs(all, MergedSources(cur, px), cur, px, lead);
      MergedLedBy(cur, px, d, lead);
    }
  }

  lemma MergedIdent(cur: Declared, px: Declared)
    requires IdentOf(px) == IdentOf(cur)
    ensures IdentOf(Merged(cur, px)) == IdentOf(cur)
  {
  }

  // The merged entry keeps what its leading declaration says.
  lemma MergedLedBy(cur: Declared, px: Declared, d: Declared, lead: Declared)
    requires LedBy(cur, d) && IdentOf(px) == IdentOf(cur) && lead == if TakesOver(cur, px) then px else d
    requires var r := MergedSources(cur, px); if r == [] then lead.source == "" else r[0] == lead.source
    ensures LedBy(Merged(cur, px), lead) && Merged(cur, px).sources == MergedSources(cur, px)
  {
    hide MergedSources, AppendNew, SortBy;
  }

  // Whether the new declaration takes over or not, the one kept leads.
  lemma NewLead(s: seq<Declared>, d: Declared, px: Declared, lead: Declared)
    requires Leads(s, d) && IdentOf(px) == IdentOf(d) && !RestLess(px, d)
    requires lead == if px.source != "" && (d.source == "" || Lexicographic.Less(px.source, d.source)) then px else d
    ensures Leads(s + [px], lead)
  {
    assert forall x :: x in s + [px] <==> x in s || x == px;
    Lexicographic.PairIrreflexive(px.credential.username, px.credential.password);
    Lexicographic.Trichotomy(px.source, d.source);
    if lead == px && px != d {
      forall x | x in s && IdentOf(x) == IdentOf(px) ensures NotBehind(px, x) { assert NotBehind(d, x); }
    } else {
      LeadsPast(s, d, px);
    }
  }

  // The attribution starts with the source of the declaration that leads.
  lemma PrimaryIs(all: seq<Declared>, r: seq<string>, cur: Declared, px: Declared, lead: Declared)
    requires Leads(all, lead) && IdentOf(lead) == IdentOf(cur) == IdentOf(px) && px in all
    requires lead.source != "" ==> lead.source in SourcesOf(cur) + SourcesOf(px)
    requires forall k | k in SourcesOf(cur) + SourcesOf(px) :: exists x | x in all :: IdentOf(x) == IdentOf(lead) && x.source == k
    requires (forall k :: k in r <==> k in SourcesOf(cur) + SourcesOf(px)) && "" !in r
    requires forall i, j | 0 <= i < j < |r| :: Lexicographic.Less(r[i], r[j])
    ensures if r == [] then lead.source == "" else r[0] == lead.source
    ensures forall k | k in r :: k == r[0] || Lexicographic.Less(r[0], k)
  {
    if r != [] {
      assert r[0] in r;
      var x :| x in all && IdentOf(x) == IdentOf(lead) && x.source == r[0];
      assert NotBehind(lead, x);
      var i :| 0 <= i < |r| && r[i] == lead.source;
      if i > 0 { Lexicographic.Asymmetric(r[0], r[i]); }
      forall k | k in r ensures k == r[0] || Lexicographic.Less(r[0], k) { var j :| 0 <= j < |r| && r[j] == k; }
    }
  }

  ghost function PrimaryHeld(): (seq<Declared>, Declared) -> bool { (s: seq<Declared>, e: Declared) => HoldsPrimary(s, e) }

  lemma PrimaryIsHeld()
    ensures Renewed(PrimaryHeld(), Merger())
  {
    hide HoldsPrimary, Idents;
    forall s: seq<Declared>, e: Declared, px: Declared | HoldsPrimary(s, e) && IdentOf(px) != IdentOf(e) ensures HoldsPrimary(s + [px], e) {
      HoldsPrimaryPast(s, e, px);
    }
    forall s: seq<Declared>, px: Declared | IdentOf(px) !in Idents(s) ensures HoldsPrimary(s + [px], px) { HoldsPrimaryFirst(s, px); }
    forall s: seq<Declared>, e: Declared, px: Declared | HoldsPrimary(s, e) && IdentOf(px) == IdentOf(e)
      ensures HoldsPrimary(s + [px], Merged(e, px))
    {
      HoldsPrimaryMerged(s, e, px);
    }
  }

  // A fact about an entry and the list read so far that survives other
  // identities, starts with a new one, and is renewed by merging.
  ghost predicate Renewed(holds: (seq<Declared>, Declared) -> bool, merge: (Declared, Declared) -> Declared) {
    && (forall s: seq<Declared>, e: Declared, px: Declared {:trigger holds(s + [px], e)} | holds(s, e) && IdentOf(px) != IdentOf(e) ::
          holds(s + [px], e))
    && (forall s: seq<Declared>, px: Declared {:trigger holds(s + [px], px)} | IdentOf(px) !in Idents(s) :: holds(s + [px], px))
    && (forall s: seq<Declared>, e: Declared, px: Declared {:trigger holds(s + [px], merge(e, px))}
          | holds(s, e) && IdentOf(px) == IdentOf(e) :: holds(s + [px], merge(e, px)))
  }

  ghost predicate AllHold(holds: (seq<Declared>, Declared) -> bool, s: seq<Declared>, c: seq<Declared>) {
    forall i | 0 <= i < |c| :: holds(s, c[i])
  }

  lemma HoldsAfterJoin(holds: (seq<Declared>, Declared) -> bool, merge: (Declared, Declared) -> Declared, s: seq<Declared>, c: seq<Declared>, px: Declared)
    requires Renewed(holds, merge) && Compacted(s, c) && AllHold(holds, s, c) && UpTo(Idents(s), IdentOf(px))
    ensures AllHold(holds, s + [px], Joined(merge, c, px))
  {
    if c == [] || IdentOf(c[|c|-1]) != IdentOf(px) {
      CompactedPush(s, c, px);
      forall i | 0 <= i < |c| ensures holds(s + [px], c[i]) { assert c[i] in c && IdentOf(c[i]) in Idents(c); }
      assert holds(s + [px], px);
    } else {
      forall i | 0 <= i < |c| - 1 ensures holds(s + [px], c[i]) { IdentOrder(IdentOf(c[i]), IdentOf(px), IdentOf(c[i])); }
      assert holds(s + [px], merge(c[|c|-1], px));
    }
  }

  // Each entry of the compacted list holds what its group declared.
  lemma {:induction false} CompactHolds(holds: (seq<Declared>, Declared) -> bool, merge: (Declared, Declared) -> Declared, s: seq<Declared>)
    requires Renewed(holds, merge) && KeepsIdents(merge) && IdentsAscend(s)
    ensures AllHold(holds, s, Compact(merge, s))
  {
    if s != [] {
      var front, px := s[..|s|-1], s[|s|-1];
      assert s == front + [px];
      AscendsUpTo(s);
      IdentsPush(front, px);
      CompactIdents(merge, front);
      CompactHolds(holds, merge, front);
      HoldsAfterJoin(holds, merge, front, Compact(merge, front), px);
    }
  }

  // ---------------------------------------------------------------- settling

  // The last loop keeps a declaration's attribution exactly when its source is
  // missing or listed among its sources; a merged entry always is.
  lemma SettledSources(d: Declared)
    ensures SourcesOf(Settled(d)) == SourcesOf(d) <==> NamesItself(d)
    ensures SourcesOf(Settled(d)) <= SourcesOf(d)
    ensures IdentOf(Settled(d)) == IdentOf(d) && CredentialsOf(Settled(d)) == CredentialsOf(d) && (Tidy(d) ==> Tidy(Settled(d)))
  {
    if d.sources != [] {
      var sorted := SortBy(StringOrder(), d.sources);
      SortElements(StringOrder(), d.sources);
      SameElements(sorted, d.sources);
      assert sorted[0] in sorted;
      if d.source != "" && d.source !in d.sources { assert d.source in SourcesOf(d) && d.source !in SourcesOf(Settled(d)); }
    }
  }

  // A single declaration that names a source outside its own list loses it.
  lemma SingleMayLoseItsSource()
    ensures exists d: Declared :: Tidy(d) && SourcesOf(AllSettled(Compact(Merger(), [d]))[0]) != SourcesOf(d)
  {
    var d := BLANK.(source := "a", sources := ["b"]);
    assert Compact(Merger(), [d][..0]) == [];
    assert Compact(Merger(), [d]) == [d];
    assert "a" !in d.sources;
    SettledSources(d);
    assert Tidy(d) && AllSettled(Compact(Merger(), [d]))[0] == Settled(d);
  }

  lemma MergerIs()
    ensures Renewed(GroupHeld(), Merger()) && KeepsIdents(Merger())
  {
    hide HoldsGroup, Idents;
    forall s: seq<Declared>, e: Declared, px: Declared | HoldsGroup(s, e) && IdentOf(px) != IdentOf(e) ensures HoldsGroup(s + [px], e) {
      HoldsGroupPast(s, e, px);
    }
    forall s: seq<Declared>, px: Declared | IdentOf(px) !in Idents(s) ensures HoldsGroup(s + [px], px) { HoldsGroupFirst(s, px); }
    forall s: seq<Declared>, e: Declared, px: Declared | HoldsGroup(s, e) && IdentOf(px) == IdentOf(e)
      ensures HoldsGroup(s + [px], Merged(e, px))
    {
      HoldsGroupMerged(s, e, px);
    }
  }

  // What the caller gets, in terms of the list it gave, whatever order equal
  // declarations were sorted in.
  ghost predicate Deduped(list: seq<Declared>, out: seq<Declared>) {
    && Strict(out) && Idents(out) == Idents(list)
    && forall i | 0 <= i < |out| :: SourcesKept(list, out[i]) && CredentialsKept(list, out[i]) && HoldsPlace(list, out[i])
         && LeastFirst(out[i]) && PrimaryKept(list, out[i])
  }

  // The primary source is the least of them.
  ghost predicate LeastFirst(e: Declared) { forall k | k in SourcesOf(e) :: k == e.source || Lexicographic.Less(e.source, k) }

  lemma SettledFirst(d: Declared)
    ensures LeastFirst(Settled(d))
  {
    if d.sources != [] {
      var sorted := SortBy(StringOrder(), d.sources);
      SortElements(StringOrder(), d.sources);
      SameElements(sorted, d.sources);
      StringSorted(d.sources);
      forall k | k in sorted ensures k == sorted[0] || Lexicographic.Less(sorted[0], k) {
        var i :| 0 <= i < |sorted| && sorted[i] == k;
        Lexicographic.Trichotomy(sorted[0], k);
      }
    }
  }

  lemma StringSorted(names: seq<string>)
    ensures var s := SortBy(StringOrder(), names); forall i, j | 0 <= i < j < |s| :: !Lexicographic.Less(s[j], s[i])
  {
    var less := StringOrder();
    forall x: string, y: string, z: string ensures !less(x, x) && (less(x, y) && less(y, z) ==> less(x, z)) {
      Lexicographic.Irreflexive(x);
      if less(x, y) && less(y, z) { Lexicographic.Transitive(x, y, z); }
    }
    SortKeepsOrder(less, names);
    var s := SortBy(less, names);
    forall i, j | 0 <= i < j < |s| ensures !Lexicographic.Less(s[j], s[i]) { assert !less(s[j], s[i]); }
  }

  // The sources declared for the identity, no other; all of them unless a sole
  // declaration names a source outside its own list.
  ghost predicate SourcesKept(list: seq<Declared>, e: Declared) {
    && (forall k | k in SourcesOf(e) :: exists d | d in list :: IdentOf(d) == IdentOf(e) && k in SourcesOf(d))
    && (SourcesOf(e) == GroupSources(list, IdentOf(e)) <==> forall d | OnlyOne(list, d) && IdentOf(d) == IdentOf(e) :: NamesItself(d))
  }

  ghost predicate AscendingAlternates(e: Declared) {
    forall i, j | 0 <= i < j < |e.alternates| ::
      Lexicographic.PairLess(e.alternates[i].username, e.alternates[i].password, e.alternates[j].username, e.alternates[j].password)
  }

  lemma TidyAscends(e: Declared)
    requires Tidy(e)
    ensures AscendingAlternates(e)
  {
    forall i, j | 0 <= i < j < |e.alternates|
      ensures Lexicographic.PairLess(e.alternates[i].username, e.alternates[i].password, e.alternates[j].username, e.alternates[j].password)
    {
      assert CredentialOrder()(e.alternates[i], e.alternates[j]);
    }
  }

  // Of an identity whose declarations are tidy.
  ghost predicate CredentialsKept(list: seq<Declared>, e: Declared) {
    GroupTidy(list, IdentOf(e)) ==>
      && HoldsCredentials(list, e)
      && (forall c | c in CredentialsOf(e) :: exists d | d in list :: IdentOf(d) == IdentOf(e) && c in CredentialsOf(d))
      && AscendingAlternates(e)
  }

  lemma GroupsAgree(list: seq<Declared>, sorted: seq<Declared>, id: Ident)
    requires multiset(list) == multiset(sorted)
    ensures GroupSources(list, id) == GroupSources(sorted, id) && GroupCredentials(list, id) == GroupCredentials(sorted, id)
    ensures GroupTidy(list, id) <==> GroupTidy(sorted, id)
    ensures forall d :: OnlyOne(list, d) <==> OnlyOne(sorted, d)
  {
    SameElements(list, sorted);
    GroupSourcesAre(list, id);
    GroupSourcesAre(sorted, id);
    GroupCredentialsAre(list, id);
    GroupCredentialsAre(sorted, id);
  }

  lemma SettledEntry(list: seq<Declared>, sorted: seq<Declared>, e: Declared)
    requires multiset(list) == multiset(sorted) && InOrder(sorted) && HoldsGroup(sorted, e) && HoldsPlace(sorted, e) && HoldsPrimary(sorted, e)
    ensures SourcesKept(list, Settled(e)) && CredentialsKept(list, Settled(e)) && HoldsPlace(list, Settled(e)) && LeastFirst(Settled(e))
            && PrimaryKept(list, Settled(e))
  {
    hide Settled, Tidy, SourcesOf, CredentialsOf, HoldsPlace, LeastFirst, HoldsPrimary, PrimaryKept, InOrder, AscendingAlternates;
    SettledPrimary(list, sorted, e);
    SettledFirst(e);
    SettledPlace(list, sorted, e);
    SettledSources(e);
    GroupsAgree(list, sorted, IdentOf(e));
    GroupSourcesAre(list, IdentOf(e));
    GroupCredentialsAre(list, IdentOf(e));
    if Tidy(Settled(e)) { TidyAscends(Settled(e)); }
  }

  // Of declarations of one source each, the entry is led by the first.
  ghost predicate PrimaryKept(list: seq<Declared>, e: Declared) {
    Raw(list, IdentOf(e)) ==> exists d | d in list :: Leads(list, d) && LedBy(e, d)
  }

  lemma SettledPrimary(list: seq<Declared>, sorted: seq<Declared>, e: Declared)
    requires multiset(list) == multiset(sorted) && InOrder(sorted) && HoldsPrimary(sorted, e)
    ensures PrimaryKept(list, Settled(e))
  {
    hide Leads;
    SameElements(list, sorted);
    if Raw(list, IdentOf(e)) {
      assert Raw(sorted, IdentOf(e));
      SettledSource(e);
      var d :| d in sorted && Leads(sorted, d) && LedBy(e, d);
      LeadsAlike(list, sorted, d);
    }
  }

  lemma LeadsAlike(list: seq<Declared>, sorted: seq<Declared>, d: Declared)
    requires (forall x :: x in list <==> x in sorted) && Leads(sorted, d)
    ensures Leads(list, d)
  {
  }

  lemma SettledSource(e: Declared)
    requires e.sources == [] || (e.source == e.sources[0] && forall k | k in e.sources :: k == e.source || Lexicographic.Less(e.source, k))
    ensures forall d :: LedBy(e, d) ==> LedBy(Settled(e), d)
  {
    if e.sources != [] {
      var s := SortBy(StringOrder(), e.sources);
      SortElements(StringOrder(), e.sources);
      SameElements(s, e.sources);
      StringSorted(e.sources);
      assert e.source in s && s[0] in e.sources;
      var i :| 0 <= i < |s| && s[i] == e.source;
    }
  }

  lemma SettledPlace(list: seq<Declared>, sorted: seq<Declared>, e: Declared)
    requires multiset(list) == multiset(sorted) && HoldsPlace(sorted, e)
    ensures HoldsPlace(list, Settled(e))
  {
    hide SortBy;
    SameElements(list, sorted);
  }

  lemma DedupeIs(list: seq<Declared>, sorted: seq<Declared>)
    requires multiset(list) == multiset(sorted) && IdentsAscend(sorted) && InOrder(sorted)
    ensures Deduped(list, AllSettled(Compact(Merger(), sorted)))
  {
    MergerIs();
    PlaceIsHeld();
    PrimaryIsHeld();
    DedupeWith(Merger(), list, sorted);
  }

  lemma DedupeWith(merge: (Declared, Declared) -> Declared, list: seq<Declared>, sorted: seq<Declared>)
    requires Renewed(GroupHeld(), merge) && Renewed(PlaceHeld(), merge) && Renewed(PrimaryHeld(), merge) && KeepsIdents(merge)
    requires multiset(list) == multiset(sorted) && IdentsAscend(sorted) && InOrder(sorted)
    ensures Deduped(list, AllSettled(Compact(merge, sorted)))
  {
    SameElements(list, sorted);
    CompactIdents(merge, sorted);
    CompactHolds(GroupHeld(), merge, sorted);
    CompactHolds(PlaceHeld(), merge, sorted);
    CompactHolds(PrimaryHeld(), merge, sorted);
    var c, out := Compact(merge, sorted), AllSettled(Compact(merge, sorted));
    forall i | 0 <= i < |c|
      ensures SourcesKept(list, out[i]) && CredentialsKept(list, out[i]) && HoldsPlace(list, out[i]) && LeastFirst(out[i])
              && PrimaryKept(list, out[i]) && IdentOf(out[i]) == IdentOf(c[i])
    {
      assert GroupHeld()(sorted, c[i]) && PlaceHeld()(sorted, c[i]) && PrimaryHeld()(sorted, c[i]);
      SettledEntry(list, sorted, c[i]);
      SettledSources(c[i]);
    }
    SameIdents(out, c);
    assert Idents(sorted) == Idents(list);
  }

  lemma SameIdents(a: seq<Declared>, b: seq<Declared>)
    requires |a| == |b| && forall i | 0 <= i < |a| :: IdentOf(a[i]) == IdentOf(b[i])
    ensures Idents(a) == Idents(b) && (Strict(b) ==> Strict(a))
  {
    forall x ensures x in Idents(a) <==> x in Idents(b) {
      if x in Idents(a) {
        var d :| d in a && IdentOf(d) == x;
        var i :| 0 <= i < |a| && a[i] == d;
        assert b[i] in b;
      }
      if x in Idents(b) {
        var d :| d in b && IdentOf(d) == x;
        var i :| 0 <= i < |b| && b[i] == d;
        assert a[i] in a;
      }
    }
  }

  // --------------------------------------------------------------- in place

  method SortList(list: array<Declared>)
    modifies list
    ensures multiset(list[..]) == multiset(old(list[..])) && IdentsAscend(list[..]) && InOrder(list[..])
  {
    hide RestLess, IdentOf;
    var sorted := SortBy(Order(), list[..]);
    OrderIsStrict();
    SortKeepsOrder(Order(), list[..]);
    for i := 0 to list.Length
      invariant list[..i] == sorted[..i]
    {
      list[i] := sorted[i];
    }
    assert list[..] == sorted;
    assert sorted[..|sorted|] == sorted;
    forall i, j | 0 <= i < j < |sorted| ensures !IdentLess(IdentOf(sorted[j]), IdentOf(sorted[i])) { assert !Order()(sorted[j], sorted[i]); }
  }

  // The compaction loop: the write index never passes the read index, so what is
  // still to read is untouched.
  method CompactInPlace(merge: (Declared, Declared) -> Declared, list: array<Declared>) returns (write: nat)
    modifies list
    ensures write <= list.Length && list[..write] == Compact(merge, old(list[..]))
  {
    ghost var all := list[..];
    write := 0;
    for read := 0 to list.Length
      invariant write <= read && list[..write] == Compact(merge, all[..read])
      invariant forall k | read <= k < list.Length :: list[k] == all[k]
    {
      CompactNext(merge, all, read);
      write := CompactOne(merge, list, write, read);
    }
    assert all[..list.Length] == all;
  }

  method CompactOne(merge: (Declared, Declared) -> Declared, list: array<Declared>, write: nat, read: nat) returns (next: nat)
    requires write <= read < list.Length
    modifies list
    ensures next <= read + 1 && list[..next] == Joined(merge, old(list[..write]), old(list[read]))
    ensures forall k | read < k < list.Length :: list[k] == old(list[k])
  {
    if write == 0 || IdentOf(list[write - 1]) != IdentOf(list[read]) {
      list[write] := list[read];
      next := write + 1;
    } else {
      list[write - 1] := merge(list[write - 1], list[read]);
      next := write;
    }
  }

  lemma CompactNext(merge: (Declared, Declared) -> Declared, all: seq<Declared>, i: nat)
    requires i < |all|
    ensures Compact(merge, all[..i + 1]) == Joined(merge, Compact(merge, all[..i]), all[i])
  {
    assert all[..i + 1][..i] == all[..i];
  }

  method SettleInPlace(list: array<Declared>, write: nat)
    requires write <= list.Length
    modifies list
    ensures list[..write] == AllSettled(old(list[..write]))
    ensures forall i | write <= i < list.Length :: list[i] == BLANK
  {
    for i := 0 to write
      invariant forall j | 0 <= j < i :: list[j] == Settled(old(list[j]))
      invariant forall j | i <= j < list.Length :: list[j] == old(list[j])
    {
      list[i] := Settled(list[i]);
    }
    for i := write to list.Length
      invariant forall j | 0 <= j < write :: list[j] == Settled(old(list[j]))
      invariant forall j | write <= j < i :: list[j] == BLANK
    {
      list[i] := BLANK;
    }
  }

  // dedupeCandidates: whatever the declarations, each identity once in strict
  // order, with the sources and credentials declared for it.
  method DedupeCandidates(list: array<Declared>) returns (write: nat)
    modifies list
    ensures write <= list.Length && forall i | write <= i < list.Length :: list[i] == BLANK
    ensures Deduped(old(list[..]), list[..write])
  {
    SortList(list);
    ghost var sorted := list[..];
    write := CompactInPlace(Merger(), list);
    SettleInPlace(list, write);
    DedupeIs(old(list[..]), sorted);
  }
}
