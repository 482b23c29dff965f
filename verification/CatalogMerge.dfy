// What the catalog's merges mean, on entries (candidate_catalog.go).  The
// functions follow the branches of the code; the lemmas say what a reader wants
// to know: which keys survive a partial refresh, from which sources, and that
// every strict order is kept.
module CatalogMerge {
  import opened Proxies
  import opened CatalogModel
  import opened Credentials
  import opened Sorting
  import Lexicographic

  // ------------------------------------------------------------ source lists

  function KeepIn(ks: seq<string>, allowed: set<string>): seq<string> {
    if ks == [] then [] else (if ks[0] in allowed then [ks[0]] else []) + KeepIn(ks[1..], allowed)
  }

  // Two sorted lists into one, equal heads once.
  function Merge2(a: seq<string>, b: seq<string>): seq<string> {
    if a == [] then b
    else if b == [] then a
    else if Lexicographic.Less(a[0], b[0]) then [a[0]] + Merge2(a[1..], b)
    else if Lexicographic.Less(b[0], a[0]) then [b[0]] + Merge2(a, b[1..])
    else [a[0]] + Merge2(a[1..], b[1..])
  }

  lemma {:induction false} KeepInElements(ks: seq<string>, allowed: set<string>)
    ensures forall k :: k in KeepIn(ks, allowed) <==> k in ks && k in allowed
  {
    if ks != [] {
      KeepInElements(ks[1..], allowed);
      assert ks == [ks[0]] + ks[1..];
    }
  }

  lemma {:induction false} KeepInSorted(ks: seq<string>, allowed: set<string>)
    requires StrictlySorted(ks)
    ensures StrictlySorted(KeepIn(ks, allowed))
  {
    if ks != [] {
      TailElements(ks);
      KeepInSorted(ks[1..], allowed);
      KeepInElements(ks[1..], allowed);
      PrependSorted(ks[0], ks[1..], KeepIn(ks[1..], allowed));
    }
  }

  // A head below every element of a list that the sorted tail may draw from.
  lemma PrependSorted(h: string, from: seq<string>, tail: seq<string>)
    requires StrictlySorted([h] + from) && StrictlySorted(tail) && forall k | k in tail :: k in from
    ensures StrictlySorted([h] + tail)
  {
    forall j | 0 <= j < |tail| ensures Lexicographic.Less(h, tail[j]) {
      assert tail[j] in from;
      var i :| 0 <= i < |from| && from[i] == tail[j];
      assert ([h] + from)[0] == h && ([h] + from)[i + 1] == from[i];
    }
  }

  lemma {:induction false} Merge2Elements(a: seq<string>, b: seq<string>)
    ensures forall k :: k in Merge2(a, b) <==> k in a || k in b
  {
    if a != [] && b != [] {
      Lexicographic.Trichotomy(a[0], b[0]);
      assert a == [a[0]] + a[1..] && b == [b[0]] + b[1..];
      if Lexicographic.Less(a[0], b[0]) {
        Merge2Elements(a[1..], b);
      } else if Lexicographic.Less(b[0], a[0]) {
        Merge2Elements(a, b[1..]);
      } else {
        Merge2Elements(a[1..], b[1..]);
      }
    }
  }

  ghost predicate AllAbove(h: string, ks: seq<string>) { forall k | k in ks :: Lexicographic.Less(h, k) }

  lemma AboveTail(a: seq<string>)
    requires a != [] && StrictlySorted(a)
    ensures StrictlySorted(a[1..]) && AllAbove(a[0], a[1..])
  {
    TailElements(a);
    forall k | k in a[1..] ensures Lexicographic.Less(a[0], k) {
      var i :| 0 <= i < |a[1..]| && a[1..][i] == k;
      assert a[i + 1] == k;
    }
  }

  lemma AboveTransitive(h: string, a: seq<string>)
    requires a != [] && StrictlySorted(a) && Lexicographic.Less(h, a[0])
    ensures AllAbove(h, a)
  {
    AboveTail(a);
    forall k | k in a ensures Lexicographic.Less(h, k) {
      if k != a[0] { assert a == [a[0]] + a[1..]; Lexicographic.Transitive(h, a[0], k); }
    }
  }

  lemma PrependAbove(h: string, tail: seq<string>)
    requires StrictlySorted(tail) && AllAbove(h, tail)
    ensures StrictlySorted([h] + tail)
  {
    forall j | 0 <= j < |tail| ensures Lexicographic.Less(h, tail[j]) { assert tail[j] in tail; }
  }

  lemma {:induction false} Merge2Sorted(a: seq<string>, b: seq<string>)
    requires StrictlySorted(a) && StrictlySorted(b)
    ensures StrictlySorted(Merge2(a, b))
  {
    if a != [] && b != [] {
      Lexicographic.Trichotomy(a[0], b[0]);
      AboveTail(a);
      AboveTail(b);
      if Lexicographic.Less(a[0], b[0]) {
        Merge2Sorted(a[1..], b);
        Merge2Elements(a[1..], b);
        AboveTransitive(a[0], b);
        PrependAbove(a[0], Merge2(a[1..], b));
      } else if Lexicographic.Less(b[0], a[0]) {
        Merge2Sorted(a, b[1..]);
        Merge2Elements(a, b[1..]);
        AboveTransitive(b[0], a);
        PrependAbove(b[0], Merge2(a, b[1..]));
      } else {
        Merge2Sorted(a[1..], b[1..]);
        Merge2Elements(a[1..], b[1..]);
        PrependAbove(a[0], Merge2(a[1..], b[1..]));
      }
    }
  }

  // -------------------------------------------------------------- credentials

  function MergeAlternates(primaryAlts: seq<Credential>, primary: Credential, fallback: Credential, fallbackAlts: seq<Credential>): seq<Credential> {
    AppendNew(MAX_ALTERNATES, [], primary, primaryAlts + [fallback] + fallbackAlts)
  }

  // With at most sixteen distinct others, no credential of either declaration is
  // lost.
  lemma MergeKeepsCredentials(primaryAlts: seq<Credential>, primary: Credential, fallback: Credential, fallbackAlts: seq<Credential>)
    requires |(set c | c in primaryAlts + [fallback] + fallbackAlts) - {primary}| <= MAX_ALTERNATES
    ensures forall c | c in primaryAlts + [fallback] + fallbackAlts ::
              c == primary || c in MergeAlternates(primaryAlts, primary, fallback, fallbackAlts)
  {
    var cs := primaryAlts + [fallback] + fallbackAlts;
    AllCredentialsKept(MAX_ALTERNATES, [], primary, cs, (set c | c in cs) - {primary});
  }

  // --------------------------------------------------------- partial refresh

  predicate HasSourceIn(e: Entry, allowed: set<string>) { exists k | k in e.sources :: k in allowed }

  // appendFilteredRecord
  function Filtered(e: Entry, allowed: set<string>): Entry { e.(sources := KeepIn(e.sources, allowed)) }

  // The default branch of mergeCandidateSnapshots with appendMergedRecord.
  function MergedEntry(p: Entry, c: Entry, failed: set<string>): Entry {
    var kept := HasSourceIn(p, failed);
    var credential := if kept && c.credential.username == "" && p.credential.username != "" then p.credential else c.credential;
    var located := kept && c.country == "" && p.country != "";
    var alternates := if kept then MergeAlternates(c.alternates, credential, p.credential, p.alternates) else c.alternates;
    Entry(c.key, credential,
          if located then p.country else c.country,
          if kept && c.city == "" && p.city != "" then p.city else c.city,
          if located then p.continent else c.continent,
          p.status,
          HasCredentials(credential) || (kept && p.hasAuth) || AnyCredentials(alternates),
          c.seenUnix, p.checkedUnix,
          Merge2(KeepIn(p.sources, failed), c.sources),
          alternates)
  }

  function MergeEntries(ps: seq<Entry>, cs: seq<Entry>, failed: set<string>): seq<Entry> {
    if ps == [] then cs
    else if cs == [] then
      (if HasSourceIn(ps[0], failed) then [Filtered(ps[0], failed)] else []) + MergeEntries(ps[1..], cs, failed)
    else if KeyLess(ps[0].key, cs[0].key) then
      (if HasSourceIn(ps[0], failed) then [Filtered(ps[0], failed)] else []) + MergeEntries(ps[1..], cs, failed)
    else if KeyLess(cs[0].key, ps[0].key) then [cs[0]] + MergeEntries(ps, cs[1..], failed)
    else [MergedEntry(ps[0], cs[0], failed)] + MergeEntries(ps[1..], cs[1..], failed)
  }

  function Find(es: seq<Entry>, key: Key): Option<Entry> {
    if es == [] then None else if es[0].key == key then Some(es[0]) else Find(es[1..], key)
  }

  // The map a partial refresh computes, one key at a time.
  function Survivor(p: Option<Entry>, c: Option<Entry>, failed: set<string>): Option<Entry> {
    if c.Some? then Some(if p.Some? then MergedEntry(p.value, c.value, failed) else c.value)
    else if p.Some? && HasSourceIn(p.value, failed) then Some(Filtered(p.value, failed))
    else None
  }

  ghost predicate KeysAbove(k: Key, es: seq<Entry>) { forall e | e in es :: KeyLess(k, e.key) }

  lemma TailAbove(es: seq<Entry>)
    requires es != [] && EntriesSorted(es)
    ensures EntriesSorted(es[1..]) && KeysAbove(es[0].key, es[1..])
  {
    var t := es[1..];
    forall i, j | 0 <= i < j < |t| ensures KeyLess(t[i].key, t[j].key) { assert t[i] == es[i + 1] && t[j] == es[j + 1]; }
    forall e | e in t ensures KeyLess(es[0].key, e.key) {
      var i :| 0 <= i < |t| && t[i] == e;
      assert es[i + 1] == e;
    }
  }

  lemma AllAboveKey(k: Key, es: seq<Entry>)
    requires es != [] && EntriesSorted(es) && KeyLess(k, es[0].key)
    ensures KeysAbove(k, es)
  {
    TailAbove(es);
    forall e | e in es ensures KeyLess(k, e.key) {
      assert es == [es[0]] + es[1..];
      KeyOrder(k, es[0].key, e.key);
    }
  }

  lemma {:induction false} FindIs(es: seq<Entry>, key: Key)
    ensures Find(es, key).Some? ==> Find(es, key).value in es && Find(es, key).value.key == key
    ensures Find(es, key) == None ==> forall e | e in es :: e.key != key
  {
    if es != [] {
      FindIs(es[1..], key);
      assert es == [es[0]] + es[1..];
    }
  }

  lemma FindAbove(es: seq<Entry>, k: Key)
    requires KeysAbove(k, es)
    ensures Find(es, k) == None
  {
    FindIs(es, k);
    KeyOrder(k, k, k);
  }

  lemma MergeHeadDropped(ps: seq<Entry>, cs: seq<Entry>, failed: set<string>, key: Key)
    requires ps != [] && EntriesSorted(ps) && EntriesSorted(cs)
    requires cs == [] || KeyLess(ps[0].key, cs[0].key)
    ensures ps[0].key == key ==> Find(cs, key) == None && Find(ps[1..], key) == None
  {
    TailAbove(ps);
    FindAbove(ps[1..], ps[0].key);
    if cs != [] {
      AllAboveKey(ps[0].key, cs);
      FindAbove(cs, ps[0].key);
    }
  }

  lemma {:induction false} FindFront(f: seq<Entry>, rest: seq<Entry>, key: Key)
    requires |f| <= 1
    ensures Find(f + rest, key) == if f != [] && f[0].key == key then Some(f[0]) else Find(rest, key)
  {
    if f == [] { assert f + rest == rest; } else { assert (f + rest)[1..] == rest; }
  }

  // Main result: a partial refresh is exactly this map.
  lemma {:induction false} MergeIsMap(ps: seq<Entry>, cs: seq<Entry>, failed: set<string>, key: Key)
    requires EntriesSorted(ps) && EntriesSorted(cs)
    ensures Find(MergeEntries(ps, cs, failed), key) == Survivor(Find(ps, key), Find(cs, key), failed)
    decreases |ps| + |cs|
  {
    if ps == [] {
    } else if cs == [] || KeyLess(ps[0].key, cs[0].key) {
      TailAbove(ps);
      var f := if HasSourceIn(ps[0], failed) then [Filtered(ps[0], failed)] else [];
      MergeIsMap(ps[1..], cs, failed, key);
      MergeHeadDropped(ps, cs, failed, key);
      FindFront(f, MergeEntries(ps[1..], cs, failed), key);
    } else if KeyLess(cs[0].key, ps[0].key) {
      TailAbove(cs);
      MergeIsMap(ps, cs[1..], failed, key);
      FindFront([cs[0]], MergeEntries(ps, cs[1..], failed), key);
      AllAboveKey(cs[0].key, ps);
      FindAbove(ps, cs[0].key);
    } else {
      KeyOrder(ps[0].key, cs[0].key, cs[0].key);
      TailAbove(ps);
      TailAbove(cs);
      MergeIsMap(ps[1..], cs[1..], failed, key);
      FindFront([MergedEntry(ps[0], cs[0], failed)], MergeEntries(ps[1..], cs[1..], failed), key);
    }
  }

  // A key survives iff it was declared this cycle or a failed source still owns
  // it, and its attribution is exactly the current sources together with the
  // failed ones it had before.
  lemma SurvivingAttribution(ps: seq<Entry>, cs: seq<Entry>, failed: set<string>, key: Key)
    requires EntriesSorted(ps) && EntriesSorted(cs)
    ensures var r, p, c := Find(MergeEntries(ps, cs, failed), key), Find(ps, key), Find(cs, key);
            && (r.Some? <==> c.Some? || (p.Some? && exists k | k in p.value.sources :: k in failed))
            && (r.Some? ==>
                  && r.value.key == key
                  && forall k :: k in r.value.sources <==>
                       (c.Some? && k in c.value.sources) || (p.Some? && k in p.value.sources && k in failed))
  {
    MergeIsMap(ps, cs, failed, key);
    FindIs(ps, key);
    FindIs(cs, key);
    var p, c := Find(ps, key), Find(cs, key);
    if p.Some? {
      KeepInElements(p.value.sources, failed);
      if c.Some? { Merge2Elements(KeepIn(p.value.sources, failed), c.value.sources); }
    }
  }

  // The credentials a declaration answers to.
  function CredentialsFor(e: Entry): set<Credential> { {e.credential} + set c | c in e.alternates }

  // A key seen again: the new declaration with what the check found before.
  // From the old one, if a failed source still stands for it, what the new one
  // leaves blank.
  lemma SeenAgainFields(ps: seq<Entry>, cs: seq<Entry>, failed: set<string>, key: Key)
    requires EntriesSorted(ps) && EntriesSorted(cs) && Find(ps, key).Some? && Find(cs, key).Some?
    ensures Find(MergeEntries(ps, cs, failed), key).Some?
    ensures var p, c, r := Find(ps, key).value, Find(cs, key).value, Find(MergeEntries(ps, cs, failed), key).value;
            var retained := exists k | k in p.sources :: k in failed;
            && r.key == key && r.status == p.status && r.checkedUnix == p.checkedUnix && r.seenUnix == c.seenUnix
            && (r.country, r.continent)
               == (if retained && c.country == "" && p.country != "" then (p.country, p.continent) else (c.country, c.continent))
            && r.city == (if retained && c.city == "" then p.city else c.city)
            && r.credential == (if retained && c.credential.username == "" && p.credential.username != "" then p.credential else c.credential)
  {
    MergeIsMap(ps, cs, failed, key);
    FindIs(cs, key);
  }

  // Its credentials: of both declarations if the old one is retained, of the new
  // one alone otherwise; none of any other, and with at most sixteen alternates
  // none lost, but for a new one without a user name that the old one replaces.
  ghost predicate HoldsCredentials(p: Entry, c: Entry, r: Entry, retained: bool) {
    && (!retained ==> r.credential == c.credential && r.alternates == c.alternates)
    && (retained ==>
          && CredentialsFor(r) <= CredentialsFor(p) + CredentialsFor(c)
          && |r.alternates| <= MAX_ALTERNATES && r.credential !in r.alternates && DistinctCredentials(r.alternates)
          && (|CredentialsFor(p) + (set x | x in c.alternates) + {r.credential}| <= MAX_ALTERNATES + 1 ==>
                && (forall x | x in CredentialsFor(p) || x in c.alternates :: x in CredentialsFor(r))
                && (c.credential.username != "" || p.credential.username == "" ==> c.credential in CredentialsFor(r))))
    && (r.hasAuth <==> (exists x | x in CredentialsFor(r) :: x.username != "" || x.password != "") || (p.hasAuth && retained))
  }

  lemma SeenAgainCredentials(ps: seq<Entry>, cs: seq<Entry>, failed: set<string>, key: Key)
    requires EntriesSorted(ps) && EntriesSorted(cs) && Find(ps, key).Some? && Find(cs, key).Some?
    ensures Find(MergeEntries(ps, cs, failed), key).Some?
    ensures var p, c, r := Find(ps, key).value, Find(cs, key).value, Find(MergeEntries(ps, cs, failed), key).value;
            HoldsCredentials(p, c, r, exists k | k in p.sources :: k in failed)
  {
    hide HoldsCredentials, MergedEntry, MergeEntries;
    MergeIsMap(ps, cs, failed, key);
    MergedHolds(Find(ps, key).value, Find(cs, key).value, failed);
  }

  lemma MergedHolds(p: Entry, c: Entry, failed: set<string>)
    ensures HoldsCredentials(p, c, MergedEntry(p, c, failed), exists k | k in p.sources :: k in failed)
  {
    hide MergeAlternates, Merge2, KeepIn;
    var r := MergedEntry(p, c, failed);
    var all := CredentialsFor(p) + (set x | x in c.alternates) + {r.credential};
    if HasSourceIn(p, failed) { CredentialsOfBoth(c.alternates, r.credential, p.credential, p.alternates, all); }
    AuthOf(r);
  }

  lemma AuthOf(e: Entry)
    ensures HasCredentials(e.credential) || AnyCredentials(e.alternates)
            <==> exists x | x in CredentialsFor(e) :: x.username != "" || x.password != ""
  {
    assert forall x :: x in CredentialsFor(e) <==> x == e.credential || x in e.alternates;
  }

  // Merged alternates with their primary: all of a set of at most seventeen.
  lemma CredentialsOfBoth(primaryAlts: seq<Credential>, primary: Credential, fallback: Credential, fallbackAlts: seq<Credential>,
                          all: set<Credential>)
    requires primary in all && fallback in all && forall c | c in primaryAlts || c in fallbackAlts :: c in all
    ensures var r := MergeAlternates(primaryAlts, primary, fallback, fallbackAlts);
            && |r| <= MAX_ALTERNATES && primary !in r && DistinctCredentials(r) && (forall c | c in r :: c in all)
            && (|all| <= MAX_ALTERNATES + 1 ==> forall c | c == fallback || c in primaryAlts || c in fallbackAlts :: c == primary || c in r)
  {
    var cs := primaryAlts + [fallback] + fallbackAlts;
    assert forall c :: c in cs <==> c in primaryAlts || c == fallback || c in fallbackAlts;
    AppendNewIs(MAX_ALTERNATES, [], primary, cs);
    if |all| <= MAX_ALTERNATES + 1 {
      assert |all - {primary}| == |all| - 1;
      AllCredentialsKept(MAX_ALTERNATES, [], primary, cs, all - {primary});
    }
  }

  // A key not seen again, kept by a failed source: as it was, but for its
  // sources; and a key not there before: as declared.
  lemma OnlyOneSide(ps: seq<Entry>, cs: seq<Entry>, failed: set<string>, key: Key)
    requires EntriesSorted(ps) && EntriesSorted(cs)
    ensures var p, c, r := Find(ps, key), Find(cs, key), Find(MergeEntries(ps, cs, failed), key);
            && (p == None ==> r == c)
            && (p.Some? && c == None && r.Some? ==> r.value == p.value.(sources := r.value.sources))
  {
    MergeIsMap(ps, cs, failed, key);
  }

  lemma {:induction false} MergeKeysFrom(ps: seq<Entry>, cs: seq<Entry>, failed: set<string>)
    ensures forall e | e in MergeEntries(ps, cs, failed) :: e.key in EntryKeys(ps) || e.key in EntryKeys(cs)
    decreases |ps| + |cs|
  {
    if ps != [] {
      assert ps[0] in ps && forall e | e in ps[1..] :: e in ps;
      if cs == [] || KeyLess(ps[0].key, cs[0].key) {
        MergeKeysFrom(ps[1..], cs, failed);
      } else {
        assert cs[0] in cs && forall e | e in cs[1..] :: e in cs;
        if KeyLess(cs[0].key, ps[0].key) { MergeKeysFrom(ps, cs[1..], failed); } else { MergeKeysFrom(ps[1..], cs[1..], failed); }
      }
    }
  }

  lemma FrontSorted(f: seq<Entry>, rest: seq<Entry>)
    requires |f| <= 1 && EntriesSorted(rest) && (f != [] ==> KeysAbove(f[0].key, rest))
    ensures EntriesSorted(f + rest)
  {
    if f != [] {
      forall j | 0 <= j < |rest| ensures KeyLess(f[0].key, rest[j].key) { assert rest[j] in rest; }
    }
  }

  lemma {:induction false} MergeSorted(ps: seq<Entry>, cs: seq<Entry>, failed: set<string>)
    requires EntriesSorted(ps) && EntriesSorted(cs)
    ensures EntriesSorted(MergeEntries(ps, cs, failed))
    decreases |ps| + |cs|
  {
    if ps == [] {
    } else if cs == [] || KeyLess(ps[0].key, cs[0].key) {
      TailAbove(ps);
      if cs != [] { AllAboveKey(ps[0].key, cs); }
      MergeSorted(ps[1..], cs, failed);
      MergeKeysFrom(ps[1..], cs, failed);
      FrontSorted(if HasSourceIn(ps[0], failed) then [Filtered(ps[0], failed)] else [], MergeEntries(ps[1..], cs, failed));
    } else if KeyLess(cs[0].key, ps[0].key) {
      TailAbove(cs);
      AllAboveKey(cs[0].key, ps);
      MergeSorted(ps, cs[1..], failed);
      MergeKeysFrom(ps, cs[1..], failed);
      FrontSorted([cs[0]], MergeEntries(ps, cs[1..], failed));
    } else {
      KeyOrder(ps[0].key, cs[0].key, cs[0].key);
      TailAbove(ps);
      TailAbove(cs);
      MergeSorted(ps[1..], cs[1..], failed);
      MergeKeysFrom(ps[1..], cs[1..], failed);
      FrontSorted([MergedEntry(ps[0], cs[0], failed)], MergeEntries(ps[1..], cs[1..], failed));
    }
  }

  // ------------------------------------------------- validity of the results

  lemma FilteredOk(e: Entry, failed: set<string>)
    requires PendingOk(e) && HasSourceIn(e, failed)
    ensures PendingOk(Filtered(e, failed))
  {
    KeepInElements(e.sources, failed);
    KeepInSorted(e.sources, failed);
    var k :| k in e.sources && k in failed;
    assert k in KeepIn(e.sources, failed);
  }

  lemma MergedOk(p: Entry, c: Entry, failed: set<string>)
    requires PendingOk(p) && PendingOk(c)
    ensures PendingOk(MergedEntry(p, c, failed))
  {
    KeepInElements(p.sources, failed);
    KeepInSorted(p.sources, failed);
    Merge2Elements(KeepIn(p.sources, failed), c.sources);
    Merge2Sorted(KeepIn(p.sources, failed), c.sources);
    assert c.sources[0] in c.sources;
    var m := MergedEntry(p, c, failed);
    assert c.sources[0] in m.sources;
    if HasSourceIn(p, failed) {
      AppendNewIs(MAX_ALTERNATES, [], m.credential, c.alternates + [p.credential] + p.alternates);
    }
  }

  lemma {:induction false} MergeOk(ps: seq<Entry>, cs: seq<Entry>, failed: set<string>)
    requires (forall e | e in ps :: PendingOk(e)) && (forall e | e in cs :: PendingOk(e))
    ensures forall e | e in MergeEntries(ps, cs, failed) :: PendingOk(e)
    decreases |ps| + |cs|
  {
    if ps != [] {
      assert ps[0] in ps && forall e | e in ps[1..] :: e in ps;
      if HasSourceIn(ps[0], failed) { FilteredOk(ps[0], failed); }
      if cs == [] || KeyLess(ps[0].key, cs[0].key) {
        MergeOk(ps[1..], cs, failed);
      } else {
        assert cs[0] in cs && forall e | e in cs[1..] :: e in cs;
        if KeyLess(cs[0].key, ps[0].key) {
          MergeOk(ps, cs[1..], failed);
        } else {
          MergedOk(ps[0], cs[0], failed);
          MergeOk(ps[1..], cs[1..], failed);
        }
      }
    }
  }
}
