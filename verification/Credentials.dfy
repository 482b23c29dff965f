// Lists of alternate credentials: bounded, without repeats, never the primary.
// The catalog (candidate_catalog.go), the deduplication (main.go) and the
// promotion of a verified credential (proxy.go) all build theirs this way.
module Credentials {
  import opened Proxies

  // The appending closure, folded over a list: a credential is taken if it is
  // not the primary, not there yet, and there is room.
  function AppendNew(cap: nat, acc: seq<Credential>, primary: Credential, cs: seq<Credential>): seq<Credential> {
    if cs == [] then acc
    else
      var before := AppendNew(cap, acc, primary, cs[..|cs|-1]);
      var c := cs[|cs|-1];
      if c == primary || c in before || |before| >= cap then before else before + [c]
  }

  ghost predicate DistinctCredentials(cs: seq<Credential>) { forall i, j | 0 <= i < j < |cs| :: cs[i] != cs[j] }

  // What an alternate list must be.
  ghost predicate Alternates(cap: nat, primary: Credential, cs: seq<Credential>) {
    |cs| <= cap && primary !in cs && DistinctCredentials(cs)
  }

  // Appending keeps the list bounded, distinct and free of the primary, invents
  // nothing, and loses something only when it is full.
  lemma {:induction false} AppendNewIs(cap: nat, acc: seq<Credential>, primary: Credential, cs: seq<Credential>)
    requires Alternates(cap, primary, acc)
    ensures var r := AppendNew(cap, acc, primary, cs);
            && Alternates(cap, primary, r)
            && acc <= r
            && (forall c | c in r :: c in acc || c in cs)
            && (forall c | c in cs :: c == primary || c in r || |r| == cap)
  {
    if cs != [] {
      AppendNewIs(cap, acc, primary, cs[..|cs|-1]);
      assert cs == cs[..|cs|-1] + [cs[|cs|-1]];
    }
  }

  lemma {:induction false} AppendNewSplit(cap: nat, acc: seq<Credential>, primary: Credential, a: seq<Credential>, b: seq<Credential>)
    ensures AppendNew(cap, acc, primary, a + b) == AppendNew(cap, AppendNew(cap, acc, primary, a), primary, b)
  {
    if b == [] {
      assert a + b == a;
    } else {
      AppendNewSplit(cap, acc, primary, a, b[..|b|-1]);
      assert (a + b)[..|a + b| - 1] == a + b[..|b|-1];
    }
  }

  // With room for all the distinct ones, none is lost.
  lemma AllCredentialsKept(cap: nat, acc: seq<Credential>, primary: Credential, cs: seq<Credential>, all: set<Credential>)
    requires Alternates(cap, primary, acc) && |all| <= cap && primary !in all
    requires forall c | c in acc || c in cs :: c == primary || c in all
    ensures forall c | c in cs :: c == primary || c in AppendNew(cap, acc, primary, cs)
  {
    AppendNewIs(cap, acc, primary, cs);
    var r := AppendNew(cap, acc, primary, cs);
    var s := set c | c in r;
    DistinctCount(r);
    assert s <= all;
    if |r| == cap {
      SubsetFull(s, all);
      forall c | c in cs && c != primary ensures c in r { assert c in all; }
    }
  }

  lemma {:induction false} DistinctCount(r: seq<Credential>)
    requires DistinctCredentials(r)
    ensures |set c | c in r| == |r|
  {
    if r != [] {
      var init, last := r[..|r|-1], r[|r|-1];
      DistinctCount(init);
      assert (set c | c in r) == (set c | c in init) + {last};
      assert last !in init;
    }
  }

  lemma SubsetFull<T>(s: set<T>, t: set<T>)
    requires s <= t && |s| >= |t|
    ensures s == t
  {
    assert |t - s| == |t| - |s|;
  }

  // The closure itself, with its set of what it has seen.
  method AppendCredentials(cap: nat, start: seq<Credential>, startSeen: set<Credential>, primary: Credential, cs: seq<Credential>)
    returns (merged: seq<Credential>, seen: set<Credential>)
    requires forall c :: c in startSeen <==> c == primary || c in start
    ensures merged == AppendNew(cap, start, primary, cs)
    ensures forall c :: c in seen <==> c == primary || c in merged
  {
    merged, seen := start, startSeen;
    for i := 0 to |cs|
      invariant merged == AppendNew(cap, start, primary, cs[..i])
      invariant forall c :: c in seen <==> c == primary || c in merged
    {
      assert cs[..i + 1][..i] == cs[..i];
      if cs[i] !in seen && |merged| < cap {
        seen := seen + {cs[i]};
        merged := merged + [cs[i]];
      }
    }
    assert cs[..|cs|] == cs;
  }
}
