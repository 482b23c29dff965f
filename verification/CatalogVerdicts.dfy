// The catalog's operations seen from their callers (candidate_catalog.go): what a
// check's outcome, a finished cycle, a removal or a scrape makes of one key.
module CatalogVerdicts {
  import opened Proxies
  import opened CatalogModel
  import opened CatalogMerge
  import opened CatalogReconcile
  import opened CatalogBegin
  import opened CatalogViews
  import opened CatalogRuns
  import opened CatalogOutcomes
  import opened Leases

  // What the caller's outcomes say of a leased key.
  function Told(l: Lease, outcomes: map<Key, Outcome>): OutcomeKind {
    if l.key in outcomes then outcomes[l.key].kind else NoResult
  }

  ghost predicate OneLeaseEach(ls: seq<Lease>) { forall i, j | 0 <= i < j < |ls| :: ls[i].key != ls[j].key }

  // The failure a check makes of a declaration.
  ghost predicate FailedCheck(e: Entry, f: FailedEntry, l: Lease, outcomes: map<Key, Outcome>, at: int) {
    && l.key in outcomes
    && f.entry == e.(checkedUnix := at)
    && (f.kind == PolicyRejected <==> outcomes[l.key].kind == OutPolicyFiltered)
    && IsShortened(outcomes[l.key].error, f.lastError)
  }

  // A committed outcome: the key of a candidate lease leaves the pending ones for
  // the failures iff it was found unreachable or filtered; that of a failed lease
  // leaves the failures iff it answered, and keeps its place with the new verdict
  // if it failed again.
  lemma CommitMeans(v: View, pending: Table, failed: Table, ls: seq<Lease>, outcomes: map<Key, Outcome>, at: int, l: Lease)
    requires ViewOk(v) && AllCurrent(v, pending, failed, ls, outcomes) && OneLeaseEach(ls) && l in ls
    requires l.kind == Kind.Candidate || l.kind == FailedKind
    ensures var before, after := At(v, l.key), At(Apply(v, CommitOp(Verdicts(ls, outcomes), at)), l.key);
            var told := Told(l, outcomes);
            && (l.kind == Kind.Candidate ==>
                  && before.pending.Some?
                  && (told == Alive || told == NoResult ==> after == before)
                  && (told == OutUnreachable || told == OutPolicyFiltered ==>
                        after.pending == None && after.failed.Some? && FailedCheck(before.pending.value, after.failed.value, l, outcomes, at)))
            && (l.kind == FailedKind ==>
                  && before.failed.Some? && after.pending == before.pending
                  && (told == Alive ==> after.failed == None) && (told == NoResult ==> after == before)
                  && (told == OutUnreachable || told == OutPolicyFiltered ==>
                        after.failed.Some? && FailedCheck(before.failed.value.entry, after.failed.value, l, outcomes, at)))
  {
    hide ViewOk, Fingerprint;
    var ds := Verdicts(ls, outcomes);
    var i :| 0 <= i < |ls| && ls[i] == l;
    assert Current(v, pending, failed, ls[i], outcomes);
    VerdictsDistinct(ls, outcomes);
    CurrentConnectable(v, pending, failed, ls, outcomes);
    assert ds[i] in ds && ds[i].key == l.key;
    CommitByKey(v, ds, at, l.key);
    assert Decided(At(v, l.key), At(Apply(v, CommitOp(ds, at)), l.key), ds[i], at);
  }

  lemma VerdictsDistinct(ls: seq<Lease>, outcomes: map<Key, Outcome>)
    requires OneLeaseEach(ls)
    ensures DistinctVerdicts(Verdicts(ls, outcomes))
  {
  }

  // A key without a lease in the commit stays as it was.
  lemma CommitLeavesOthers(v: View, pending: Table, failed: Table, ls: seq<Lease>, outcomes: map<Key, Outcome>, at: int, key: Key)
    requires ViewOk(v) && AllCurrent(v, pending, failed, ls, outcomes) && OneLeaseEach(ls) && forall l | l in ls :: l.key != key
    ensures At(Apply(v, CommitOp(Verdicts(ls, outcomes), at)), key) == At(v, key)
  {
    hide ViewOk, Fingerprint, Current;
    var ds := Verdicts(ls, outcomes);
    VerdictsDistinct(ls, outcomes);
    CurrentConnectable(v, pending, failed, ls, outcomes);
    forall d | d in ds ensures d.key != key {
      var i :| 0 <= i < |ds| && ds[i] == d;
      assert ls[i] in ls;
    }
    CommitByKey(v, ds, at, key);
  }

  // A finished cycle: a checked node that is not alive becomes a failure, of the
  // kind the policy filter says.
  lemma FinishMeans(v: View, checked: seq<Key>, alive: set<Key>, policyFiltered: set<Key>, at: int, key: Key)
    requires ViewOk(v)
    ensures var before, after := At(v, key), At(Apply(v, CompleteOp(FailureKinds(checked, alive, policyFiltered), at)), key);
            if key in checked && key !in alive && key.protocol != "proxyip" && before.pending.Some? then
              && after.pending == None && after.failed.Some?
              && after.failed.value.entry == before.pending.value.(status := Deferred, checkedUnix := at)
              && (after.failed.value.kind == PolicyRejected <==> key in policyFiltered) && after.failed.value.lastError == ""
            else after == before
  {
    hide ViewOk;
    CompletionByKey(v, FailureKinds(checked, alive, policyFiltered), at, key);
  }

  // A removal: the keys asked for are not pending any more.
  lemma RemovalMeans(v: View, keys: seq<Key>, key: Key)
    requires ViewOk(v)
    ensures At(Apply(v, RemoveOp(Wanted(keys))), key) == if key in keys then At(v, key).(pending := None) else At(v, key)
  {
    RemovalByKey(v, Wanted(keys), key);
  }

  // A scrape: a failure keeps its verdict; any other key is pending iff it was
  // declared, or a source that failed to load still stands for it.
  lemma ScrapeMeans(v: View, cs: seq<Entry>, failedSources: set<string>, key: Key)
    requires ViewOk(v) && EntriesSorted(cs)
    ensures var before, after := At(v, key), At(Apply(v, BeginOp(cs, failedSources)), key);
            && (before.failed.Some? ==>
                  && after.pending == None && after.failed.Some?
                  && after.failed.value.kind == before.failed.value.kind && after.failed.value.lastError == before.failed.value.lastError
                  && after.failed.value.entry.checkedUnix == before.failed.value.entry.checkedUnix)
            && (before.failed == None ==>
                  && after.failed == None
                  && (after.pending.Some?
                      <==> || Find(cs, key).Some?
                           || (before.pending.Some? && exists k | k in before.pending.value.sources :: k in failedSources)))
  {
    hide Carry, MergeEntries, ReconciledFailed, ReconciledPending;
    ReconciledByKey(v.failed, Base(v.pending, cs, failedSources), key);
    if failedSources == {} {
      CarryPerKey(v.pending, cs, key);
    } else {
      SurvivingAttribution(v.pending, cs, failedSources, key);
    }
  }

  // ---------------------------------------------------------- the fingerprint

  // Text without the separator of the fingerprint.
  ghost predicate Plain(s: string) { '\0' !in s }

  ghost predicate PlainCredentials(cs: seq<Credential>) { forall c | c in cs :: Plain(c.username) && Plain(c.password) }

  ghost predicate PlainEntry(e: Entry) {
    && ':' !in e.key.protocol && Plain(e.key.protocol) && Plain(e.key.addr)
    && Plain(e.credential.username) && Plain(e.credential.password) && PlainCredentials(e.alternates)
  }

  // What stands before the first separator, and what stands behind it.
  lemma {:induction false} SplitAt(sep: char, a: string, x: string, b: string, y: string)
    requires sep !in a && sep !in b && a + [sep] + x == b + [sep] + y
    ensures a == b && x == y
  {
    var s, t := a + [sep] + x, b + [sep] + y;
    assert s[0] == (if a == [] then sep else a[0]) && t[0] == (if b == [] then sep else b[0]);
    assert (a != [] ==> a[0] in a) && (b != [] ==> b[0] in b);
    if a == [] {
      assert s[1..] == x && t[1..] == y;
    } else {
      assert s[1..] == a[1..] + [sep] + x && t[1..] == b[1..] + [sep] + y;
      assert a == [a[0]] + a[1..] && b == [b[0]] + b[1..];
      SplitAt(sep, a[1..], x, b[1..], y);
    }
  }

  // Two texts that end, or go on behind a separator.
  lemma SplitEnd(a: string, x: string, b: string, y: string)
    requires Plain(a) && Plain(b) && (x == [] || x[0] == '\0') && (y == [] || y[0] == '\0') && a + x == b + y
    ensures a == b && x == y
  {
    assert forall c :: c in a + x <==> c in a || c in x;
    assert forall c :: c in b + y <==> c in b || c in y;
    assert '\0' in a + x <==> x != [];
    assert '\0' in b + y <==> y != [];
    if x == [] {
      assert a + x == a && b + y == b;
    } else {
      assert a + x == a + ['\0'] + x[1..] && b + y == b + ['\0'] + y[1..];
      SplitAt('\0', a, x[1..], b, y[1..]);
      assert x == ['\0'] + x[1..] && y == ['\0'] + y[1..];
    }
  }

  lemma {:induction false} SameAlternates(cs: seq<Credential>, ds: seq<Credential>)
    requires PlainCredentials(cs) && PlainCredentials(ds) && CredentialText(cs) == CredentialText(ds)
    ensures cs == ds
  {
    if cs != [] && ds != [] {
      var c, d, ct, dt := cs[0], ds[0], CredentialText(cs[1..]), CredentialText(ds[1..]);
      assert c in cs && d in ds && (forall x | x in cs[1..] :: x in cs) && forall x | x in ds[1..] :: x in ds;
      var x, y := c.username + "\0" + (c.password + ct), d.username + "\0" + (d.password + dt);
      assert CredentialText(cs) == "\0" + c.username + "\0" + c.password + ct == ['\0'] + x;
      assert CredentialText(ds) == "\0" + d.username + "\0" + d.password + dt == ['\0'] + y;
      assert x == (['\0'] + x)[1..] && y == (['\0'] + y)[1..];
      SplitAt('\0', c.username, c.password + ct, d.username, d.password + dt);
      SplitEnd(c.password, ct, d.password, dt);
      SameAlternates(cs[1..], ds[1..]);
      assert cs == [c] + cs[1..] && ds == [d] + ds[1..];
    }
  }

  // The fingerprint in its parts.
  function Parts(protocol: string, addr: string, username: string, password: string, rest: string): string {
    protocol + [':'] + ("//" + (addr + ['\0'] + (username + ['\0'] + (password + rest))))
  }

  lemma FingerprintParts(e: Entry)
    ensures Fingerprint(e) == Parts(e.key.protocol, e.key.addr, e.credential.username, e.credential.password, CredentialText(e.alternates))
  {
    hide CredentialText;
    var p, a, u, w, t := e.key.protocol, e.key.addr, e.credential.username, e.credential.password, CredentialText(e.alternates);
    assert u + ['\0'] + (w + t) == u + "\0" + w + t;
    assert a + ['\0'] + (u + "\0" + w + t) == a + "\0" + u + "\0" + w + t;
    assert "//" + (a + "\0" + u + "\0" + w + t) == "//" + a + "\0" + u + "\0" + w + t;
    assert p + [':'] + ("//" + a + "\0" + u + "\0" + w + t) == p + "://" + a + "\0" + u + "\0" + w + t;
  }

  lemma PartsExact(p: string, a: string, u: string, w: string, t: string, p': string, a': string, u': string, w': string, t': string)
    requires Parts(p, a, u, w, t) == Parts(p', a', u', w', t')
    requires ':' !in p && ':' !in p' && Plain(a) && Plain(a') && Plain(u) && Plain(u') && Plain(w) && Plain(w')
    requires (t == [] || t[0] == '\0') && (t' == [] || t'[0] == '\0')
    ensures p == p' && a == a' && u == u' && w == w' && t == t'
  {
    var x, x' := u + ['\0'] + (w + t), u' + ['\0'] + (w' + t');
    var y, y' := a + ['\0'] + x, a' + ['\0'] + x';
    SplitAt(':', p, "//" + y, p', "//" + y');
    assert y == ("//" + y)[2..] && y' == ("//" + y')[2..];
    SplitAt('\0', a, x, a', x');
    SplitAt('\0', u, w + t, u', w' + t');
    SplitEnd(w, t, w', t');
  }

  lemma TextStarts(cs: seq<Credential>)
    ensures CredentialText(cs) == [] || CredentialText(cs)[0] == '\0'
  {
  }

  // A lease's fingerprint fixes the declaration it was given for: the node, its
  // credential and its alternates in order.  Nothing else enters into it.
  lemma FingerprintExact(a: Entry, b: Entry)
    requires PlainEntry(a) && PlainEntry(b)
    ensures Fingerprint(a) == Fingerprint(b) <==> a.key == b.key && a.credential == b.credential && a.alternates == b.alternates
  {
    hide CredentialText, Fingerprint;
    FingerprintParts(a);
    FingerprintParts(b);
    var at, bt := CredentialText(a.alternates), CredentialText(b.alternates);
    TextStarts(a.alternates);
    TextStarts(b.alternates);
    if Fingerprint(a) == Fingerprint(b) {
      PartsExact(a.key.protocol, a.key.addr, a.credential.username, a.credential.password, at,
                 b.key.protocol, b.key.addr, b.credential.username, b.credential.password, bt);
      SameAlternates(a.alternates, b.alternates);
    }
  }

  // A lease that passes the commit's checks: its token is the one that is out on
  // its key, and the declaration is the one it was given for.
  lemma CurrentMeans(v: View, pending: Table, failed: Table, l: Lease, outcomes: map<Key, Outcome>)
    requires Current(v, pending, failed, l, outcomes)
    ensures var t := if l.kind == FailedKind then failed else pending;
            && l.key in t && t[l.key].token == l.token && t[l.key].fingerprint == l.fingerprint
            && l.key.protocol != "proxyip"
            && (l.kind == Kind.Candidate ==> At(v, l.key).pending.Some? && Fingerprint(At(v, l.key).pending.value) == l.fingerprint)
            && (l.kind == FailedKind ==> At(v, l.key).failed.Some? && Fingerprint(At(v, l.key).failed.value.entry) == l.fingerprint)
            && (l.key in outcomes && outcomes[l.key].key.Some? ==> outcomes[l.key].key.value == l.key)
  {
  }
}
