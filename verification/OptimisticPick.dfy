// Why an optimistic pick is safe (pool.go, pick).  A pick scans under the read
// lock and commits under the write lock; anything may happen in between.  The
// revision counters are the whole argument: as long as they have not moved, the
// scan's answer is the answer of a single locked selection at commit time.
module OptimisticPick {
  import opened Proxies
  import opened Pool
  import opened Selection

  // Equal routing revisions mean an equal routing view, and with an equal stats
  // revision also equal score inputs.
  ghost predicate Guards(p: Pool, q: Pool) {
    && p.routingRevision <= q.routingRevision
    && p.statsRevision <= q.statsRevision
    && (p.routingRevision == q.routingRevision ==> p.proxies == q.proxies)
    && (p.routingRevision == q.routingRevision && p.statsRevision == q.statsRevision ==> p.stats == q.stats)
  }

  lemma GuardsHealthOp(p: Pool, op: Op)
    requires op.OpRecord? || op.OpObserve? || op.OpSetAvailable? || op.OpSetPolicy? || op.OpInvalidate? || op.OpRefresh? || op.OpPromote?
    ensures Guards(p, Step(p, op))
  {
  }

  lemma GuardsOtherOp(p: Pool, op: Op)
    requires !(op.OpRecord? || op.OpObserve? || op.OpSetAvailable? || op.OpSetPolicy? || op.OpInvalidate? || op.OpRefresh? || op.OpPromote?)
    ensures Guards(p, Step(p, op))
  {
  }

  // No mutator changes routing or scores without moving a revision.
  lemma StepGuards(p: Pool, op: Op)
    ensures Guards(p, Step(p, op))
  {
    if op.OpRecord? || op.OpObserve? || op.OpSetAvailable? || op.OpSetPolicy? || op.OpInvalidate? || op.OpRefresh? || op.OpPromote? {
      GuardsHealthOp(p, op);
    } else {
      GuardsOtherOp(p, op);
    }
  }

  lemma {:induction false} RunGuards(p: Pool, ops: seq<Op>)
    ensures Guards(p, Run(p, ops))
  {
    if ops != [] {
      RunGuards(p, ops[..|ops|-1]);
      StepGuards(Run(p, ops[..|ops|-1]), ops[|ops|-1]);
    }
  }

  // The comparisons a commit makes before it publishes the scanned choice.
  predicate CommitGuard(scan: Pool, now: Pool, name: string, strategy: Strategy) {
    && now.routingRevision == scan.routingRevision
    && (strategy == ByScore ==> now.statsRevision == scan.statsRevision)
    && (strategy == RoundRobin ==> CursorOf(now, name).rrIdx == CursorOf(scan, name).rrIdx)
    && (strategy == Sticky ==>
          && CursorOf(now, name).stickyKey == CursorOf(scan, name).stickyKey
          && CursorOf(now, name).pinned == CursorOf(scan, name).pinned)
  }

  lemma SameValues(list: seq<Proxy>, strategy: Strategy, stats: map<Key, Stats>, stats': map<Key, Stats>)
    requires strategy == ByScore ==> stats == stats'
    ensures Metrics(strategy, list, stats) == Metrics(strategy, list, stats')
  {
    var a, b := Metrics(strategy, list, stats), Metrics(strategy, list, stats');
    forall i | 0 <= i < |list| ensures a[i] == b[i] {
      assert a[i] == MetricOf(strategy, list[i], stats) && b[i] == MetricOf(strategy, list[i], stats');
    }
  }

  // A choice made in the scanned state is a choice in the commit-time state.
  lemma SelectionTransfers(scan: Pool, ops: seq<Op>, name: string, sel: Selector, exclude: set<Key>, random: nat, r: Selected)
    requires IsSelection(scan.proxies, scan.stats, sel, CursorOf(scan, name), exclude, random, r)
    requires CommitGuard(scan, Run(scan, ops), name, StrategyOf(sel))
    ensures var now := Run(scan, ops);
            IsSelection(now.proxies, now.stats, sel, CursorOf(now, name), exclude, random, r)
  {
    var now := Run(scan, ops);
    RunGuards(scan, ops);
    var strategy := StrategyOf(sel);
    var list := Preferred(Members(scan.proxies, sel, exclude));
    SameValues(list, strategy, scan.stats, now.stats);
    if r.Chosen? {
      var n := RandomIn(random, |list|);
      var i :| IsChoice(strategy, CursorOf(scan, name), list, scan.stats, n, i) && r.proxy == list[i];
      assert IsChoice(strategy, CursorOf(now, name), list, now.stats, n, i);
    }
  }

  // proxySelectableAtCommitLocked
  predicate SelectableAtCommit(s: seq<Proxy>, px: Proxy, sel: Selector, exclude: set<Key>) {
    Candidate(px, sel, exclude) && (px.available || forall q | q in s :: !(q.available && Candidate(q, sel, exclude)))
  }

  // The defensive re-check of a commit can never fail once the guard holds: it
  // is true of every selection.
  lemma RecheckIsRedundant(s: seq<Proxy>, stats: map<Key, Stats>, sel: Selector, cursor: Cursor, exclude: set<Key>, random: nat, r: Selected)
    requires UniqueKeys(s) && r.Chosen?
    requires IsSelection(s, stats, sel, cursor, exclude, random, r)
    ensures r.proxy in s && SelectableAtCommit(s, r.proxy, sel, exclude)
    ensures Lookup(s, r.proxy.key).Some? && s[Lookup(s, r.proxy.key).value] == r.proxy
  {
    hide Members, Available, RandomIn;
    var members := Members(s, sel, exclude);
    var list := Preferred(members);
    var i :| IsChoice(StrategyOf(sel), cursor, list, stats, RandomIn(random, |list|), i) && r.proxy == list[i];
    assert r.proxy in list;
    AvailableAre(members, r.proxy);
    MembersAre(s, sel, exclude, r.proxy);
    if !r.proxy.available {
      forall q | q in s ensures !(q.available && Candidate(q, sel, exclude)) {
        MembersAre(s, sel, exclude, q);
        AvailableAre(members, q);
      }
    }
    var at := Lookup(s, r.proxy.key).value;
    var j :| 0 <= j < |s| && s[j] == r.proxy;
    assert at == j;
  }
}
