// Group cursors across a delete or recheck transaction (pool.go): they are
// changed without taking a cache generation, so the publication may put older
// ones back.  When it does, and when it does not.
module CursorMoves {
  import opened Proxies
  import opened Pool
  import opened Persistence

  // The cursor a publication leaves of one group.
  function Cleaned(cs: map<string, Cursor>, name: string, live: set<Key>): Option<Cursor> {
    var cleaned := CleanCursors(cs, live); if name in cleaned then Some(cleaned[name]) else None
  }

  // The group whose cursor an operation writes, and what it writes.
  function Written(p: Pool, op: Op): Option<(string, Cursor)> {
    match op
    case OpPick(name, strategy, chosen, preservePin) => Some((name, PickedCursor(CursorOf(p, name), strategy, chosen, preservePin)))
    case OpForceSticky(name, key) =>
      var i := Lookup(p.proxies, key);
      if i == None || !p.proxies[i.value].available || !HardRoutable(p.proxies[i.value]) then None
      else Some((name, CursorOf(p, name).(stickyKey := Some(key), lastPicked := Some(key), pinned := true)))
    case OpSetAuto(name) => if name in p.cursors then Some((name, p.cursors[name].(pinned := false))) else None
    case OpRotate(name, key) => Some((name, CursorOf(p, name).(stickyKey := Some(key), lastPicked := Some(key))))
    case _ => None
  }

  // The operation changes what a publication would leave of its group's cursor.
  // It can be told from the operation and the plan before the publication.
  predicate Touches(p: Pool, op: Op, live: set<Key>) {
    var w := Written(p, op);
    w.Some? && Cleaned(p.cursors[w.value.0 := w.value.1], w.value.0, live) != Cleaned(p.cursors, w.value.0, live)
  }

  function Live(p: Pool, gone: set<Key>): set<Key> { Keys(Without(p.proxies, gone)) }

  // Published from the plan of p, the cursors of q are what a plan of q has.
  predicate Survive(p: Pool, q: Pool, gone: set<Key>) {
    Publish(q, DeletePlan(p, gone)).cursors == DeletePlan(q, gone).cursors
  }

  lemma CleanedAgree(a: map<string, Cursor>, b: map<string, Cursor>, live: set<Key>)
    ensures CleanCursors(a, live) == CleanCursors(b, live) <==> forall name :: Cleaned(a, name, live) == Cleaned(b, name, live)
  {
    var x, y := CleanCursors(a, live), CleanCursors(b, live);
    if forall name :: Cleaned(a, name, live) == Cleaned(b, name, live) {
      forall name ensures (name in x <==> name in y) && (name in x ==> x[name] == y[name]) {
        assert Cleaned(a, name, live) == Cleaned(b, name, live);
      }
      assert x == y;
    }
  }

  // While no cache generation is taken, cursors change only as written.
  lemma OnlyWritten(p: Pool, op: Op)
    requires Concurrent(op) && Step(p, op).cacheGeneration == p.cacheGeneration
    ensures var w := Written(p, op); Step(p, op).cursors == if w.Some? then p.cursors[w.value.0 := w.value.1] else p.cursors
  {
    hide FoldFresh, Unreachable, RefreshedNodes, RetireAll, CleanCursors, ObservedNode, ObservedStats, HardRoutable;
  }

  // One operation between plan and publication: the cursors survive iff it
  // touches none.
  lemma CursorsSurviveStep(p: Pool, op: Op, gone: set<Key>)
    requires Concurrent(op) && Step(p, op).cacheGeneration == p.cacheGeneration
    ensures Survive(p, Step(p, op), gone) <==> !Touches(p, op, Live(p, gone))
  {
    hide Step, Without, Written, CleanCursors, HardRoutable;
    OnlyWritten(p, op);
    StepCounted(p, op);
    var live, w := Live(p, gone), Written(p, op);
    CleanedAgree(p.cursors, Step(p, op).cursors, live);
    if w.Some? { OthersAlike(p.cursors, w.value.0, w.value.1, live); }
  }

  lemma OthersAlike(cs: map<string, Cursor>, name: string, c: Cursor, live: set<Key>)
    ensures forall other | other != name :: Cleaned(cs[name := c], other, live) == Cleaned(cs, other, live)
  {
  }

  lemma {:induction false} RunCounted(p: Pool, ops: seq<Op>)
    requires forall op | op in ops :: Concurrent(op)
    ensures Counted(p, Run(p, ops))
  {
    hide Step;
    if ops != [] {
      assert ops[|ops|-1] in ops && forall op | op in ops[..|ops|-1] :: op in ops;
      RunCounted(p, ops[..|ops|-1]);
      StepCounted(Run(p, ops[..|ops|-1]), ops[|ops|-1]);
    }
  }

  // Over every run that takes no cache generation, the cursors survive iff each
  // group's cleaned cursor ends as it began, and in particular if no operation of
  // the run touches one.
  lemma CursorsSurviveRun(p: Pool, ops: seq<Op>, gone: set<Key>)
    requires (forall op | op in ops :: Concurrent(op)) && Run(p, ops).cacheGeneration == p.cacheGeneration
    ensures Survive(p, Run(p, ops), gone)
            <==> forall name :: Cleaned(p.cursors, name, Live(p, gone)) == Cleaned(Run(p, ops).cursors, name, Live(p, gone))
    ensures (forall i | 0 <= i < |ops| :: !Touches(Run(p, ops[..i]), ops[i], Live(p, gone))) ==> Survive(p, Run(p, ops), gone)
  {
    hide Step, Run, Without, Touches, CleanCursors;
    RunCounted(p, ops);
    CleanedAgree(p.cursors, Run(p, ops).cursors, Live(p, gone));
    if forall i | 0 <= i < |ops| :: !Touches(Run(p, ops[..i]), ops[i], Live(p, gone)) { NothingTouched(p, ops, Live(p, gone)); }
  }

  lemma {:induction false} NothingTouched(p: Pool, ops: seq<Op>, live: set<Key>)
    requires (forall op | op in ops :: Concurrent(op)) && Run(p, ops).cacheGeneration == p.cacheGeneration
    requires forall i | 0 <= i < |ops| :: !Touches(Run(p, ops[..i]), ops[i], live)
    ensures CleanCursors(Run(p, ops).cursors, live) == CleanCursors(p.cursors, live)
  {
    if ops != [] {
      hide Step, Written, CleanCursors;
      var front, last := ops[..|ops|-1], ops[|ops|-1];
      assert last in ops && forall op | op in front :: op in ops;
      assert forall i | 0 <= i < |front| :: ops[..i] == front[..i];
      var q := Run(p, front);
      RunCounted(p, front);
      StepCounted(q, last);
      NothingTouched(p, front, live);
      assert !Touches(Run(p, ops[..|ops|-1]), last, live);
      OnlyWritten(q, last);
      var w := Written(q, last);
      if w.Some? { OthersAlike(q.cursors, w.value.0, w.value.1, live); }
      CleanedAgree(q.cursors, Run(p, ops).cursors, live);
    }
  }

  // A pick that returns the node its group already points at, and picked last,
  // touches nothing, unless it counts rounds.
  lemma RepeatedPickTouchesNothing(p: Pool, name: string, strategy: Strategy, chosen: Key, preservePin: bool, live: set<Key>)
    requires strategy != RoundRobin && name in p.cursors && p.cursors[name].lastPicked == Some(chosen)
    requires strategy == Sticky && !preservePin ==> p.cursors[name].stickyKey == Some(chosen)
    ensures !Touches(p, OpPick(name, strategy, chosen, preservePin), live)
  {
    assert PickedCursor(p.cursors[name], strategy, chosen, preservePin) == p.cursors[name];
    assert p.cursors[name := p.cursors[name]] == p.cursors;
  }

  // A round-robin pick of a node that stays always touches its group.
  lemma RoundRobinTouches(p: Pool, name: string, chosen: Key, preservePin: bool, live: set<Key>)
    requires chosen in live
    ensures Touches(p, OpPick(name, RoundRobin, chosen, preservePin), live)
  {
  }

  // A manual switch between the plan and its publication is lost.
  lemma PublicationDropsCursorMoves()
    ensures exists p: Pool, op: Op, gone: set<Key> ::
              && Concurrent(op)
              && Step(p, op).cacheGeneration == p.cacheGeneration
              && Publish(Step(p, op), DeletePlan(p, gone)).cursors != Publish(Step(p, op), DeletePlan(Step(p, op), gone)).cursors
  {
    var a, b := Key("http", "a"), Key("http", "b");
    var node := Proxy(a, Credential("", ""), [], "", "", [], [], false, false, false, true, 0, 0.0);
    var p := EMPTY.(proxies := [node, node.(key := b)]);
    var op := OpForceSticky("g", a);
    var q := Step(p, op);
    assert Lookup(p.proxies[..1], a) == Some(0) by { assert p.proxies[..1][..0] == []; }
    assert Lookup(p.proxies, a) == Some(0);
    assert "g" in q.cursors && q.cursors["g"].stickyKey == Some(a);
    WithoutAre(p.proxies, {b});
    assert node in Without(p.proxies, {b});
    assert a in Keys(Without(p.proxies, {b}));
    assert "g" in DeletePlan(q, {b}).cursors && "g" !in DeletePlan(p, {b}).cursors;
  }
}
