// What a group cursor is for (pool.go): a sticky group stays with its node, and
// a manual switch holds, outlives the node's absence, and ends when the group is
// set back to automatic.
module StickyPicks {
  import opened Proxies
  import opened Selection
  import opened SelectionMeaning
  import opened Pool

  ghost predicate Picks(p: Pool, name: string, sel: Selector, exclude: set<Key>, random: nat, r: Selected) {
    IsSelection(p.proxies, p.stats, sel, CursorOf(p, name), exclude, random, r)
  }

  // The pool after the pick.
  function After(p: Pool, name: string, sel: Selector, r: Selected): Pool
    requires r.Chosen?
  {
    CommitPick(p, name, StrategyOf(sel), r.proxy.key, r.preservePin)
  }

  lemma SameKeySame(s: seq<Proxy>, a: Proxy, b: Proxy)
    requires UniqueKeys(s) && a in s && b in s && a.key == b.key
    ensures a == b
  {
  }

  // The next pick of a sticky group returns the same node, as often as it is
  // asked and whatever it would have preferred before.
  lemma StickyStays(p: Pool, name: string, sel: Selector, e1: set<Key>, random1: nat, r1: Selected, e2: set<Key>, random2: nat, r2: Selected)
    requires UniqueKeys(p.proxies) && WantsSticky(sel) && Picks(p, name, sel, e1, random1, r1) && r1.Chosen?
    requires Picks(After(p, name, sel, r1), name, sel, e2, random2, r2)
    ensures !r1.preservePin && Rival(r1.proxy, p.proxies, sel, e2) ==>
              r2 == r1 && After(After(p, name, sel, r1), name, sel, r2).cursors == After(p, name, sel, r1).cursors
  {
    hide IsSelection, Rival;
    var q := After(p, name, sel, r1);
    PickMeans(p.proxies, p.stats, sel, CursorOf(p, name), e1, random1, r1);
    PickMeans(q.proxies, q.stats, sel, CursorOf(q, name), e2, random2, r2);
    if !r1.preservePin && Rival(r1.proxy, p.proxies, sel, e2) {
      RivalIn(r1.proxy, p.proxies, sel, e2);
      assert Some(r1.proxy.key) == CursorOf(q, name).stickyKey;
      assert Some(r2.proxy.key) == CursorOf(q, name).stickyKey;
      RivalIn(r2.proxy, p.proxies, sel, e2);
      SameKeySame(p.proxies, r1.proxy, r2.proxy);
    }
  }

  lemma RivalIn(px: Proxy, s: seq<Proxy>, sel: Selector, exclude: set<Key>)
    requires Rival(px, s, sel, exclude)
    ensures px in s
  {
  }

  // A manual switch to a node of the group: picks return it, and keep the pin.
  lemma SwitchHolds(p: Pool, name: string, node: Proxy, sel: Selector, exclude: set<Key>, random: nat, r: Selected)
    requires UniqueKeys(p.proxies) && WantsSticky(sel) && node in p.proxies && node.available && MayServe(node, sel, exclude)
    requires Picks(ForceSticky(p, name, node.key), name, sel, exclude, random, r)
    ensures r == Chosen(node, false)
    ensures var c := CursorOf(After(ForceSticky(p, name, node.key), name, sel, r), name); c.pinned && c.stickyKey == Some(node.key)
  {
    hide IsSelection;
    var q := ForceSticky(p, name, node.key);
    var i := Lookup(p.proxies, node.key);
    SameKeySame(p.proxies, p.proxies[i.value], node);
    assert q.proxies == p.proxies && CursorOf(q, name).stickyKey == Some(node.key);
    assert Rival(node, q.proxies, sel, exclude);
    PickMeans(q.proxies, q.stats, sel, CursorOf(q, name), exclude, random, r);
    SameKeySame(p.proxies, r.proxy, node);
  }

  // While the pinned node is no rival, picks go elsewhere and leave the pin; once
  // it is one again, they return to it.
  lemma PinOutlivesAbsence(p: Pool, name: string, sel: Selector, exclude: set<Key>, random: nat, r: Selected)
    requires WantsSticky(sel) && CursorOf(p, name).pinned && Picks(p, name, sel, exclude, random, r) && r.Chosen?
    ensures var c := CursorOf(After(p, name, sel, r), name);
            c.pinned && c.stickyKey == CursorOf(p, name).stickyKey
    ensures (exists q :: Rival(q, p.proxies, sel, exclude) && Some(q.key) == CursorOf(p, name).stickyKey) ==>
              Some(r.proxy.key) == CursorOf(p, name).stickyKey
  {
    hide IsSelection, Rival;
    PickMeans(p.proxies, p.stats, sel, CursorOf(p, name), exclude, random, r);
  }

  // Set back to automatic, a pick away from a missing node moves the group for
  // good.
  lemma AutomaticMoves(p: Pool, name: string, sel: Selector, exclude: set<Key>, random: nat, r: Selected)
    requires WantsSticky(sel) && Picks(SetAuto(p, name), name, sel, exclude, random, r) && r.Chosen?
    ensures var c := CursorOf(After(SetAuto(p, name), name, sel, r), name); !c.pinned && c.stickyKey == Some(r.proxy.key)
  {
    hide IsSelection, Rival;
    var q := SetAuto(p, name);
    PickMeans(q.proxies, q.stats, sel, CursorOf(q, name), exclude, random, r);
  }
}
