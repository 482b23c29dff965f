// Scanning a ring of n slots from a moving start, taking the eligible ones.
// Rotation, lease batches and recheck batches are all this scan; the arithmetic
// is done once here, on ranks instead of indices.
module Circular {

  // Eligible slots below i.
  function Rank(e: nat -> bool, i: nat): (r: nat)
    ensures r <= i
  {
    if i == 0 then 0 else Rank(e, i - 1) + (if e(i - 1) then 1 else 0)
  }

  // The k-th eligible slot.
  function Nth(e: nat -> bool, n: nat, k: nat): nat
    requires k < Rank(e, n)
  {
    if e(n - 1) && Rank(e, n - 1) == k then n - 1 else Nth(e, n - 1, k)
  }

  lemma {:induction false} NthIs(e: nat -> bool, n: nat, k: nat)
    requires k < Rank(e, n)
    ensures Nth(e, n, k) < n && e(Nth(e, n, k)) && Rank(e, Nth(e, n, k)) == k
  {
    if !(e(n - 1) && Rank(e, n - 1) == k) { NthIs(e, n - 1, k); }
  }

  lemma {:induction false} RankMono(e: nat -> bool, i: nat, j: nat)
    requires i <= j
    ensures Rank(e, i) <= Rank(e, j)
    ensures i < j && e(i) ==> Rank(e, i) < Rank(e, j)
    decreases j
  {
    if i < j { RankMono(e, i, j - 1); }
  }

  lemma {:induction false} NthOfRank(e: nat -> bool, n: nat, i: nat)
    requires i < n && e(i)
    ensures Rank(e, i) < Rank(e, n) && Nth(e, n, Rank(e, i)) == i
  {
    RankMono(e, i, n);
    if i < n - 1 {
      RankMono(e, i, n - 1);
      NthOfRank(e, n - 1, i);
    }
  }

  lemma NthInjective(e: nat -> bool, n: nat, j: nat, k: nat)
    requires j < Rank(e, n) && k < Rank(e, n) && Nth(e, n, j) == Nth(e, n, k)
    ensures j == k
  {
    NthIs(e, n, j);
    NthIs(e, n, k);
  }

  // The remainder x % m, in the form the scans need it: back once round the ring
  // at a time.
  function Mod(x: nat, m: nat): (r: nat)
    requires m > 0
    ensures r < m
    decreases x
  {
    if x < m then x else Mod(x - m, m)
  }

  lemma {:induction false} ModIsRemainder(x: nat, m: nat)
    requires m > 0
    ensures Mod(x, m) == x % m
    decreases x
  {
    if x >= m {
      ModIsRemainder(x - m, m);
      RemainderBack(x, m);
    }
  }

  lemma RemainderBack(x: nat, m: nat)
    requires 0 < m <= x
    ensures (x - m) % m == x % m
  {
    var d := x / m - (x - m) / m;
    assert d * m == (x / m) * m - ((x - m) / m) * m;
    assert d * m == m + (x - m) % m - x % m;
    if d >= 2 { Times(2, d, m); }
    if d <= 0 { Times(d, 0, m); }
  }

  lemma {:induction false} ModStep(x: nat, m: nat)
    requires m > 0
    ensures Mod(x + 1, m) == if Mod(x, m) + 1 == m then 0 else Mod(x, m) + 1
    decreases x
  {
    if x >= m { ModStep(x - m, m); }
  }

  lemma SmallMod(x: nat, m: nat)
    requires x < 2 * m
    ensures Mod(x, m) == if x < m then x else x - m
  {
  }

  lemma Times(a: int, b: int, m: nat)
    requires a <= b
    ensures a * m <= b * m
  {
  }

  // The eligible slot of rank x, counted round and round the ring: a scan whose
  // start has rank a meets Met(a), Met(a + 1), Met(a + 2), ...
  function Met(e: nat -> bool, n: nat, x: nat): nat
    requires Rank(e, n) > 0
  {
    Nth(e, n, Mod(x, Rank(e, n)))
  }

  // Every P consecutive meetings are all different, and they are all P slots.
  lemma MetDistinct(e: nat -> bool, n: nat, x: nat, y: nat)
    requires Rank(e, n) > 0 && x < y < x + Rank(e, n)
    ensures Met(e, n, x) != Met(e, n, y)
  {
    if Met(e, n, x) == Met(e, n, y) {
      NthInjective(e, n, Mod(x, Rank(e, n)), Mod(y, Rank(e, n)));
      ModGap(x, y, Rank(e, n));
    }
  }

  lemma {:induction false} ModGap(x: nat, y: nat, m: nat)
    requires m > 0 && x < y < x + m
    ensures Mod(x, m) != Mod(y, m)
    decreases x
  {
    if x >= m { ModGap(x - m, y - m, m); } else { SmallMod(y, m); }
  }

  lemma MetCovers(e: nat -> bool, n: nat, a: nat, total: nat, i: nat) returns (j: nat)
    requires i < n && e(i) && total >= Rank(e, n) > 0
    ensures j < total && Met(e, n, a + j) == i
  {
    NthOfRank(e, n, i);
    var m, r := Rank(e, n), Rank(e, i);
    var b := Mod(a, m);
    SmallMod(b, m);
    j := if b <= r then r - b else r + m - b;
    SmallMod(b + j, m);
    SameMeetings(e, n, a, b, j);
  }

  // Ranks of starts are compared modulo the number of eligible slots: the slot
  // after the last eligible one and slot 0 start the same scan.
  ghost predicate StartsAt(e: nat -> bool, n: nat, start: nat, a: nat) {
    n > 0 && start < n && (Rank(e, n) > 0 ==> Mod(Rank(e, start), Rank(e, n)) == Mod(a, Rank(e, n)))
  }

  // The eligible slots in the window of length w from start.
  function Window(e: nat -> bool, n: nat, start: nat, w: nat): nat
    requires start < n && w <= n
  {
    if start + w <= n
    then (RankMono(e, start, start + w); Rank(e, start + w) - Rank(e, start))
    else (RankMono(e, start, n); Rank(e, n) - Rank(e, start) + Rank(e, start + w - n))
  }

  lemma WindowStep(e: nat -> bool, n: nat, start: nat, w: nat)
    requires start < n && w < n
    ensures Mod(start + w, n) < n
    ensures Window(e, n, start, w + 1) == Window(e, n, start, w) + (if e(Mod(start + w, n)) then 1 else 0)
    ensures e(Mod(start + w, n)) ==>
              && Rank(e, n) > 0
              && Mod(start + w, n) == Met(e, n, Rank(e, start) + Window(e, n, start, w))
  {
    var i := if start + w < n then start + w else start + w - n;
    SmallMod(start + w, n);
    RankMono(e, start, n);
    RankMono(e, i, n);
    if e(i) {
      NthOfRank(e, n, i);
      SmallMod(Rank(e, start) + Window(e, n, start, w), Rank(e, n));
    }
  }

  lemma WindowWhole(e: nat -> bool, n: nat, start: nat)
    requires start < n
    ensures Window(e, n, start, n) == Rank(e, n)
  {
  }

  // Meetings only depend on the start's rank modulo the number of eligible slots.
  lemma SameMeetings(e: nat -> bool, n: nat, a: nat, b: nat, j: nat)
    requires Rank(e, n) > 0 && Mod(a, Rank(e, n)) == Mod(b, Rank(e, n))
    ensures Met(e, n, a + j) == Met(e, n, b + j)
  {
    ModAdd(a, b, j, Rank(e, n));
  }

  lemma {:induction false} ModAdd(a: nat, b: nat, j: nat, m: nat)
    requires m > 0 && Mod(a, m) == Mod(b, m)
    ensures Mod(a + j, m) == Mod(b + j, m)
  {
    if j > 0 {
      ModAdd(a, b, j - 1, m);
      ModStep(a + j - 1, m);
      ModStep(b + j - 1, m);
    }
  }

  // The slot after i, and its rank.
  lemma RankAfter(e: nat -> bool, n: nat, i: nat) returns (next: nat)
    requires i < n && e(i)
    ensures next == Mod(i + 1, n) && next < n
    ensures if i + 1 == n then next == 0 && Rank(e, n) == Rank(e, i) + 1
            else Rank(e, next) == Rank(e, i) + 1 <= Rank(e, n)
  {
    SmallMod(i + 1, n);
    next := if i + 1 == n then 0 else i + 1;
    RankMono(e, i + 1, n);
  }

  // A start just behind the slot of rank x continues with rank x + 1.
  lemma StartAfter(e: nat -> bool, n: nat, x: nat, i: nat)
    requires n > 0 && Rank(e, n) > 0 && i == Met(e, n, x)
    ensures StartsAt(e, n, Mod(i + 1, n), x + 1)
  {
    var m := Rank(e, n);
    var k := Mod(x, m);
    NthIs(e, n, k);
    var next := RankAfter(e, n, i);
    ModStep(x, m);
    var r := Rank(e, next);
    assert r == if next == 0 then 0 else k + 1;
    if next == 0 { SmallMod(0, m); } else { SmallMod(k + 1, m); }
  }
}
