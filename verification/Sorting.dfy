// The sort the program gets from Go's sort package, as a function: stable
// insertion.  Under a strict total order it is the sorted permutation, and the
// only one; under the flipped order it is its reverse.
module Sorting {

  // x goes in front of the first element it ranks before.
  function Insert<T>(less: (T, T) -> bool, s: seq<T>, x: T): (r: seq<T>)
    ensures |r| == |s| + 1
  {
    if s == [] || less(x, s[0]) then [x] + s
    else [s[0]] + Insert(less, s[1..], x)
  }

  lemma {:induction false} InsertElements<T>(less: (T, T) -> bool, s: seq<T>, x: T)
    ensures multiset(Insert(less, s, x)) == multiset(s) + multiset{x}
  {
    if s != [] && !less(x, s[0]) {
      assert s == [s[0]] + s[1..];
      InsertElements(less, s[1..], x);
    }
  }

  function SortBy<T>(less: (T, T) -> bool, s: seq<T>): (r: seq<T>)
    ensures |r| == |s|
  {
    if s == [] then [] else Insert(less, SortBy(less, s[..|s|-1]), s[|s|-1])
  }

  lemma {:induction false} SortElements<T>(less: (T, T) -> bool, s: seq<T>)
    ensures multiset(SortBy(less, s)) == multiset(s)
  {
    if s != [] {
      assert s == s[..|s|-1] + [s[|s|-1]];
      SortElements(less, s[..|s|-1]);
      InsertElements(less, SortBy(less, s[..|s|-1]), s[|s|-1]);
    }
  }

  function Reverse<T>(s: seq<T>): (r: seq<T>)
    ensures |r| == |s|
  {
    if s == [] then [] else Reverse(s[1..]) + [s[0]]
  }

  lemma {:induction false} ReverseElements<T>(s: seq<T>)
    ensures multiset(Reverse(s)) == multiset(s)
    ensures forall i :: 0 <= i < |s| ==> Reverse(s)[i] == s[|s| - 1 - i]
  {
    if s != [] {
      assert s == [s[0]] + s[1..];
      ReverseElements(s[1..]);
    }
  }

  // less decides every pair of different positions of s, one way only, and
  // composes.
  ghost predicate StrictOrderOn<T(!new)>(less: (T, T) -> bool, s: seq<T>) {
    && (forall x | x in s :: !less(x, x))
    && (forall x, y, z | x in s && y in s && z in s :: less(x, y) && less(y, z) ==> less(x, z))
    && (forall i, j | 0 <= i < j < |s| :: less(s[i], s[j]) || less(s[j], s[i]))
  }

  ghost predicate Ascending<T(!new)>(less: (T, T) -> bool, s: seq<T>) {
    forall i, j | 0 <= i < j < |s| :: less(s[i], s[j])
  }

  lemma SameElements<T(!new)>(s: seq<T>, t: seq<T>)
    requires multiset(s) == multiset(t)
    ensures |s| == |t|
    ensures forall x :: x in s <==> x in t
  {
    assert |multiset(s)| == |multiset(t)|;
    forall x ensures x in s <==> x in t {
      assert x in s <==> x in multiset(s);
      assert x in t <==> x in multiset(t);
    }
  }

  // The insertion point found by any search is the one Insert uses.
  lemma {:induction false} InsertAt<T>(less: (T, T) -> bool, s: seq<T>, x: T, idx: nat)
    requires idx <= |s|
    requires forall i | 0 <= i < idx :: !less(x, s[i])
    requires idx < |s| ==> less(x, s[idx])
    ensures Insert(less, s, x) == s[..idx] + [x] + s[idx..]
  {
    if idx == 0 {
      assert s[..0] + [x] + s[0..] == [x] + s;
    } else {
      var tail := s[1..];
      assert !less(x, s[0]);
      assert idx < |s| ==> tail[idx - 1] == s[idx];
      InsertAt(less, tail, x, idx - 1);
      calc {
        Insert(less, s, x);
        [s[0]] + (tail[..idx - 1] + [x] + tail[idx - 1..]);
        { assert s[..idx] == [s[0]] + tail[..idx - 1]; assert s[idx..] == tail[idx - 1..]; }
        s[..idx] + [x] + s[idx..];
      }
    }
  }

  // Rows beyond position k never influence the first k rows.
  lemma {:induction false} InsertTake<T>(less: (T, T) -> bool, s: seq<T>, x: T, k: nat)
    requires k <= |s|
    ensures Insert(less, s, x)[..k] == Insert(less, s[..k], x)[..k]
  {
    if k > 0 && !less(x, s[0]) {
      InsertTake(less, s[1..], x, k - 1);
      assert s[..k][1..] == s[1..][..k - 1];
    } else if k > 0 {
      assert [x] + s == ([x] + s[..k]) + s[k..];
    }
  }

  lemma StrictOrderPrefix<T(!new)>(less: (T, T) -> bool, s: seq<T>, x: T)
    requires StrictOrderOn(less, s + [x])
    ensures StrictOrderOn(less, s)
    ensures forall y | y in s :: less(x, y) || less(y, x)
    ensures x !in s
  {
    var t := s + [x];
    forall i, j | 0 <= i < j < |s| ensures less(s[i], s[j]) || less(s[j], s[i]) {
      assert t[i] == s[i] && t[j] == s[j];
    }
    forall y | y in s ensures (less(x, y) || less(y, x)) && x != y {
      var i :| 0 <= i < |s| && s[i] == y;
      assert t[i] == y && t[|s|] == x;
    }
  }

  lemma {:induction false} InsertAscending<T(!new)>(less: (T, T) -> bool, s: seq<T>, x: T)
    requires StrictOrderOn(less, s + [x]) && Ascending(less, s)
    ensures Ascending(less, Insert(less, s, x))
  {
    StrictOrderPrefix(less, s, x);
    var t := s + [x];
    if s != [] {
      assert s[0] in t && x in t;
      if less(x, s[0]) {
        forall i | 0 < i < |s| ensures less(x, s[i]) { assert s[i] in t; }
      } else {
        var r := s[1..] + [x];
        forall i, j | 0 <= i < j < |r| ensures less(r[i], r[j]) || less(r[j], r[i]) {
          assert r[i] == t[i + 1] && r[j] == t[j + 1];
        }
        assert forall y | y in r :: y in t;
        InsertAscending(less, s[1..], x);
        var rest := Insert(less, s[1..], x);
        InsertElements(less, s[1..], x);
        forall j | 0 <= j < |rest| ensures less(s[0], rest[j]) {
          assert rest[j] in multiset(rest);
          assert rest[j] in multiset(s[1..]) + multiset{x};
        }
      }
    }
  }

  // SortBy is a sorted permutation.
  lemma {:induction false} SortAscending<T(!new)>(less: (T, T) -> bool, s: seq<T>)
    requires StrictOrderOn(less, s)
    ensures Ascending(less, SortBy(less, s)) && multiset(SortBy(less, s)) == multiset(s)
    ensures StrictOrderOn(less, SortBy(less, s))
  {
    SortElements(less, s);
    if s != [] {
      var init, x := s[..|s| - 1], s[|s| - 1];
      assert s == init + [x];
      StrictOrderPrefix(less, init, x);
      SortAscending(less, init);
      var t := SortBy(less, init);
      SameElements(t, init);
      var u := t + [x];
      assert forall y | y in u :: y in s;
      forall i, j | 0 <= i < j < |u| ensures less(u[i], u[j]) || less(u[j], u[i]) {
        if j < |t| { assert less(t[i], t[j]); } else { assert t[i] in t; }
      }
      InsertAscending(less, t, x);
      OrderOnPermutation(less, s, SortBy(less, s));
    }
  }

  lemma AscendingTail<T(!new)>(less: (T, T) -> bool, s: seq<T>)
    requires s != [] && Ascending(less, s)
    ensures Ascending(less, s[1..]) && multiset(s[1..]) == multiset(s) - multiset{s[0]}
    ensures forall x | x in s[1..] :: less(s[0], x)
  {
    assert s == [s[0]] + s[1..];
    var t := s[1..];
    forall p, q | 0 <= p < q < |t| ensures less(t[p], t[q]) { assert less(s[p + 1], s[q + 1]); }
    forall x | x in t ensures less(s[0], x) {
      var i :| 0 <= i < |t| && t[i] == x;
      assert less(s[0], s[i + 1]);
    }
  }

  lemma StrictOrderTail<T(!new)>(less: (T, T) -> bool, s: seq<T>)
    requires s != [] && StrictOrderOn(less, s)
    ensures StrictOrderOn(less, s[1..])
  {
    var t := s[1..];
    assert forall x | x in t :: x in s;
    forall i, j | 0 <= i < j < |t| ensures less(t[i], t[j]) || less(t[j], t[i]) {
      assert t[i] == s[i + 1] && t[j] == s[j + 1];
    }
  }

  lemma SameLeast<T(!new)>(less: (T, T) -> bool, a: seq<T>, b: seq<T>)
    requires a != [] && b != [] && StrictOrderOn(less, a)
    requires forall x | x in a[1..] :: less(a[0], x)
    requires forall x | x in b[1..] :: less(b[0], x)
    requires forall x :: x in a <==> x in b
    ensures a[0] == b[0]
  {
    assert a == [a[0]] + a[1..] && b == [b[0]] + b[1..];
    assert a[0] in a && b[0] in b && a[0] in b && b[0] in a;
    assert !less(a[0], a[0]);
  }

  // ... and the only one.
  lemma {:induction false} SortedUnique<T(!new)>(less: (T, T) -> bool, a: seq<T>, b: seq<T>)
    requires StrictOrderOn(less, a)
    requires Ascending(less, a) && Ascending(less, b) && multiset(a) == multiset(b)
    ensures a == b
  {
    assert |a| == |multiset(a)| == |multiset(b)| == |b|;
    if a != [] {
      AscendingTail(less, a);
      AscendingTail(less, b);
      assert a[0] == b[0] by {
        SameElements(a, b);
        SameLeast(less, a, b);
      }
      assert StrictOrderOn(less, a[1..]) by { StrictOrderTail(less, a); }
      assert a == [a[0]] + a[1..] && b == [b[0]] + b[1..];
      SortedUnique(less, a[1..], b[1..]);
    }
  }

  function Flip<T>(less: (T, T) -> bool): (T, T) -> bool { (a, b) => less(b, a) }

  // Collecting under the reversed comparator sorts backwards.
  lemma SortFlipped<T(!new)>(less: (T, T) -> bool, s: seq<T>)
    requires StrictOrderOn(less, s)
    ensures StrictOrderOn(Flip(less), s)
    ensures SortBy(Flip(less), s) == Reverse(SortBy(less, s))
  {
    var gt := Flip(less);
    assert StrictOrderOn(gt, s);
    SortAscending(less, s);
    SortAscending(gt, s);
    var up, down := SortBy(less, s), SortBy(gt, s);
    ReverseElements(up);
    assert Ascending(gt, Reverse(up));
    SortedUnique(gt, down, Reverse(up));
  }

  lemma OrderOnPermutation<T(!new)>(less: (T, T) -> bool, s: seq<T>, t: seq<T>)
    requires StrictOrderOn(less, s) && multiset(s) == multiset(t) && Ascending(less, t)
    ensures StrictOrderOn(less, t)
  {
    SameElements(s, t);
  }

  // An ascending block is left alone by a final sort, and a reversed block of
  // the descending order is turned back.
  lemma SortOfBlock<T(!new)>(less: (T, T) -> bool, block: seq<T>, up: seq<T>)
    requires StrictOrderOn(less, block) && Ascending(less, up) && multiset(up) == multiset(block)
    ensures SortBy(less, block) == up
  {
    SortAscending(less, block);
    SortedUnique(less, SortBy(less, block), up);
  }

  // ------------------------------------------------------ orders with ties

  ghost predicate Transitive<T(!new)>(less: (T, T) -> bool) { forall x, y, z :: less(x, y) && less(y, z) ==> less(x, z) }

  ghost predicate Irreflexive<T(!new)>(less: (T, T) -> bool) { forall x :: !less(x, x) }

  // No element is below an earlier one.
  ghost predicate NeverDescends<T(!new)>(less: (T, T) -> bool, s: seq<T>) { forall i, j | 0 <= i < j < |s| :: !less(s[j], s[i]) }

  lemma {:induction false} InsertKeepsOrder<T(!new)>(less: (T, T) -> bool, s: seq<T>, x: T)
    requires Transitive(less) && Irreflexive(less) && NeverDescends(less, s)
    ensures NeverDescends(less, Insert(less, s, x))
    ensures forall y :: y in Insert(less, s, x) <==> y in s || y == x
  {
    if s == [] {
    } else if less(x, s[0]) {
      var r := [x] + s;
      forall j | 0 < j < |r| ensures !less(r[j], x) {
        if j > 1 { assert !less(s[j - 1], s[0]); }
      }
    } else {
      InsertKeepsOrder(less, s[1..], x);
      assert s == [s[0]] + s[1..];
      var t := Insert(less, s[1..], x);
      forall j | 0 <= j < |t| ensures !less(t[j], s[0]) {
        assert t[j] in t;
        if t[j] != x {
          var m :| 0 <= m < |s[1..]| && s[1..][m] == t[j];
          assert s[m + 1] == t[j];
        }
      }
    }
  }

  // Sorting by an order that has ties: a permutation that never descends.
  lemma {:induction false} SortKeepsOrder<T(!new)>(less: (T, T) -> bool, s: seq<T>)
    requires Transitive(less) && Irreflexive(less)
    ensures NeverDescends(less, SortBy(less, s)) && multiset(SortBy(less, s)) == multiset(s)
  {
    SortElements(less, s);
    if s != [] {
      SortKeepsOrder(less, s[..|s|-1]);
      InsertKeepsOrder(less, SortBy(less, s[..|s|-1]), s[|s|-1]);
    }
  }
}
