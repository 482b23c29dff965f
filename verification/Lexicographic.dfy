// Go compares strings byte by byte.  This module states that order on
// seq<char> and proves that it, and the orders the program builds from it,
// are strict total orders.
module Lexicographic {

  predicate Less(a: string, b: string) {
    b != [] && (a == [] || a[0] < b[0] || (a[0] == b[0] && Less(a[1..], b[1..])))
  }

  lemma Irreflexive(a: string)
    ensures !Less(a, a)
  {
    if a != [] { Irreflexive(a[1..]); }
  }

  lemma {:induction false} Transitive(a: string, b: string, c: string)
    requires Less(a, b) && Less(b, c)
    ensures Less(a, c)
  {
    if a != [] && a[0] == b[0] && b[0] == c[0] {
      Transitive(a[1..], b[1..], c[1..]);
    }
  }

  lemma {:induction false} Trichotomy(a: string, b: string)
    ensures Less(a, b) || a == b || Less(b, a)
  {
    if a != [] && b != [] && a[0] == b[0] {
      Trichotomy(a[1..], b[1..]);
      if a[1..] == b[1..] {
        assert a == [a[0]] + a[1..] == [b[0]] + b[1..] == b;
      }
    }
  }

  lemma Asymmetric(a: string, b: string)
    requires Less(a, b)
    ensures !Less(b, a) && a != b
  {
    Irreflexive(a);
    if Less(b, a) { Transitive(a, b, a); }
  }

  // The lexicographic order on pairs of strings: the first component decides
  // unless it is equal.
  predicate PairLess(a1: string, a2: string, b1: string, b2: string) {
    Less(a1, b1) || (a1 == b1 && Less(a2, b2))
  }

  lemma PairIrreflexive(a1: string, a2: string)
    ensures !PairLess(a1, a2, a1, a2)
  {
    Irreflexive(a1);
    Irreflexive(a2);
  }

  lemma PairTransitive(a1: string, a2: string, b1: string, b2: string, c1: string, c2: string)
    requires PairLess(a1, a2, b1, b2) && PairLess(b1, b2, c1, c2)
    ensures PairLess(a1, a2, c1, c2)
  {
    if Less(a1, b1) && Less(b1, c1) { Transitive(a1, b1, c1); }
    if Less(a2, b2) && Less(b2, c2) { Transitive(a2, b2, c2); }
  }

  lemma PairTrichotomy(a1: string, a2: string, b1: string, b2: string)
    ensures PairLess(a1, a2, b1, b2) || (a1 == b1 && a2 == b2) || PairLess(b1, b2, a1, a2)
  {
    Trichotomy(a1, b1);
    Trichotomy(a2, b2);
  }

  lemma PairAsymmetric(a1: string, a2: string, b1: string, b2: string)
    requires PairLess(a1, a2, b1, b2)
    ensures !PairLess(b1, b2, a1, a2) && !(a1 == b1 && a2 == b2)
  {
    PairIrreflexive(a1, a2);
    if PairLess(b1, b2, a1, a2) { PairTransitive(a1, a2, b1, b2, a1, a2); }
  }
}
