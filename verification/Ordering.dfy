/** Finite sequences without repetition, total orders, and Python's `sorted` on a set. */
module Ordering {

  /** The set of elements of a sequence. */
  function Elems<T>(s: seq<T>): set<T> {
    set x | x in s
  }

  ghost predicate NoDup<T>(s: seq<T>) {
    forall i, j :: 0 <= i < j < |s| ==> s[i] != s[j]
  }

  ghost predicate TotalOrder<T(!new)>(leq: (T, T) -> bool) {
    && (forall a :: leq(a, a))
    && (forall a, b :: leq(a, b) || leq(b, a))
    && (forall a, b :: leq(a, b) && leq(b, a) ==> a == b)
    && (forall a, b, c :: leq(a, b) && leq(b, c) ==> leq(a, c))
  }

  ghost predicate SortedBy<T>(leq: (T, T) -> bool, s: seq<T>) {
    forall i, j :: 0 <= i < j < |s| ==> leq(s[i], s[j])
  }

  lemma NoDupAppend<T>(a: seq<T>, b: seq<T>)
    requires NoDup(a) && NoDup(b) && forall x :: x in b ==> x !in a
    ensures NoDup(a + b)
  {
    forall i, j | 0 <= i < j < |a + b| ensures (a + b)[i] != (a + b)[j] {
      assert i < |a| <= j ==> b[j - |a|] in b;
    }
  }

  /** A sequence without repetition has as many elements as positions. */
  lemma {:induction false} NoDupCardinality<T>(s: seq<T>)
    requires NoDup(s)
    ensures |Elems(s)| == |s|
  {
    if s != [] {
      var n := |s| - 1;
      NoDupCardinality(s[..n]);
      assert Elems(s) == Elems(s[..n]) + {s[n]};
    }
  }

  lemma {:induction false} ElemsCardinality<T>(s: seq<T>)
    ensures |Elems(s)| <= |s|
    ensures |Elems(s)| == |s| <==> NoDup(s)
  {
    if s != [] {
      var n := |s| - 1;
      ElemsCardinality(s[..n]);
      assert Elems(s) == Elems(s[..n]) + {s[n]};
      if s[n] in s[..n] {
        var i :| 0 <= i < n && s[i] == s[n];
      } else {
        forall i, j | 0 <= i < j < |s| && NoDup(s[..n]) ensures s[i] != s[j] {
          assert s[i] == s[..n][i];
          assert j < n ==> s[j] == s[..n][j];
        }
        assert NoDup(s) ==> NoDup(s[..n]);
      }
    }
  }

  /** More positions than elements force a repetition. */
  lemma {:induction false} Pigeonhole<T>(s: seq<T>, pool: set<T>)
    requires Elems(s) <= pool && |pool| < |s|
    ensures exists i, j :: 0 <= i < j < |s| && s[i] == s[j]
  {
    if NoDup(s) {
      NoDupCardinality(s);
      SubsetCardinality(Elems(s), pool);
    }
  }

  lemma {:induction false} SubsetCardinality<T>(a: set<T>, b: set<T>)
    requires a <= b
    ensures |a| <= |b|
    ensures |a| == |b| ==> a == b
  {
    if a != {} {
      var x :| x in a;
      SubsetCardinality(a - {x}, b - {x});
    }
  }

  /** Python's `sorted` applied to a set: the elements of the set, once each, in order. */
  method Sorted<T(==,!new)>(s: set<T>, leq: (T, T) -> bool) returns (r: seq<T>)
    requires TotalOrder(leq)
    ensures Elems(r) == s && NoDup(r) && SortedBy(leq, r)
  {
    r := [];
    var todo := s;
    while todo != {}
      invariant todo <= s && Elems(r) == s - todo
      invariant NoDup(r) && SortedBy(leq, r)
      decreases todo
    {
      var x :| x in todo;
      var p := 0;
      while p < |r| && leq(r[p], x)
        invariant p <= |r|
        invariant p > 0 ==> leq(r[p - 1], x)
      {
        p := p + 1;
      }
      InsertAt(leq, r, p, x);
      InsertDistinct(r, p, x);
      r, todo := r[..p] + [x] + r[p..], todo - {x};
    }
  }

  lemma InsertAt<T(!new)>(leq: (T, T) -> bool, s: seq<T>, p: nat, x: T)
    requires TotalOrder(leq) && SortedBy(leq, s)
    requires p <= |s| && (p > 0 ==> leq(s[p - 1], x)) && (p < |s| ==> !leq(s[p], x))
    ensures SortedBy(leq, s[..p] + [x] + s[p..])
  {
  }

  lemma InsertDistinct<T>(s: seq<T>, p: nat, x: T)
    requires p <= |s| && NoDup(s) && x !in s
    ensures NoDup(s[..p] + [x] + s[p..]) && Elems(s[..p] + [x] + s[p..]) == Elems(s) + {x}
  {
  }

  // ---- lexicographic order: Python's comparison of strings and of tuples ----

  predicate LexLeq<T(==)>(leq: (T, T) -> bool, a: seq<T>, b: seq<T>)
    decreases |a|
  {
    if a == [] then true
    else if b == [] then false
    else if a[0] == b[0] then LexLeq(leq, a[1..], b[1..])
    else leq(a[0], b[0])
  }

  lemma {:induction false} LexTotal<T(!new)>(leq: (T, T) -> bool, a: seq<T>, b: seq<T>)
    requires TotalOrder(leq)
    ensures LexLeq(leq, a, b) || LexLeq(leq, b, a)
    ensures LexLeq(leq, a, b) && LexLeq(leq, b, a) ==> a == b
    decreases |a|
  {
    if a != [] && b != [] && a[0] == b[0] {
      LexTotal(leq, a[1..], b[1..]);
      assert a == [a[0]] + a[1..] && b == [b[0]] + b[1..];
    }
  }

  lemma {:induction false} LexTransitive<T(!new)>(leq: (T, T) -> bool, a: seq<T>, b: seq<T>, c: seq<T>)
    requires TotalOrder(leq) && LexLeq(leq, a, b) && LexLeq(leq, b, c)
    ensures LexLeq(leq, a, c)
    decreases |a|
  {
    if a != [] && a[0] == b[0] && b[0] == c[0] {
      LexTransitive(leq, a[1..], b[1..], c[1..]);
    }
  }

  /** The order of strings. */
  predicate CharLeq(a: char, b: char) { a <= b }

  predicate NameLeq(a: string, b: string) { LexLeq(CharLeq, a, b) }

  lemma NameLeqIsTotal()
    ensures TotalOrder(NameLeq)
  {
    assert TotalOrder(CharLeq);
    forall a, b ensures (NameLeq(a, b) || NameLeq(b, a)) && (NameLeq(a, b) && NameLeq(b, a) ==> a == b) {
      LexTotal(CharLeq, a, b);
    }
    forall a, b, c | NameLeq(a, b) && NameLeq(b, c) ensures NameLeq(a, c) {
      LexTransitive(CharLeq, a, b, c);
    }
  }

  predicate IntLeq(a: int, b: int) { a <= b }
}
