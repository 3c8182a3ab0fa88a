/**
 * Kahn's algorithm as the migrator runs it: a first-in-first-out queue, filled in sorted order, over a graph
 * that maps every node to the set of nodes it depends on.
 */
module Kahn {
  import opened Ordering

  ghost predicate Closed<K(!new)>(g: map<K, set<K>>) {
    forall n :: n in g ==> g[n] <= g.Keys
  }

  /** A walk follows dependencies. */
  ghost predicate Walk<K>(g: map<K, set<K>>, w: seq<K>) {
    && (forall i :: 0 <= i < |w| ==> w[i] in g)
    && (forall i :: 0 <= i < |w| - 1 ==> w[i + 1] in g[w[i]])
  }

  /** n lies on a cycle or depends, directly or not, on one: some walk from n meets a node twice. */
  ghost predicate ReachesCycle<K(!new)>(g: map<K, set<K>>, n: K) {
    exists w: seq<K> :: Walk(g, w) && |w| > 0 && w[0] == n && !NoDup(w)
  }

  ghost predicate Acyclic<K(!new)>(g: map<K, set<K>>) {
    forall c: seq<K> :: Walk(g, c) && |c| >= 2 ==> c[0] != c[|c| - 1]
  }

  /** How long a prefix of o must be before all of d is in it. */
  function Release<K>(o: seq<K>, d: set<K>): nat {
    if o == [] then 0
    else if d <= Elems(o[..|o| - 1]) then Release(o[..|o| - 1], d)
    else |o|
  }

  ghost predicate DependenciesFirst<K>(g: map<K, set<K>>, o: seq<K>) {
    forall i :: 0 <= i < |o| ==> o[i] in g && g[o[i]] <= Elems(o[..i])
  }

  /** Released earlier, or released together and smaller. */
  ghost predicate QueuedBefore<K>(g: map<K, set<K>>, leq: (K, K) -> bool, o: seq<K>, a: K, b: K)
    requires a in g && b in g
  {
    Release(o, g[a]) < Release(o, g[b]) || (Release(o, g[a]) == Release(o, g[b]) && leq(a, b))
  }

  /** The result of the algorithm, described without its queue. */
  ghost predicate IsKahnOrder<K(!new)>(g: map<K, set<K>>, leq: (K, K) -> bool, o: seq<K>) {
    && NoDup(o)
    && DependenciesFirst(g, o)
    && (forall n :: n in g && g[n] <= Elems(o) ==> n in o)
    && (forall i, j :: 0 <= i < j < |o| ==> QueuedBefore(g, leq, o, o[i], o[j]))
  }

  // ---- the algorithm ----

  /** Which nodes wait for d. */
  function Dependants<K>(g: map<K, set<K>>, d: K): set<K> {
    set n | n in g && d in g[n]
  }

  method ReverseMap<K(==,!new)>(g: map<K, set<K>>) returns (reverse: map<K, set<K>>)
    requires Closed(g)
    ensures reverse.Keys == g.Keys && forall d :: d in g ==> reverse[d] == Dependants(g, d)
  {
    reverse := map n | n in g :: {};
    var todo := g.Keys;
    while todo != {}
      invariant todo <= g.Keys && reverse.Keys == g.Keys
      invariant forall d :: d in g ==> reverse[d] == Dependants(g, d) - todo
      decreases todo
    {
      var n :| n in todo;
      reverse := Enter(reverse, g[n], n);
      todo := todo - {n};
    }
  }

  /** The inner loop: n is entered as a dependant of each of its dependencies. */
  method Enter<K(==)>(reverse: map<K, set<K>>, dependencies: set<K>, n: K) returns (entered: map<K, set<K>>)
    requires dependencies <= reverse.Keys
    ensures entered.Keys == reverse.Keys
    ensures forall d :: d in reverse ==> entered[d] == if d in dependencies then reverse[d] + {n} else reverse[d]
  {
    entered := reverse;
    var left := dependencies;
    while left != {}
      invariant left <= dependencies && entered.Keys == reverse.Keys
      invariant forall d :: d in reverse ==>
        entered[d] == if d in dependencies - left then reverse[d] + {n} else reverse[d]
      decreases left
    {
      var d :| d in left;
      entered := entered[d := entered[d] + {n}];
      left := left - {d};
    }
  }

  /** What holds of the queue between two rounds. */
  ghost predicate RoundInvariant<K(!new)>(g: map<K, set<K>>, leq: (K, K) -> bool, o: seq<K>, ready: seq<K>) {
    && NoDup(o + ready)
    && DependenciesFirst(g, o)
    && AllReleased(g, o, o + ready)
    && Ranked(g, leq, o, o + ready)
  }

  /** all holds exactly the nodes whose dependencies are in o. */
  ghost predicate AllReleased<K(!new)>(g: map<K, set<K>>, o: seq<K>, all: seq<K>) {
    forall n {:trigger n in all} :: n in all <==> n in g && g[n] <= Elems(o)
  }

  ghost predicate Ranked<K(!new)>(g: map<K, set<K>>, leq: (K, K) -> bool, o: seq<K>, all: seq<K>)
    requires forall n :: n in all ==> n in g
  {
    forall i, j {:trigger QueuedBefore(g, leq, o, all[i], all[j])} :: 0 <= i < j < |all| ==>
      QueuedBefore(g, leq, o, all[i], all[j])
  }

  method TopologicalOrder<K(==,!new)>(g: map<K, set<K>>, leq: (K, K) -> bool) returns (ordered: seq<K>)
    requires Closed(g) && TotalOrder(leq)
    ensures IsKahnOrder(g, leq, ordered)
  {
    var reverse := ReverseMap(g);
    var ready := Sorted((set n | n in g && g[n] == {}), leq);
    ordered := [];
    var remaining := g;
    assert forall n :: n in ready <==> n in Elems(ready);
    InitialRound(g, leq, ready);
    while ready != []
      invariant remaining.Keys == g.Keys
      invariant forall n :: n in g ==> remaining[n] == g[n] - Elems(ordered)
      invariant RoundInvariant(g, leq, ordered, ready)
      decreases g.Keys - Elems(ordered)
    {
      var current := ready[0];
      CurrentIsNew(g, leq, ordered, ready);
      ghost var before, queue := ordered, ready;
      ready := ready[1..];
      ordered := ordered + [current];
      assert Elems(ordered) == Elems(before) + {current};
      var dependants := Sorted(reverse[current], leq);
      remaining, ready := ReleaseDependants(g, current, dependants, remaining, ready, Elems(before));
      NextRound(g, leq, before, queue, dependants);
    }
    QueueEmpty(g, leq, ordered);
  }

  lemma QueueEmpty<K(!new)>(g: map<K, set<K>>, leq: (K, K) -> bool, o: seq<K>)
    requires RoundInvariant(g, leq, o, [])
    ensures IsKahnOrder(g, leq, o)
  {
    assert o + [] == o;
    forall i, j | 0 <= i < j < |o| ensures QueuedBefore(g, leq, o, o[i], o[j]) {
      assert QueuedBefore(g, leq, o, (o + [])[i], (o + [])[j]);
    }
  }

  /** The inner loop: strike current off its dependants, queue those that wait for nothing else. */
  method ReleaseDependants<K(==,!new)>(g: map<K, set<K>>, current: K, dependants: seq<K>,
                                       waiting: map<K, set<K>>, queue: seq<K>, ghost placed: set<K>)
    returns (remaining: map<K, set<K>>, ready: seq<K>)
    requires NoDup(dependants) && Elems(dependants) == Dependants(g, current)
    requires waiting.Keys == g.Keys && forall n :: n in g ==> waiting[n] == g[n] - placed
    ensures remaining.Keys == g.Keys && forall n :: n in g ==> remaining[n] == g[n] - (placed + {current})
    ensures ready == queue + Freed(g, placed + {current}, dependants)
  {
    hide NoDup, Dependants, Freed, Released;
    remaining, ready := waiting, queue;
    NothingReleased(g, waiting, current, placed);
    assert dependants[..0] == [];
    var k := 0;
    while k < |dependants|
      invariant k <= |dependants| && remaining == Released(waiting, current, Elems(dependants[..k]))
      invariant ready == queue + Freed(g, placed + {current}, dependants[..k])
    {
      ReleaseOne(g, waiting, current, placed, dependants, k);
      FreedNext(g, placed + {current}, dependants, k);
      remaining := remaining[dependants[k] := remaining[dependants[k]] - {current}];
      if remaining[dependants[k]] == {} {
        ready := ready + [dependants[k]];
      }
      k := k + 1;
    }
    assert dependants[..k] == dependants;
    ReleasedAll(g, waiting, current, placed);
  }

  /** What the nodes wait for when `current` has been struck off some of them. */
  ghost function Released<K>(waiting: map<K, set<K>>, current: K, done: set<K>): map<K, set<K>> {
    map n | n in waiting :: if n in done then waiting[n] - {current} else waiting[n]
  }

  lemma NothingReleased<K>(g: map<K, set<K>>, waiting: map<K, set<K>>, current: K, placed: set<K>)
    ensures Released(waiting, current, Elems([])) == waiting && Freed(g, placed + {current}, []) == []
  {
  }

  lemma ReleaseOne<K>(g: map<K, set<K>>, waiting: map<K, set<K>>, current: K, placed: set<K>, dependants: seq<K>,
                      k: nat)
    requires k < |dependants| && NoDup(dependants) && Elems(dependants) == Dependants(g, current)
    requires waiting.Keys == g.Keys && forall n :: n in g ==> waiting[n] == g[n] - placed
    ensures var d, before := dependants[k], Released(waiting, current, Elems(dependants[..k]));
      d in g && d in before && before[d] == waiting[d]
      && before[d := before[d] - {current}] == Released(waiting, current, Elems(dependants[..k + 1]))
      && (before[d] - {current} == {} <==> g[d] <= placed + {current})
  {
    assert dependants[k] in Elems(dependants) && dependants[k] !in dependants[..k];
    assert dependants[..k + 1] == dependants[..k] + [dependants[k]];
  }

  lemma ReleasedAll<K>(g: map<K, set<K>>, waiting: map<K, set<K>>, current: K, placed: set<K>)
    requires waiting.Keys == g.Keys && forall n :: n in g ==> waiting[n] == g[n] - placed
    ensures var remaining := Released(waiting, current, Dependants(g, current));
      remaining.Keys == g.Keys && forall n :: n in g ==> remaining[n] == g[n] - (placed + {current})
  {
  }

  /** The dependants whose last dependency has been placed, in the order they are met. */
  ghost function Freed<K>(g: map<K, set<K>>, placed: set<K>, dependants: seq<K>): seq<K> {
    if dependants == [] then []
    else
      var n := dependants[|dependants| - 1];
      Freed(g, placed, dependants[..|dependants| - 1]) + if n in g && g[n] <= placed then [n] else []
  }

  lemma FreedNext<K>(g: map<K, set<K>>, placed: set<K>, dependants: seq<K>, k: nat)
    requires k < |dependants|
    ensures Freed(g, placed, dependants[..k + 1])
         == Freed(g, placed, dependants[..k])
            + if dependants[k] in g && g[dependants[k]] <= placed then [dependants[k]] else []
  {
    assert dependants[..k + 1][..k] == dependants[..k];
  }

  lemma CurrentIsNew<K(!new)>(g: map<K, set<K>>, leq: (K, K) -> bool, o: seq<K>, queue: seq<K>)
    requires queue != [] && RoundInvariant(g, leq, o, queue)
    ensures queue[0] in g && queue[0] !in o && g[queue[0]] <= Elems(o)
  {
    assert (o + queue)[|o|] == queue[0];
    assert queue[0] in o + queue;
    forall i | 0 <= i < |o| ensures o[i] != queue[0] {
      assert (o + queue)[i] == o[i];
    }
  }

  lemma {:induction false} FreedIsSorted<K(!new)>(g: map<K, set<K>>, leq: (K, K) -> bool, placed: set<K>, ds: seq<K>)
    requires SortedBy(leq, ds) && NoDup(ds)
    ensures var f := Freed(g, placed, ds);
            SortedBy(leq, f) && NoDup(f)
            && forall n {:trigger n in f} :: n in f <==> n in ds && n in g && g[n] <= placed
  {
    if ds != [] {
      var n := ds[|ds| - 1];
      FreedIsSorted(g, leq, placed, ds[..|ds| - 1]);
      assert ds == ds[..|ds| - 1] + [n];
      var f := Freed(g, placed, ds[..|ds| - 1]);
      forall i | 0 <= i < |f| ensures leq(f[i], n) && f[i] != n {
        assert f[i] in f;
        assert f[i] in ds[..|ds| - 1];
      }
    }
  }

  lemma ReleaseAfter<K(!new)>(o: seq<K>, c: K, d: set<K>)
    ensures Release(o, d) <= |o|
    ensures Release(o + [c], d) == if d <= Elems(o) then Release(o, d) else |o| + 1
  {
  }

  lemma InitialRound<K(!new)>(g: map<K, set<K>>, leq: (K, K) -> bool, ready: seq<K>)
    requires NoDup(ready) && SortedBy(leq, ready) && forall n :: n in ready <==> n in g && g[n] == {}
    ensures RoundInvariant(g, leq, [], ready)
  {
  }

  /** Everything a round moves into the queue was not there before and is released by this very round. */
  lemma FreedIsNew<K(!new)>(g: map<K, set<K>>, o: seq<K>, queue: seq<K>, n: K)
    requires queue != [] && queue[0] !in o && AllReleased(g, o, o + queue)
    requires n in g && queue[0] in g[n]
    ensures n !in o + queue && Release(o + [queue[0]], g[n]) == |o| + 1
  {
  }

  lemma NextRound<K(!new)>(g: map<K, set<K>>, leq: (K, K) -> bool, o: seq<K>, queue: seq<K>, ds: seq<K>)
    requires queue != [] && RoundInvariant(g, leq, o, queue)
    requires SortedBy(leq, ds) && NoDup(ds) && Elems(ds) == Dependants(g, queue[0])
    ensures RoundInvariant(g, leq, o + [queue[0]], queue[1..] + Freed(g, Elems(o) + {queue[0]}, ds))
  {
    var c, p := queue[0], o + [queue[0]];
    CurrentIsNew(g, leq, o, queue);
    var f := Freed(g, Elems(o) + {c}, ds);
    assert p + (queue[1..] + f) == (o + queue) + f;
    assert Elems(p) == Elems(o) + {c};
    FreedIsSorted(g, leq, Elems(o) + {c}, ds);
    FreedMembers(g, o, queue, ds, f);
    NoDupAppend(o + queue, f);
    NextMembers(g, o, queue, f);
    NextRanks(g, leq, o, queue, f);
    NextDependencies(g, o, c);
  }

  lemma FreedMembers<K(!new)>(g: map<K, set<K>>, o: seq<K>, queue: seq<K>, ds: seq<K>, f: seq<K>)
    requires queue != [] && queue[0] !in o && AllReleased(g, o, o + queue)
    requires Elems(ds) == Dependants(g, queue[0])
    requires forall n {:trigger n in f} :: n in f <==> n in ds && n in g && g[n] <= Elems(o) + {queue[0]}
    ensures forall n {:trigger n in f} :: n in f <==> n in g && queue[0] in g[n] && g[n] <= Elems(o) + {queue[0]}
    ensures forall n :: n in f ==> n !in o + queue && Release(o + [queue[0]], g[n]) == |o| + 1
  {
    forall n {:trigger n in f} ensures n in f <==> n in g && queue[0] in g[n] && g[n] <= Elems(o) + {queue[0]} {
      assert n in ds <==> n in Elems(ds);
    }
    forall n | n in f ensures n !in o + queue && Release(o + [queue[0]], g[n]) == |o| + 1 {
      FreedIsNew(g, o, queue, n);
    }
  }

  lemma NextMembers<K(!new)>(g: map<K, set<K>>, o: seq<K>, queue: seq<K>, f: seq<K>)
    requires queue != [] && AllReleased(g, o, o + queue)
    requires forall n {:trigger n in f} :: n in f <==> n in g && queue[0] in g[n] && g[n] <= Elems(o) + {queue[0]}
    ensures AllReleased(g, o + [queue[0]], (o + queue) + f)
  {
  }

  lemma NextDependencies<K(!new)>(g: map<K, set<K>>, o: seq<K>, c: K)
    requires DependenciesFirst(g, o) && c in g && g[c] <= Elems(o)
    ensures DependenciesFirst(g, o + [c])
  {
    var p := o + [c];
    forall i | 0 <= i < |p| ensures p[i] in g && g[p[i]] <= Elems(p[..i]) {
      assert p[..i] == o[..i];
      assert o[..|o|] == o;
    }
  }

  lemma NextRanks<K(!new)>(g: map<K, set<K>>, leq: (K, K) -> bool, o: seq<K>, queue: seq<K>, f: seq<K>)
    requires queue != [] && AllReleased(g, o, o + queue) && Ranked(g, leq, o, o + queue)
    requires SortedBy(leq, f) && forall n :: n in f ==> n in g && Release(o + [queue[0]], g[n]) == |o| + 1
    ensures Ranked(g, leq, o + [queue[0]], (o + queue) + f)
  {
    var p, all := o + [queue[0]], (o + queue) + f;
    var m := |o + queue|;
    assert forall n :: n in all ==> n in o + queue || n in f;
    forall n | n in o + queue ensures Release(p, g[n]) == Release(o, g[n]) <= |o| {
      ReleaseAfter(o, queue[0], g[n]);
    }
    forall i, j | 0 <= i < j < |all| ensures QueuedBefore(g, leq, p, all[i], all[j]) {
      if j < m {
        assert all[i] == (o + queue)[i] && all[j] == (o + queue)[j];
        assert QueuedBefore(g, leq, o, (o + queue)[i], (o + queue)[j]);
      } else {
        assert all[j] == f[j - m];
        assert i < m ==> all[i] in o + queue;
        assert m <= i ==> all[i] == f[i - m];
      }
    }
  }

  // ---- what the order means ----

  lemma {:induction false} WalkDescends<K(!new)>(g: map<K, set<K>>, o: seq<K>, w: seq<K>, p: nat)
    requires DependenciesFirst(g, o) && Walk(g, w) && w != [] && p < |o| && w[0] == o[p]
    ensures forall i :: 1 <= i < |w| ==> w[i] in o[..p]
    decreases |w|
  {
    if |w| > 1 {
      assert w[1] in Elems(o[..p]);
      var q :| 0 <= q < p && o[q] == w[1];
      assert forall k :: 0 <= k < |w[1..]| ==> w[1..][k] == w[k + 1];
      WalkDescends(g, o, w[1..], q);
      forall i | 1 <= i < |w| ensures w[i] in o[..p] {
        if i > 1 {
          assert w[1..][i - 1] in o[..q];
        }
      }
    }
  }

  lemma PlacedAvoidsCycles<K(!new)>(g: map<K, set<K>>, o: seq<K>, n: K)
    requires NoDup(o) && DependenciesFirst(g, o) && n in o
    ensures !ReachesCycle(g, n)
  {
    forall w: seq<K> | Walk(g, w) && |w| > 0 && w[0] == n ensures NoDup(w) {
      var p :| 0 <= p < |o| && o[p] == n;
      WalkDescends(g, o, w, p);
      forall i, j | 0 <= i < j < |w| ensures w[i] != w[j] {
        assert i > 0 ==> w[i] in o[..p];
        var q :| 0 <= q < |o| && o[q] == w[i];
        assert forall k :: 0 <= k < |w[i..]| ==> w[i..][k] == w[i + k];
        WalkDescends(g, o, w[i..], q);
        assert w[i..][j - i] in o[..q];
      }
    }
  }

  /** Where every node has a dependency inside s, walks inside s can be made as long as one likes. */
  lemma {:induction false} WalkWithin<K(!new)>(g: map<K, set<K>>, s: set<K>, n: K, length: nat) returns (w: seq<K>)
    requires s <= g.Keys && n in s && forall m :: m in s ==> g[m] * s != {}
    ensures |w| == length + 1 && w[0] == n && Walk(g, w) && Elems(w) <= s
    decreases length
  {
    if length == 0 {
      w := [n];
    } else {
      var m :| m in g[n] * s;
      var rest := WalkWithin(g, s, m, length - 1);
      w := [n] + rest;
    }
  }

  lemma LeftOverReachesCycle<K(!new)>(g: map<K, set<K>>, o: seq<K>, n: K)
    requires Closed(g) && n in g && n !in o
    requires forall m :: m in g && g[m] <= Elems(o) ==> m in o
    ensures ReachesCycle(g, n)
  {
    var s := g.Keys - Elems(o);
    forall m | m in s ensures g[m] * s != {} {
      var d :| d in g[m] && d !in Elems(o);
      assert d in g[m] * s;
    }
    var w := WalkWithin(g, s, n, |s|);
    Pigeonhole(w, s);
  }

  /** The algorithm places exactly the nodes from which no cycle can be reached. */
  lemma KahnOrderIsExact<K(!new)>(g: map<K, set<K>>, leq: (K, K) -> bool, o: seq<K>)
    requires Closed(g) && IsKahnOrder(g, leq, o)
    ensures forall n :: n in g ==> (n in o <==> !ReachesCycle(g, n))
  {
    forall n | n in g ensures n in o <==> !ReachesCycle(g, n) {
      if n in o {
        PlacedAvoidsCycles(g, o, n);
      } else {
        LeftOverReachesCycle(g, o, n);
      }
    }
  }

  lemma AcyclicMeansNoneReachesCycle<K(!new)>(g: map<K, set<K>>)
    ensures Acyclic(g) <==> forall n :: n in g ==> !ReachesCycle(g, n)
  {
    forall n | n in g && ReachesCycle(g, n) ensures !Acyclic(g) {
      var w: seq<K> :| Walk(g, w) && |w| > 0 && w[0] == n && !NoDup(w);
      var i, j :| 0 <= i < j < |w| && w[i] == w[j];
      var c := w[i..j + 1];
      assert forall k :: 0 <= k < |c| ==> c[k] == w[i + k];
      assert Walk(g, c) && c[0] == c[|c| - 1];
    }
    forall c: seq<K> | Walk(g, c) && |c| >= 2 && c[0] == c[|c| - 1] ensures c[0] in g && ReachesCycle(g, c[0]) {
    }
  }

  /** All nodes are placed, which is how the script detects cycles, if and only if there is no cycle. */
  lemma CompleteIffAcyclic<K(!new)>(g: map<K, set<K>>, leq: (K, K) -> bool, o: seq<K>)
    requires Closed(g) && IsKahnOrder(g, leq, o)
    ensures |o| == |g| <==> Acyclic(g)
    ensures |o| == |g| <==> Elems(o) == g.Keys
  {
    KahnOrderIsExact(g, leq, o);
    AcyclicMeansNoneReachesCycle(g);
    NoDupCardinality(o);
    assert Elems(o) <= g.Keys;
    SubsetCardinality(Elems(o), g.Keys);
    assert |g| == |g.Keys|;
    assert Elems(o) == g.Keys <==> forall n :: n in g ==> n in o;
  }

  lemma {:induction false} ReleaseInPrefix<K>(o: seq<K>, k: nat, d: set<K>)
    requires k <= |o| && d <= Elems(o[..k])
    ensures Release(o, d) == Release(o[..k], d)
    decreases |o|
  {
    if k == |o| {
      assert o[..k] == o;
    } else {
      var p := o[..|o| - 1];
      assert p[..k] == o[..k];
      assert Elems(o[..k]) <= Elems(p);
      ReleaseInPrefix(p, k, d);
    }
  }

  /** The result depends on the graph alone: the order in which Python enumerates its sets does not matter. */
  lemma {:induction false} KahnOrderIsUnique<K(!new)>(g: map<K, set<K>>, leq: (K, K) -> bool, a: seq<K>, b: seq<K>)
    requires Closed(g) && TotalOrder(leq) && IsKahnOrder(g, leq, a) && IsKahnOrder(g, leq, b)
    ensures a == b
  {
    SamePlaced(g, leq, a, b);
    CommonPrefix(g, leq, a, b, |a|);
    assert a[..|a|] == a && b[..|a|] == b;
  }

  lemma SamePlaced<K(!new)>(g: map<K, set<K>>, leq: (K, K) -> bool, a: seq<K>, b: seq<K>)
    requires Closed(g) && IsKahnOrder(g, leq, a) && IsKahnOrder(g, leq, b)
    ensures Elems(a) == Elems(b) && |a| == |b|
  {
    assert NoDup(a) && NoDup(b);
    hide *;
    PlacedInBoth(g, leq, a, b);
    PlacedInBoth(g, leq, b, a);
    NoDupCardinality(a);
    NoDupCardinality(b);
  }

  lemma PlacedInBoth<K(!new)>(g: map<K, set<K>>, leq: (K, K) -> bool, a: seq<K>, b: seq<K>)
    requires Closed(g) && IsKahnOrder(g, leq, a) && IsKahnOrder(g, leq, b)
    ensures Elems(a) <= Elems(b)
  {
    assert DependenciesFirst(g, a);
    forall n | n in Elems(a) ensures n in Elems(b) {
      hide IsKahnOrder, Closed, ReachesCycle;
      assert n in g;
      KahnOrderIsExact(g, leq, a);
      KahnOrderIsExact(g, leq, b);
    }
  }

  lemma {:induction false} CommonPrefix<K(!new)>(g: map<K, set<K>>, leq: (K, K) -> bool, a: seq<K>, b: seq<K>, k: nat)
    requires TotalOrder(leq) && IsKahnOrder(g, leq, a) && IsKahnOrder(g, leq, b)
    requires Elems(a) == Elems(b) && |a| == |b| && k <= |a|
    ensures a[..k] == b[..k]
  {
    if k > 0 {
      var i := k - 1;
      CommonPrefix(g, leq, a, b, i);
      assert NoDup(a) && NoDup(b);
      if a[i] != b[i] {
        hide TotalOrder, DependenciesFirst, AllReleased;
        var j := FindLater(a, b, i);
        var l := FindLater(b, a, i);
        assert QueuedBefore(g, leq, a, a[i], a[j]) && QueuedBefore(g, leq, b, b[i], b[l]);
        ReleaseInPrefix(a, i, g[a[i]]);
        ReleaseInPrefix(a, i, g[b[i]]);
        ReleaseInPrefix(b, i, g[a[i]]);
        ReleaseInPrefix(b, i, g[b[i]]);
      }
    }
  }

  lemma FindLater<K>(a: seq<K>, b: seq<K>, i: nat) returns (j: nat)
    requires i < |a| == |b| && a[..i] == b[..i] && NoDup(b) && Elems(a) == Elems(b) && a[i] != b[i]
    ensures i < j < |a| && a[j] == b[i]
  {
    assert b[i] in Elems(b);
    forall m | 0 <= m < i ensures a[m] == b[m] {
      assert a[..i][m] == b[..i][m];
    }
    j :| 0 <= j < |a| && a[j] == b[i];
  }
}
