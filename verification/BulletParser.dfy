/** The bullet parser as it runs: nodes on the heap, and a stack of those still open. */
module BulletParser {
  import opened Ordering
  import opened BulletTree

  /** What a node holds at one moment. */
  datatype Cell<N> = Cell(level: nat, text: string, children: seq<N>, continuations: seq<string>)

  predicate Holds<N>(c: Cell<N>, e: Entry) {
    c.level == e.level && c.text == e.text && c.continuations == e.continuations
  }

  /** With these contents these roots are this forest, built of these nodes, which are listed in preorder. */
  ghost predicate Denotes<N>(heap: map<N, Cell<N>>, roots: seq<N>, f: Forest, order: seq<N>)
    decreases f, 1
  {
    |order| == Size(f) && if f == Empty then roots == [] else LastDenotes(heap, roots, f, order, Size(f.front))
  }

  /** The node at position k is the last root; the forest in front of it lies before, its children's after. */
  ghost predicate LastDenotes<N>(heap: map<N, Cell<N>>, roots: seq<N>, f: Forest, order: seq<N>, k: nat)
    requires f != Empty && k < |order|
    decreases f, 0
  {
    && order[k] in heap && Holds(heap[order[k]], f.entry)
    && roots != [] && roots[|roots| - 1] == order[k]
    && Denotes(heap, roots[..|roots| - 1], f.front, order[..k])
    && Denotes(heap, heap[order[k]].children, f.children, order[k + 1..])
  }

  lemma {:induction false} StillDenotes<N>(heap: map<N, Cell<N>>, heap': map<N, Cell<N>>, roots: seq<N>, f: Forest,
                                           order: seq<N>)
    requires Denotes(heap, roots, f, order)
    requires forall o :: o in order && o in heap ==> o in heap' && heap'[o] == heap[o]
    ensures Denotes(heap', roots, f, order)
    decreases f
  {
    if f != Empty {
      var i := Size(f.front);
      assert order[i] in order && forall o :: o in order[..i] || o in order[i + 1..] ==> o in order;
      StillDenotes(heap, heap', roots[..|roots| - 1], f.front, order[..i]);
      StillDenotes(heap, heap', heap[order[i]].children, f.children, order[i + 1..]);
    }
  }

  lemma LastOf<N>(heap: map<N, Cell<N>>, roots: seq<N>, f: Forest, order: seq<N>)
    requires Denotes(heap, roots, f, order) && f != Empty
    ensures var i := Size(f.front);
      && |order| == i + 1 + Size(f.children) && order[i] in heap && Holds(heap[order[i]], f.entry)
      && roots != [] && roots[|roots| - 1] == order[i]
      && Denotes(heap, roots[..|roots| - 1], f.front, order[..i])
      && Denotes(heap, heap[order[i]].children, f.children, order[i + 1..])
  {
  }

  /** From the last root down, always to the last child. */
  function Spine<N>(f: Forest, order: seq<N>): (s: seq<N>)
    requires |order| == Size(f)
    ensures |s| == |Levels(f)|
    decreases f, 1
  {
    if f == Empty then [] else SpineFrom(f, order, Size(f.front))
  }

  function SpineFrom<N>(f: Forest, order: seq<N>, k: nat): (s: seq<N>)
    requires f != Empty && k < |order| && |order| - k - 1 == Size(f.children)
    ensures |s| == |Levels(f)|
    decreases f, 0
  {
    [order[k]] + Spine(f.children, order[k + 1..])
  }

  function Levels(f: Forest): seq<nat> {
    match f
    case Empty => []
    case Grow(_, entry, children) => [entry.level] + Levels(children)
  }

  /** Exactly the first k spine nodes are shallower than `level`, as far as the k-th. */
  ghost predicate Splits(f: Forest, k: nat, level: nat) {
    && k <= |Levels(f)|
    && (forall m :: 0 <= m < k ==> Levels(f)[m] < level)
    && (k < |Levels(f)| ==> Levels(f)[k] >= level)
  }

  lemma SpineStep<N>(f: Forest, order: seq<N>)
    requires f != Empty && |order| == Size(f)
    ensures var i := Size(f.front);
      i < |order| && Size(f.children) == |order| - i - 1
      && Spine(f, order) == [order[i]] + Spine(f.children, order[i + 1..])
  {
    hide Levels;
  }

  lemma {:induction false} SpineWithin<N>(f: Forest, order: seq<N>, k: nat)
    requires |order| == Size(f) && k < |Spine(f, order)|
    ensures Spine(f, order)[k] in order
    decreases f
  {
    var i := Size(f.front);
    var rest := order[i + 1..];
    SpineStep(f, order);
    if k > 0 {
      SpineWithin(f.children, rest, k - 1);
      assert Spine(f.children, rest)[k - 1] in rest;
    }
  }

  lemma SpineBelow<N>(f: Forest, order: seq<N>, k: nat)
    requires f != Empty && |order| == Size(f) && NoDup(order) && 0 < k <= |Levels(f)|
    ensures var i, rest, top := Size(f.front), order[Size(f.front) + 1..], Spine(f, order)[k - 1];
      && |rest| == Size(f.children) && NoDup(rest) && order[i] !in rest && top !in order[..i]
      && (forall o :: o in rest || o in order[..i] ==> o in order)
      && if k == 1 then top == order[i]
         else k - 1 <= |Levels(f.children)| && top == Spine(f.children, rest)[k - 2] && top in rest
  {
    SpineStep(f, order);
    hide Spine;
    var i, rest, top := Size(f.front), order[Size(f.front) + 1..], Spine(f, order)[k - 1];
    assert forall m :: 0 <= m < |rest| ==> rest[m] == order[m + i + 1];
    if k > 1 {
      SpineWithin(f.children, rest, k - 2);
      assert top == Spine(f.children, rest)[k - 2];
    }
    forall m | 0 <= m < i ensures order[..i][m] != top {
      if k > 1 {
        var x :| 0 <= x < |rest| && rest[x] == top;
        assert order[x + i + 1] == top;
      }
    }
  }

  lemma SplitsBelow(f: Forest, k: nat, level: nat)
    requires Splits(f, k, level)
    ensures k <= |Levels(f)| && (f == Empty ==> k == 0)
    ensures f != Empty && k == 0 ==> f.entry.level >= level
    ensures f != Empty && k > 0 ==> f.entry.level < level && Splits(f.children, k - 1, level)
  {
    if f != Empty {
      assert Levels(f)[0] == f.entry.level;
      assert forall m :: 0 <= m < |Levels(f.children)| ==> Levels(f.children)[m] == Levels(f)[m + 1];
    }
  }

  /** The contents after a new node n has been hung under a node. */
  function Hung<N>(heap: map<N, Cell<N>>, top: N, n: N): map<N, Cell<N>>
    requires top in heap
  {
    heap[top := heap[top].(children := heap[top].children + [n])]
  }

  lemma LastTreeChanged<N>(heap: map<N, Cell<N>>, roots: seq<N>, f: Forest, i: nat, order: seq<N>)
    requires f != Empty && i < |order| && roots != [] && roots[|roots| - 1] == order[i]
    requires order[i] in heap && Holds(heap[order[i]], f.entry)
    requires Denotes(heap, roots[..|roots| - 1], f.front, order[..i])
    requires Denotes(heap, heap[order[i]].children, f.children, order[i + 1..])
    ensures Denotes(heap, roots, f, order)
  {
  }

  /** A new node goes beside the roots when none of the spine is shallower ... */
  lemma AttachedBeside<N>(heap: map<N, Cell<N>>, roots: seq<N>, f: Forest, order: seq<N>, e: Entry, n: N)
    requires Denotes(heap, roots, f, order) && n in heap && heap[n] == Cell(e.level, e.text, [], e.continuations)
    requires Splits(f, 0, e.level)
    ensures Denotes(heap, roots + [n], Attach(f, e), order + [n])
  {
  }

  /** ... and otherwise under the deepest spine node that is. */
  lemma {:induction false} AttachedUnder<N>(heap: map<N, Cell<N>>, roots: seq<N>, f: Forest, order: seq<N>, e: Entry,
                                            k: nat, n: N)
    requires Denotes(heap, roots, f, order) && NoDup(order) && n !in order
    requires n in heap && heap[n] == Cell(e.level, e.text, [], e.continuations)
    requires k > 0 && Splits(f, k, e.level) && Spine(f, order)[k - 1] in heap
    ensures Denotes(Hung(heap, Spine(f, order)[k - 1], n), roots, Attach(f, e), order + [n])
    decreases f
  {
    hide Denotes, NoDup, Spine, Levels, Splits, Attach;
    SplitsBelow(f, k, e.level);
    LastOf(heap, roots, f, order);
    SpineBelow(f, order, k);
    AttachBelow(f, e);
    var i, top := Size(f.front), Spine(f, order)[k - 1];
    var rest, heap' := order[i + 1..], Hung(heap, top, n);
    StillDenotes(heap, heap', roots[..|roots| - 1], f.front, order[..i]);
    if k == 1 {
      assert top == order[i] && top !in rest;
      StillDenotes(heap, heap', heap[top].children, f.children, rest);
      AttachedBeside(heap', heap[top].children, f.children, rest, e, n);
    } else {
      AttachedUnder(heap, heap[order[i]].children, f.children, rest, e, k - 1, n);
    }
    assert (order + [n])[..i] == order[..i] && (order + [n])[i + 1..] == rest + [n];
    LastTreeChanged(heap', roots, Attach(f, e), i, order + [n]);
  }

  function Told<N>(heap: map<N, Cell<N>>, top: N, text: string): map<N, Cell<N>>
    requires top in heap
  {
    heap[top := heap[top].(continuations := heap[top].continuations + [text])]
  }

  /** More text goes to the end of the spine, which stays the same. */
  lemma {:induction false} SpineContinued<N>(f: Forest, order: seq<N>, text: string)
    requires f != Empty && |order| == Size(f)
    ensures Size(Continue(f, text)) == Size(f) && Spine(Continue(f, text), order) == Spine(f, order)
      && Spine(f, order) != []
    decreases f
  {
    var rest := order[Size(f.front) + 1..];
    if f.children != Empty {
      SpineContinued(f.children, rest, text);
    }
    SpineStep(f, order);
    SpineStep(Continue(f, text), order);
  }

  lemma {:induction false} ContinuedAtEnd<N>(heap: map<N, Cell<N>>, roots: seq<N>, f: Forest, order: seq<N>, top: N,
                                             text: string)
    requires Denotes(heap, roots, f, order) && NoDup(order) && f != Empty
    requires |order| == Size(f) && Spine(f, order) != [] && top == Spine(f, order)[|Spine(f, order)| - 1]
    ensures top in heap && Denotes(Told(heap, top, text), roots, Continue(f, text), order)
    decreases f
  {
    hide Denotes, NoDup, Spine, Continue;
    LastOf(heap, roots, f, order);
    SpineStep(f, order);
    var i := Size(f.front);
    var rest := order[i + 1..];
    if f.children == Empty {
      LeafSpine(rest);
      ContinuedHere(heap, roots, f, order, i, text);
    } else {
      SpineContinued(f.children, rest, text);
      Apart(order, i);
      ContinuedAtEnd(heap, heap[order[i]].children, f.children, rest, top, text);
      SpineWithin(f.children, rest, |Spine(f.children, rest)| - 1);
      ContinuedBelow(heap, roots, f, order, i, top, text);
    }
  }

  lemma LeafSpine<N>(order: seq<N>)
    requires |order| == 0
    ensures Spine(Empty, order) == []
  {
  }

  lemma ContinuedBelow<N>(heap: map<N, Cell<N>>, roots: seq<N>, f: Forest, order: seq<N>, i: nat, top: N, text: string)
    requires Denotes(heap, roots, f, order) && NoDup(order) && f != Empty && f.children != Empty
    requires i == Size(f.front) < |order| && order[i] in heap && top in heap && top in order[i + 1..]
    requires Denotes(Told(heap, top, text), heap[order[i]].children, Continue(f.children, text), order[i + 1..])
    ensures Denotes(Told(heap, top, text), roots, Continue(f, text), order)
  {
    var heap', g := Told(heap, top, text), Continue(f, text);
    assert g == Grow(f.front, f.entry, Continue(f.children, text));
    hide Denotes, NoDup, Continue;
    LastOf(heap, roots, f, order);
    Apart(order, i);
    StillDenotes(heap, heap', roots[..|roots| - 1], f.front, order[..i]);
    LastTreeChanged(heap', roots, g, i, order);
  }

  lemma Apart<N>(order: seq<N>, i: nat)
    requires NoDup(order) && i < |order|
    ensures forall o :: o in order[i + 1..] ==> o !in order[..i] && o != order[i]
    ensures order[i] !in order[..i] && NoDup(order[i + 1..])
  {
  }

  lemma LeafDenotes<N>(heap: map<N, Cell<N>>)
    ensures Denotes(heap, [], Empty, [])
  {
  }

  lemma ContinuedHere<N>(heap: map<N, Cell<N>>, roots: seq<N>, f: Forest, order: seq<N>, i: nat, text: string)
    requires Denotes(heap, roots, f, order) && NoDup(order) && f != Empty && f.children == Empty
    requires i == Size(f.front) < |order| && order[i] in heap
    ensures Denotes(Told(heap, order[i], text), roots, Continue(f, text), order)
  {
    var heap' := Told(heap, order[i], text);
    LastOf(heap, roots, f, order);
    hide Denotes;
    Apart(order, i);
    StillDenotes(heap, heap', roots[..|roots| - 1], f.front, order[..i]);
    LeafDenotes(heap');
    LastTreeChanged(heap', roots, Continue(f, text), i, order);
  }

  // ---- the parser ----

  class BulletNode {
    const level: nat
    const text: string
    var children: seq<BulletNode>
    var continuations: seq<string>

    constructor (level: nat, text: string)
      ensures View() == Cell(level, text, [], [])
    {
      this.level, this.text, children, continuations := level, text, [], [];
    }

    ghost function View(): Cell<BulletNode>
      reads this
    {
      Cell(level, text, children, continuations)
    }
  }

  /** The nodes hold what is written down of them. */
  ghost predicate Agrees(heap: map<BulletNode, Cell<BulletNode>>)
    reads heap.Keys
  {
    forall o :: o in heap ==> o.View() == heap[o]
  }

  /** Plain lines that came before any bullet: leaves of level one. */
  ghost predicate AreLoose<N>(heap: map<N, Cell<N>>, roots: seq<N>, texts: seq<string>) {
    |roots| == |texts| && forall i :: 0 <= i < |roots| ==>
      roots[i] in heap && heap[roots[i]] == Cell(1, texts[i], [], [])
  }

  /** The nodes under these roots are what was parsed: the loose ones first, then the forest. */
  ghost predicate Represents<N>(heap: map<N, Cell<N>>, roots: seq<N>, p: Parsed, order: seq<N>) {
    && |p.loose| <= |roots| && NoDup(roots[..|p.loose|] + order)
    && (forall o :: o in roots[..|p.loose|] + order ==> o in heap)
    && AreLoose(heap, roots[..|p.loose|], p.loose)
    && Denotes(heap, roots[|p.loose|..], p.forest, order)
  }

  lemma NoDupNext<N>(s: seq<N>, n: N)
    requires NoDup(s) && n !in s
    ensures NoDup(s + [n])
  {
  }

  lemma Parts<N>(heap: map<N, Cell<N>>, roots: seq<N>, p: Parsed, order: seq<N>)
    requires Represents(heap, roots, p, order)
    ensures NoDup(order) && (forall o :: o in order ==> o in heap) && |order| == Size(p.forest)
  {
    var loose := roots[..|p.loose|];
    forall i, j | 0 <= i < j < |order| ensures order[i] != order[j] {
      assert order[i] == (loose + order)[|loose| + i] && order[j] == (loose + order)[|loose| + j];
    }
  }

  lemma Grown<N>(heap: map<N, Cell<N>>, heap': map<N, Cell<N>>, roots: seq<N>, more: seq<N>, p: Parsed, f: Forest,
                 order: seq<N>)
    requires |p.loose| <= |roots| && AreLoose(heap, roots[..|p.loose|], p.loose)
    requires forall o :: o in roots[..|p.loose|] ==> o in heap' && heap'[o] == heap[o]
    requires NoDup(roots[..|p.loose|] + order) && forall o :: o in order ==> o in heap'
    requires Denotes(heap', roots[|p.loose|..] + more, f, order)
    ensures Represents(heap', roots + more, p.(forest := f), order)
  {
    hide Denotes, NoDup;
    var l := |p.loose|;
    assert (roots + more)[..l] == roots[..l] && (roots + more)[l..] == roots[l..] + more;
    forall i | 0 <= i < l ensures roots[i] in heap' && heap'[roots[i]] == Cell(1, p.loose[i], [], []) {
      assert roots[i] == roots[..l][i];
    }
  }

  lemma Opened<N>(heap: map<N, Cell<N>>, roots: seq<N>, p: Parsed, order: seq<N>)
    requires Represents(heap, roots, p, order)
    ensures |p.loose| <= |roots| && AreLoose(heap, roots[..|p.loose|], p.loose)
    ensures forall o :: o in roots[..|p.loose|] ==> o in heap
    ensures forall o :: o in order ==> o in heap && o !in roots[..|p.loose|]
    ensures NoDup(order) && NoDup(roots[..|p.loose|] + order)
    ensures Denotes(heap, roots[|p.loose|..], p.forest, order) && |order| == Size(p.forest)
  {
    Parts(heap, roots, p, order);
    LooseApart(roots[..|p.loose|], order);
  }

  lemma BulletBeside<N>(heap: map<N, Cell<N>>, roots: seq<N>, p: Parsed, order: seq<N>, e: Entry, n: N)
    requires Represents(heap, roots, p, order) && n !in heap && Splits(p.forest, 0, e.level)
    ensures Represents(heap[n := Cell(e.level, e.text, [], e.continuations)], roots + [n], 
                       p.(forest := Attach(p.forest, e)),
                       order + [n])
  {
    hide *;
    Opened(heap, roots, p, order);
    var loose, rest := roots[..|p.loose|], roots[|p.loose|..];
    var heap' := heap[n := Cell(e.level, e.text, [], e.continuations)];
    NoDupNext(loose + order, n);
    assert loose + (order + [n]) == loose + order + [n];
    StillDenotes(heap, heap', rest, p.forest, order);
    AttachedBeside(heap', rest, p.forest, order, e, n);
    Grown(heap, heap', roots, [n], p, Attach(p.forest, e), order + [n]);
  }

  lemma BulletUnder<N>(heap: map<N, Cell<N>>, roots: seq<N>, p: Parsed, order: seq<N>, e: Entry, k: nat, n: N)
    requires Represents(heap, roots, p, order) && n !in heap && k > 0 && Splits(p.forest, k, e.level)
    ensures |order| == Size(p.forest) && Spine(p.forest, order)[k - 1] in heap
    ensures var heap' := heap[n := Cell(e.level, e.text, [], e.continuations)];
      Represents(Hung(heap', Spine(p.forest, order)[k - 1], n), roots, p.(forest := Attach(p.forest, e)), order + [n])
  {
    hide Represents, Denotes, NoDup, Attach, Spine, Levels, Splits, AreLoose;
    Opened(heap, roots, p, order);
    SplitsBelow(p.forest, k, e.level);
    var loose, rest := roots[..|p.loose|], roots[|p.loose|..];
    var heap' := heap[n := Cell(e.level, e.text, [], e.continuations)];
    var top := Spine(p.forest, order)[k - 1];
    SpineWithin(p.forest, order, k - 1);
    NoDupNext(loose + order, n);
    assert loose + (order + [n]) == loose + order + [n];
    StillDenotes(heap, heap', rest, p.forest, order);
    AttachedUnder(heap', rest, p.forest, order, e, k, n);
    assert roots + [] == roots && rest + [] == rest;
    Grown(heap, Hung(heap', top, n), roots, [], p, Attach(p.forest, e), order + [n]);
  }

  lemma LooseApart<N>(loose: seq<N>, order: seq<N>)
    requires NoDup(loose + order)
    ensures forall i :: 0 <= i < |loose| ==> loose[i] !in order
  {
    forall i, j | 0 <= i < |loose| && 0 <= j < |order| ensures loose[i] != order[j] {
      assert (loose + order)[i] == loose[i] && (loose + order)[|loose| + j] == order[j];
    }
  }

  lemma ProseUnder<N>(heap: map<N, Cell<N>>, roots: seq<N>, p: Parsed, order: seq<N>, text: string)
    requires Represents(heap, roots, p, order) && p.forest != Empty
    ensures |order| == Size(p.forest) && Spine(p.forest, order) != []
    ensures var top := Spine(p.forest, order)[|Spine(p.forest, order)| - 1];
      top in heap && Represents(Told(heap, top, text), roots, p.(forest := Continue(p.forest, text)), order)
    ensures |order| == Size(Continue(p.forest, text))
      && Spine(Continue(p.forest, text), order) == Spine(p.forest, order)
  {
    hide Represents, Denotes, NoDup, Continue, Spine, AreLoose;
    Opened(heap, roots, p, order);
    var rest := roots[|p.loose|..];
    SpineContinued(p.forest, order, text);
    var top := Spine(p.forest, order)[|Spine(p.forest, order)| - 1];
    ContinuedAtEnd(heap, rest, p.forest, order, top, text);
    SpineWithin(p.forest, order, |Spine(p.forest, order)| - 1);
    assert roots + [] == roots && rest + [] == rest;
    Grown(heap, Told(heap, top, text), roots, [], p, Continue(p.forest, text), order);
  }

  lemma ProseLoose<N>(heap: map<N, Cell<N>>, roots: seq<N>, p: Parsed, order: seq<N>, text: string, n: N)
    requires Represents(heap, roots, p, order) && p.forest == Empty && n !in heap
    ensures Represents(heap[n := Cell(1, text, [], [])], roots + [n], p.(loose := p.loose + [text]), order)
  {
    assert roots[..|p.loose|] + order == roots;
    NoDupNext(roots, n);
    assert (roots + [n])[..|p.loose| + 1] + order == roots + [n];
  }

  /** The spine nodes are the spine entries. */
  lemma {:induction false} SpineHolds<N>(heap: map<N, Cell<N>>, roots: seq<N>, f: Forest, order: seq<N>)
    requires Denotes(heap, roots, f, order)
    ensures forall m :: 0 <= m < |Levels(f)| ==>
      Spine(f, order)[m] in heap && heap[Spine(f, order)[m]].level == Levels(f)[m]
    decreases f
  {
    if f != Empty {
      var i := Size(f.front);
      SpineStep(f, order);
      SpineHolds(heap, heap[order[i]].children, f.children, order[i + 1..]);
      hide Spine;
      assert Levels(f) == [f.entry.level] + Levels(f.children);
    }
  }

  /** Levels strictly increase along the spine. */
  lemma {:induction false} SpineIncreases(f: Forest)
    requires Canonical(f)
    ensures forall a, b :: 0 <= a < b < |Levels(f)| ==> Levels(f)[a] < Levels(f)[b]
  {
    if f != Empty {
      SpineIncreases(f.children);
      var s, t := Levels(f), Levels(f.children);
      assert s == [f.entry.level] + t && (t != [] ==> t[0] == f.children.entry.level);
      hide Levels;
      forall a, b | 0 <= a < b < |s| ensures s[a] < s[b] {
        assert s[b] == t[b - 1] && (a > 0 ==> s[a] == t[a - 1]);
      }
    }
  }

  /** After an entry was attached it ends the spine, and what it popped is gone. */
  lemma {:induction false} SpineAttached<N>(f: Forest, order: seq<N>, e: Entry, k: nat, n: N)
    requires |order| == Size(f) && Splits(f, k, e.level)
    ensures Size(Attach(f, e)) == |order| + 1 && Spine(Attach(f, e), order + [n]) == Spine(f, order)[..k] + [n]
    decreases f
  {
    hide Attach, Spine, Splits, Levels, Size;
    SplitsBelow(f, k, e.level);
    if k == 0 {
      AttachBeside(f, e);
      SpineLast(f, order, e, n);
    } else {
      SpineStep(f, order);
      AttachBelow(f, e);
      var i := Size(f.front);
      var rest := order[i + 1..];
      SpineAttached(f.children, rest, e, k - 1, n);
      SizeWithChildren(f, Attach(f.children, e));
      SpineStep(Attach(f, e), order + [n]);
      assert (order + [n])[i + 1..] == rest + [n] && (order + [n])[i] == order[i];
      HeadOfPrefix(order[i], Spine(f.children, rest), k);
    }
  }

  lemma SizeWithChildren(f: Forest, children: Forest)
    requires f != Empty
    ensures Size(Grow(f.front, f.entry, children)) == Size(f) - Size(f.children) + Size(children)
  {
  }

  lemma HeadOfPrefix<N>(head: N, tail: seq<N>, k: nat)
    requires 0 < k <= |tail| + 1
    ensures ([head] + tail)[..k] == [head] + tail[..k - 1]
  {
  }

  lemma SpineLast<N>(f: Forest, order: seq<N>, e: Entry, n: N)
    requires |order| == Size(f)
    ensures Size(Grow(f, e, Empty)) == |order| + 1 && Spine(Grow(f, e, Empty), order + [n]) == [n]
  {
  }

  lemma ParseNext(lines: seq<Line>, i: nat)
    requires i < |lines|
    ensures Parse(lines[..i + 1]) == Step(Parse(lines[..i]), lines[i])
  {
    assert lines[..i + 1][..i] == lines[..i];
  }

  /** With what was popped all too deep, and what is left shallower, the level has found its place. */
  lemma FoundPlace(f: Forest, k: nat, level: nat)
    requires Canonical(f) && k <= |Levels(f)| && forall m :: k <= m < |Levels(f)| ==> Levels(f)[m] >= level
    requires k > 0 ==> Levels(f)[k - 1] < level
    ensures Splits(f, k, level)
  {
    SpineIncreases(f);
  }

  lemma NoSpineNoTree(f: Forest)
    ensures Levels(f) == [] <==> f == Empty
  {
  }

  /** Pops what is not shallower than the new bullet. */
  method PopTo(stack: seq<BulletNode>, level: nat, ghost heap: map<BulletNode, Cell<BulletNode>>,
               ghost roots: seq<BulletNode>, ghost f: Forest, ghost order: seq<BulletNode>)
    returns (rest: seq<BulletNode>)
    requires Denotes(heap, roots, f, order) && Agrees(heap) && Canonical(f)
    requires |order| == Size(f) && stack == Spine(f, order)
    ensures |rest| <= |stack| && rest == stack[..|rest|] && Splits(f, |rest|, level)
  {
    hide Denotes, Spine, Levels, Splits, Canonical;
    SpineHolds(heap, roots, f, order);
    rest := stack;
    while rest != [] && rest[|rest| - 1].level >= level
      invariant |rest| <= |stack| && rest == stack[..|rest|]
      invariant forall m :: |rest| <= m < |Levels(f)| ==> Levels(f)[m] >= level
    {
      assert rest[|rest| - 1] == stack[|rest| - 1];
      rest := rest[..|rest| - 1];
    }
    if rest != [] {
      assert rest[|rest| - 1] == stack[|rest| - 1];
    }
    FoundPlace(f, |rest|, level);
  }

  /** What the parser has done with the lines so far. */
  ghost predicate Running(heap: map<BulletNode, Cell<BulletNode>>, roots: seq<BulletNode>, stack: seq<BulletNode>,
                          p: Parsed, order: seq<BulletNode>)
    reads heap.Keys
  {
    && Represents(heap, roots, p, order) && Agrees(heap)
    && |order| == Size(p.forest) && stack == Spine(p.forest, order)
  }

  method AddBullet(level: nat, text: string, roots: seq<BulletNode>, stack: seq<BulletNode>,
                   ghost heap: map<BulletNode, Cell<BulletNode>>, ghost p: Parsed, ghost order: seq<BulletNode>)
    returns (roots': seq<BulletNode>, stack': seq<BulletNode>, node: BulletNode,
             ghost heap': map<BulletNode, Cell<BulletNode>>)
    requires Running(heap, roots, stack, p, order) && Canonical(p.forest)
    modifies heap.Keys
    ensures Running(heap', roots', stack', Step(p, Bullet(level, text)), order + [node])
    ensures fresh(node) && heap'.Keys == heap.Keys + {node}
  {
    hide Represents, Denotes, Spine, Levels, Splits, Attach, Canonical;
    roots' := roots;
    node := new BulletNode(level, text);
    ghost var e := Entry(level, text, []);
    Opened(heap, roots, p, order);
    stack' := PopTo(stack, level, heap, roots[|p.loose|..], p.forest, order);
    SpineAttached(p.forest, order, e, |stack'|, node);
    if stack' != [] {
      var top := stack'[|stack'| - 1];
      BulletUnder(heap, roots, p, order, e, |stack'|, node);
      top.children := top.children + [node];
      heap' := Hung(heap[node := Cell(level, text, [], [])], top, node);
    } else {
      BulletBeside(heap, roots, p, order, e, node);
      roots' := roots + [node];
      heap' := heap[node := Cell(level, text, [], [])];
    }
    stack' := stack' + [node];
  }

  method AddProse(text: string, roots: seq<BulletNode>, stack: seq<BulletNode>,
                  ghost heap: map<BulletNode, Cell<BulletNode>>, ghost p: Parsed, ghost order: seq<BulletNode>)
    returns (roots': seq<BulletNode>, ghost heap': map<BulletNode, Cell<BulletNode>>)
    requires Running(heap, roots, stack, p, order)
    modifies heap.Keys
    ensures Running(heap', roots', stack, Step(p, Prose(text)), order)
    ensures heap.Keys <= heap'.Keys && fresh(heap'.Keys - heap.Keys)
  {
    hide Represents, Denotes, Spine, Levels, Continue;
    roots' := roots;
    NoSpineNoTree(p.forest);
    if stack != [] {
      var top := stack[|stack| - 1];
      ProseUnder(heap, roots, p, order, text);
      top.continuations := top.continuations + [text];
      heap' := Told(heap, top, text);
    } else {
      var node := new BulletNode(1, text);
      ProseLoose(heap, roots, p, order, text, node);
      roots' := roots + [node];
      heap' := heap[node := Cell(1, text, [], [])];
    }
  }

  method ParseBulletTree(lines: seq<Line>)
    returns (roots: seq<BulletNode>, ghost heap: map<BulletNode, Cell<BulletNode>>, ghost order: seq<BulletNode>)
    ensures Represents(heap, roots, Parse(lines), order) && Agrees(heap) && fresh(heap.Keys)
  {
    hide Represents, Spine, Step, Parse, Canonical, Agrees;
    roots, heap, order := [], map[], [];
    var stack: seq<BulletNode> := [];
    NothingParsed();
    assert lines[..0] == [];
    var i := 0;
    while i < |lines|
      invariant i <= |lines| && Running(heap, roots, stack, Parse(lines[..i]), order) && fresh(heap.Keys)
    {
      ghost var p := Parse(lines[..i]);
      ParseNext(lines, i);
      ParseIsCanonical(lines[..i]);
      hide Running;
      match lines[i] {
        case Skip =>
          SkipIsNothing(p);
        case Bullet(level, text) =>
          var node;
          roots, stack, node, heap := AddBullet(level, text, roots, stack, heap, p, order);
          order := order + [node];
        case Prose(text) =>
          roots, heap := AddProse(text, roots, stack, heap, p, order);
      }
      i := i + 1;
    }
    assert lines[..i] == lines;
  }

  lemma SkipIsNothing(p: Parsed)
    ensures Step(p, Skip) == p
  {
  }

  lemma NothingParsed()
    ensures Running(map[], [], [], Parse([]), [])
  {
  }
}
