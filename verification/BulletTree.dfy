/** The bullet-tree parser: star-levelled lines become a forest of nodes, kept on a stack while it grows. */
module BulletTree {

  /** A line once classified and cleaned: nothing of interest, a bullet with its stars counted, or plain text. */
  datatype Line = Skip | Bullet(level: nat, text: string) | Prose(text: string)

  datatype Entry = Entry(level: nat, text: string, continuations: seq<string>)

  /** A forest is nothing, or its last tree after the trees in front of it. */
  datatype Forest = Empty | Grow(front: Forest, entry: Entry, children: Forest)

  function Size(f: Forest): nat {
    match f
    case Empty => 0
    case Grow(front, _, children) => Size(front) + 1 + Size(children)
  }

  /** All entries, a node before its children. */
  function Preorder(f: Forest): (s: seq<Entry>)
    ensures |s| == Size(f)
  {
    match f
    case Empty => []
    case Grow(front, entry, children) => Preorder(front) + [entry] + Preorder(children)
  }

  /** A new entry goes under the last tree if it is deeper than its root, and beside it otherwise. */
  function Attach(f: Forest, e: Entry): Forest {
    match f
    case Empty => Grow(f, e, Empty)
    case Grow(front, entry, children) =>
      if entry.level < e.level then Grow(front, entry, Attach(children, e)) else Grow(f, e, Empty)
  }

  /** More text for the last entry. */
  function Continue(f: Forest, text: string): Forest
    requires f != Empty
  {
    if f.children == Empty then f.(entry := f.entry.(continuations := f.entry.continuations + [text]))
    else f.(children := Continue(f.children, text))
  }

  /** Plain lines ahead of every bullet, and the forest of the bullets. */
  datatype Parsed = Parsed(loose: seq<string>, forest: Forest)

  function Step(p: Parsed, line: Line): Parsed {
    match line
    case Skip => p
    case Bullet(level, text) => p.(forest := Attach(p.forest, Entry(level, text, [])))
    case Prose(text) =>
      if p.forest == Empty then p.(loose := p.loose + [text]) else p.(forest := Continue(p.forest, text))
  }

  function ParseFrom(p: Parsed, lines: seq<Line>): Parsed {
    if lines == [] then p else Step(ParseFrom(p, lines[..|lines| - 1]), lines[|lines| - 1])
  }

  function Parse(lines: seq<Line>): Parsed {
    ParseFrom(Parsed([], Empty), lines)
  }

  // ---- nothing is lost, added or moved ----

  function Proses(texts: seq<string>): seq<Line> {
    seq(|texts|, i requires 0 <= i < |texts| => Prose(texts[i]))
  }

  function PrintEntries(entries: seq<Entry>): seq<Line> {
    if entries == [] then []
    else
      var n := |entries| - 1;
      PrintEntries(entries[..n]) + [Bullet(entries[n].level, entries[n].text)] + Proses(entries[n].continuations)
  }

  function Print(p: Parsed): seq<Line> {
    Proses(p.loose) + PrintEntries(Preorder(p.forest))
  }

  function Content(lines: seq<Line>): seq<Line> {
    if lines == [] then []
    else
      var n := |lines| - 1;
      if lines[n] == Skip then Content(lines[..n]) else Content(lines[..n]) + [lines[n]]
  }

  lemma AttachBeside(f: Forest, e: Entry)
    requires f == Empty || f.entry.level >= e.level
    ensures Attach(f, e) == Grow(f, e, Empty)
  {
  }

  lemma AttachBelow(f: Forest, e: Entry)
    requires f != Empty && f.entry.level < e.level
    ensures Attach(f, e) == Grow(f.front, f.entry, Attach(f.children, e))
  {
  }

  lemma {:induction false} AttachIsLast(f: Forest, e: Entry)
    ensures Preorder(Attach(f, e)) == Preorder(f) + [e]
  {
    match f
    case Empty =>
    case Grow(front, entry, children) => AttachIsLast(children, e);
  }

  lemma {:induction false} ContinueIsLast(f: Forest, text: string)
    requires f != Empty
    ensures var s, n := Preorder(f), Size(f) - 1;
      Preorder(Continue(f, text)) == s[..n] + [s[n].(continuations := s[n].continuations + [text])]
  {
    if f.children != Empty {
      ContinueIsLast(f.children, text);
    }
  }

  lemma PrintEntriesAppend(entries: seq<Entry>, e: Entry)
    ensures PrintEntries(entries + [e]) == PrintEntries(entries) + [Bullet(e.level, e.text)] + Proses(e.continuations)
  {
  }

  lemma ToldLast(front: seq<Entry>, e: Entry, text: string)
    ensures PrintEntries(front + [e.(continuations := e.continuations + [text])])
         == PrintEntries(front + [e]) + [Prose(text)]
  {
  }

  lemma ProsesAppend(texts: seq<string>, text: string)
    ensures Proses(texts + [text]) == Proses(texts) + [Prose(text)]
  {
  }

  lemma StepKeepsContent(p: Parsed, line: Line)
    ensures Print(Step(p, line)) == Print(p) + if line == Skip then [] else [line]
  {
    var s := Preorder(p.forest);
    hide PrintEntries, Preorder, Attach, Continue, Proses;
    match line
    case Skip =>
    case Bullet(level, text) =>
      AttachIsLast(p.forest, Entry(level, text, []));
      PrintEntriesAppend(s, Entry(level, text, []));
      NoProses();
    case Prose(text) =>
      if p.forest == Empty {
        ProsesAppend(p.loose, text);
        NothingPrinted();
      } else {
        ContinueIsLast(p.forest, text);
        var n := |s| - 1;
        ToldLast(s[..n], s[n], text);
        assert s[..n] + [s[n]] == s;
      }
  }

  lemma NoProses()
    ensures Proses([]) == []
  {
  }

  /** Printing what was parsed gives every line of content back, in the order it came. */
  lemma {:induction false} ParseKeepsContent(lines: seq<Line>)
    ensures Print(Parse(lines)) == Content(lines)
  {
    hide Print, Step;
    if lines == [] {
      assert Print(Parsed([], Empty)) == [] by { NothingPrinted(); }
    } else {
      var n := |lines| - 1;
      ParseKeepsContent(lines[..n]);
      StepKeepsContent(Parse(lines[..n]), lines[n]);
    }
  }

  lemma NothingPrinted()
    ensures Print(Parsed([], Empty)) == [] && PrintEntries(Preorder(Empty)) == []
  {
  }

  // ---- the shape of the forest ----

  /** Children are deeper than their parent, and no tree is deeper than the one before it. */
  predicate Canonical(f: Forest) {
    match f
    case Empty => true
    case Grow(front, entry, children) =>
      && Canonical(front) && Canonical(children)
      && (front != Empty ==> front.entry.level >= entry.level)
      && (children != Empty ==> children.entry.level > entry.level)
  }

  lemma {:induction false} AttachIsCanonical(f: Forest, e: Entry)
    requires Canonical(f)
    ensures Canonical(Attach(f, e))
  {
    match f
    case Empty =>
    case Grow(front, entry, children) => AttachIsCanonical(children, e);
  }

  lemma {:induction false} ContinueIsCanonical(f: Forest, text: string)
    requires f != Empty && Canonical(f)
    ensures Canonical(Continue(f, text)) && Continue(f, text).entry.level == f.entry.level
  {
    if f.children != Empty {
      ContinueIsCanonical(f.children, text);
    }
  }

  lemma {:induction false} ParseIsCanonical(lines: seq<Line>)
    ensures Canonical(Parse(lines).forest)
  {
    if lines != [] {
      var n := |lines| - 1;
      ParseIsCanonical(lines[..n]);
      var f := Parse(lines[..n]).forest;
      match lines[n]
      case Skip =>
      case Bullet(level, text) => AttachIsCanonical(f, Entry(level, text, []));
      case Prose(text) => if f != Empty { ContinueIsCanonical(f, text); }
    }
  }

  /** In a canonical forest the last root is the shallowest entry. */
  lemma {:induction false} LastRootIsShallowest(f: Forest)
    requires Canonical(f) && f != Empty
    ensures forall e :: e in Preorder(f) ==> e.level >= f.entry.level
  {
    if f.front != Empty {
      LastRootIsShallowest(f.front);
    }
    if f.children != Empty {
      LastRootIsShallowest(f.children);
    }
  }

  // ---- parents ----

  /** The last position whose level is below the given one, or -1. */
  function Nearest(s: seq<Entry>, level: nat): (i: int)
    ensures -1 <= i < |s|
    ensures i >= 0 ==> s[i].level < level
    ensures forall k :: i < k < |s| ==> s[k].level >= level
  {
    if s == [] then -1
    else if s[|s| - 1].level < level then |s| - 1
    else Nearest(s[..|s| - 1], level)
  }

  lemma NearestIsUnique(s: seq<Entry>, level: nat, i: int)
    requires -1 <= i < |s| && (i >= 0 ==> s[i].level < level) && forall k :: i < k < |s| ==> s[k].level >= level
    ensures Nearest(s, level) == i
  {
  }

  /** The parent of each node, by preorder position, when the forest starts at `base` under `parent`. */
  function Parents(f: Forest, base: nat, parent: int): (s: seq<int>)
    ensures |s| == Size(f)
  {
    match f
    case Empty => []
    case Grow(front, entry, children) =>
      var root := base + Size(front);
      Parents(front, base, parent) + [parent] + Parents(children, root + 1, root)
  }

  lemma NearestToLastRoot(before: seq<Entry>, f: Forest, parent: int)
    requires Canonical(f) && parent == |before| - 1 && f != Empty
      && (parent >= 0 ==> f.entry.level > before[parent].level)
    ensures Nearest(before + Preorder(f.front), f.entry.level) == parent
  {
    if f.front != Empty {
      LastRootIsShallowest(f.front);
    }
    var s := before + Preorder(f.front);
    forall i | parent < i < |s| ensures s[i].level >= f.entry.level {
      assert s[i] in Preorder(f.front);
    }
    NearestIsUnique(s, f.entry.level, parent);
  }

  /** For each entry the nearest one before it with a lower level. */
  function NearestAll(before: seq<Entry>, s: seq<Entry>): seq<int> {
    if s == [] then []
    else
      var n := |s| - 1;
      NearestAll(before, s[..n]) + [Nearest(before + s[..n], s[n].level)]
  }

  lemma NearestAllNext(before: seq<Entry>, s: seq<Entry>, e: Entry)
    ensures NearestAll(before, s + [e]) == NearestAll(before, s) + [Nearest(before + s, e.level)]
  {
  }

  lemma NearestAllNone(before: seq<Entry>)
    ensures NearestAll(before, []) == []
  {
  }

  lemma {:induction false} NearestAllConcat(before: seq<Entry>, a: seq<Entry>, b: seq<Entry>)
    ensures NearestAll(before, a + b) == NearestAll(before, a) + NearestAll(before + a, b)
    decreases |b|
  {
    hide *;
    if b == [] {
      assert a + b == a;
      NearestAllNone(before + a);
    } else {
      var front, e := b[..|b| - 1], b[|b| - 1];
      NearestAllConcat(before, a, front);
      NearestAllNext(before, a + front, e);
      NearestAllNext(before + a, front, e);
      assert front + [e] == b && a + b == a + front + [e] && before + (a + front) == before + a + front;
    }
  }

  /** What canonical shape, preorder and parents say of a forest with a last tree. */
  lemma LastTree(f: Forest, base: nat, parent: int)
    requires f != Empty && Canonical(f)
    ensures Canonical(f.front) && Canonical(f.children)
    ensures f.front != Empty ==> f.front.entry.level >= f.entry.level
    ensures f.children != Empty ==> f.children.entry.level > f.entry.level
    ensures Preorder(f) == Preorder(f.front) + [f.entry] + Preorder(f.children)
    ensures var root := base + |Preorder(f.front)|;
      Parents(f, base, parent) == Parents(f.front, base, parent) + [parent] + Parents(f.children, root + 1, root)
  {
  }

  lemma NoTree(base: nat, parent: int)
    ensures Preorder(Empty) == [] && Parents(Empty, base, parent) == []
  {
  }

  lemma {:induction false} ParentsAreNearest(before: seq<Entry>, f: Forest, parent: int)
    requires Canonical(f) && parent == |before| - 1
    requires parent >= 0 && f != Empty ==> f.entry.level > before[parent].level
    ensures Parents(f, |before|, parent) == NearestAll(before, Preorder(f))
    decreases f
  {
    hide *;
    if f == Empty {
      NoTree(|before|, parent);
      NearestAllNone(before);
    } else {
      LastTree(f, |before|, parent);
      var a := Preorder(f.front);
      var longer := before + (a + [f.entry]);
      NearestToLastRoot(before, f, parent);
      ParentsAreNearest(before, f.front, parent);
      ParentsAreNearest(longer, f.children, |longer| - 1);
      NearestAllNext(before, a, f.entry);
      NearestAllConcat(before, a + [f.entry], Preorder(f.children));
    }
  }

  /** Every bullet hangs under the nearest earlier bullet with fewer stars, and is a root when there is none. */
  lemma ParseFindsNearest(lines: seq<Line>)
    ensures var f := Parse(lines).forest; Parents(f, 0, -1) == NearestAll([], Preorder(f))
  {
    ParseIsCanonical(lines);
    ParentsAreNearest([], Parse(lines).forest, -1);
  }

  // ---- printing and parsing again ----

  function AttachAll(f: Forest, entries: seq<Entry>): Forest {
    if entries == [] then f else Attach(AttachAll(f, entries[..|entries| - 1]), entries[|entries| - 1])
  }

  lemma {:induction false} AttachAllConcat(f: Forest, a: seq<Entry>, b: seq<Entry>)
    ensures AttachAll(f, a + b) == AttachAll(AttachAll(f, a), b)
    decreases |b|
  {
    if b == [] {
      assert a + b == a;
    } else {
      AttachAllConcat(f, a, b[..|b| - 1]);
      assert (a + b)[..|a + b| - 1] == a + b[..|b| - 1];
    }
  }

  lemma {:induction false} AttachAllUnder(front: Forest, e: Entry, children: Forest, entries: seq<Entry>)
    requires forall d :: d in entries ==> d.level > e.level
    ensures AttachAll(Grow(front, e, children), entries) == Grow(front, e, AttachAll(children, entries))
    decreases |entries|
  {
    if entries != [] {
      AttachAllUnder(front, e, children, entries[..|entries| - 1]);
    }
  }

  lemma {:induction false} AttachAllRebuilds(f: Forest)
    requires Canonical(f)
    ensures AttachAll(Empty, Preorder(f)) == f
  {
    match f
    case Empty =>
    case Grow(front, e, children) =>
      AttachAllRebuilds(front);
      AttachAllRebuilds(children);
      AttachAllConcat(Empty, Preorder(front) + [e], Preorder(children));
      AttachAllConcat(Empty, Preorder(front), [e]);
      assert AttachAll(front, [e]) == Attach(front, e) by {
        assert [e][..0] == [];
      }
      if children != Empty {
        LastRootIsShallowest(children);
      }
      AttachAllUnder(front, e, Empty, Preorder(children));
  }

  lemma {:induction false} ParseFromConcat(p: Parsed, a: seq<Line>, b: seq<Line>)
    ensures ParseFrom(p, a + b) == ParseFrom(ParseFrom(p, a), b)
    decreases |b|
  {
    if b == [] {
      assert a + b == a;
    } else {
      ParseFromConcat(p, a, b[..|b| - 1]);
      assert (a + b)[..|a + b| - 1] == a + b[..|b| - 1];
    }
  }

  lemma {:induction false} ParseLoose(texts: seq<string>)
    ensures Parse(Proses(texts)) == Parsed(texts, Empty)
  {
    if texts != [] {
      var n := |texts| - 1;
      ParseLoose(texts[..n]);
      assert Proses(texts)[..n] == Proses(texts[..n]);
    }
  }

  /** The continuation lines that follow a bullet all go to it. */
  lemma {:induction false} ParseContinuations(loose: seq<string>, f: Forest, level: nat, text: string,
                                              texts: seq<string>)
    ensures ParseFrom(Parsed(loose, Attach(f, Entry(level, text, []))), Proses(texts))
         == Parsed(loose, Attach(f, Entry(level, text, texts)))
    decreases |texts|
  {
    if texts != [] {
      var n := |texts| - 1;
      ParseContinuations(loose, f, level, text, texts[..n]);
      assert Proses(texts)[..n] == Proses(texts[..n]);
      ContinueAttached(f, Entry(level, text, texts[..n]), texts[n]);
      assert texts[..n] + [texts[n]] == texts;
    }
  }

  lemma {:induction false} ContinueAttached(f: Forest, e: Entry, text: string)
    ensures Attach(f, e) != Empty
    ensures Continue(Attach(f, e), text) == Attach(f, e.(continuations := e.continuations + [text]))
  {
    match f
    case Empty =>
    case Grow(front, entry, children) => ContinueAttached(children, e, text);
  }

  lemma {:induction false} ParsePrintedEntries(loose: seq<string>, entries: seq<Entry>)
    ensures ParseFrom(Parsed(loose, Empty), PrintEntries(entries)) == Parsed(loose, AttachAll(Empty, entries))
    decreases |entries|
  {
    if entries != [] {
      var n, start := |entries| - 1, Parsed(loose, Empty);
      var e := entries[n];
      var front, bullet := PrintEntries(entries[..n]), [Bullet(e.level, e.text)];
      ParsePrintedEntries(loose, entries[..n]);
      ParseFromConcat(start, front + bullet, Proses(e.continuations));
      ParseFromConcat(start, front, bullet);
      var f := AttachAll(Empty, entries[..n]);
      assert bullet[..0] == [];
      assert ParseFrom(Parsed(loose, f), bullet) == Parsed(loose, Attach(f, Entry(e.level, e.text, [])));
      ParseContinuations(loose, f, e.level, e.text, e.continuations);
    }
  }

  /** Printing and parsing again changes nothing, for every forest of canonical shape. */
  lemma PrintThenParse(p: Parsed)
    requires Canonical(p.forest)
    ensures Parse(Print(p)) == p
  {
    ParseFromConcat(Parsed([], Empty), Proses(p.loose), PrintEntries(Preorder(p.forest)));
    ParseLoose(p.loose);
    ParsePrintedEntries(p.loose, Preorder(p.forest));
    AttachAllRebuilds(p.forest);
  }

  /** Two streams give the same forest exactly when they differ only in lines of no interest. */
  lemma SameForestSameContent(a: seq<Line>, b: seq<Line>)
    ensures Parse(a) == Parse(b) <==> Content(a) == Content(b)
  {
    ParseKeepsContent(a);
    ParseKeepsContent(b);
    ParseIsCanonical(a);
    ParseIsCanonical(b);
    PrintThenParse(Parse(a));
    PrintThenParse(Parse(b));
  }
}
