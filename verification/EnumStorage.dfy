/** Moving enum columns between native labels and portable strings, on the three kinds of database. */
module EnumStorage {
  import opened Ordering

  // ---- which strings a database takes for the same ----

  /** How `=` compares strings in a column: by its collation. */
  type Same = (string, string) -> bool

  ghost predicate Equivalence(same: Same) {
    && (forall a :: same(a, a))
    && (forall a, b :: same(a, b) ==> same(b, a))
    && (forall a, b, c :: same(a, b) && same(b, c) ==> same(a, c))
  }

  predicate Exact(a: string, b: string) { a == b }

  ghost predicate IsExact(same: Same) { forall a, b :: same(a, b) <==> a == b }

  // ---- the conversion of one value ----

  /** Old value, new value. */
  type Pair = (string, string)

  /** No two old values are the same to the database. */
  ghost predicate DistinctKeys(same: Same, m: seq<Pair>) {
    forall i, j :: 0 <= i < j < |m| ==> !same(m[i].0, m[j].0)
  }

  predicate Changes(p: Pair) { p.0 != p.1 }

  function Replace(same: Same, p: Pair, v: string): string {
    if Changes(p) && same(v, p.0) then p.1 else v
  }

  /** What the updates, one after the other, make of a value. */
  function Sequential(same: Same, m: seq<Pair>, v: string): string {
    if m == [] then v else Replace(same, m[|m| - 1], Sequential(same, m[..|m| - 1], v))
  }

  /** What the mapping says of a value, applied once: a pair that changes nothing leaves the value as it is spelt. */
  function Mapped(same: Same, m: seq<Pair>, v: string): string {
    if m == [] then v
    else if same(v, m[|m| - 1].0) then Replace(same, m[|m| - 1], v)
    else Mapped(same, m[..|m| - 1], v)
  }

  /** An update catches what another one wrote, and makes something else of it. */
  predicate Captures(same: Same, m: seq<Pair>, i: nat, j: nat)
    requires i < |m| && j < |m|
  {
    Changes(m[i]) && Changes(m[j]) && same(m[i].1, m[j].0) && m[j].1 != m[i].1
  }

  ghost predicate NoCapture(same: Same, m: seq<Pair>) {
    forall i, j :: 0 <= i < j < |m| ==> !Captures(same, m, i, j)
  }

  /** Nothing written is caught by any update, earlier ones included. */
  ghost predicate NoOverlap(same: Same, m: seq<Pair>) {
    forall i, j :: 0 <= i < |m| && 0 <= j < |m| ==> !Captures(same, m, i, j)
  }

  lemma {:induction false} MappedAt(same: Same, m: seq<Pair>, i: nat, v: string)
    requires Equivalence(same) && DistinctKeys(same, m) && i < |m| && same(v, m[i].0)
    ensures Mapped(same, m, v) == if Changes(m[i]) then m[i].1 else v
  {
    if i < |m| - 1 {
      assert !same(m[i].0, m[|m| - 1].0);
      MappedAt(same, m[..|m| - 1], i, v);
    }
  }

  lemma {:induction false} MappedElsewhere(same: Same, m: seq<Pair>, v: string)
    requires forall i :: 0 <= i < |m| ==> !same(v, m[i].0)
    ensures Mapped(same, m, v) == v
  {
    if m != [] {
      MappedElsewhere(same, m[..|m| - 1], v);
    }
  }

  /** From position k on, a value no update changes stays. */
  lemma {:induction false} Stays(same: Same, m: seq<Pair>, k: nat, v: string, w: string)
    requires k <= |m| && Sequential(same, m[..k], v) == w && forall i :: k <= i < |m| ==> Replace(same, m[i], w) == w
    ensures Sequential(same, m, v) == w
  {
    if k == |m| {
      assert m[..k] == m;
    } else {
      var n := |m| - 1;
      assert m[..n][..k] == m[..k];
      Stays(same, m[..n], k, v, w);
    }
  }

  /** What is the same as the i-th old value becomes the i-th new value at its turn, and no sooner. */
  lemma ReplacedAt(same: Same, m: seq<Pair>, i: nat, v: string)
    requires Equivalence(same) && DistinctKeys(same, m) && i < |m| && Changes(m[i]) && same(v, m[i].0)
    ensures Sequential(same, m[..i + 1], v) == m[i].1
  {
    assert m[..i][..0] == [];
    forall k | 0 <= k < i ensures !same(v, m[k].0) {
      assert !same(m[k].0, m[i].0);
    }
    Stays(same, m[..i], 0, v, v);
    assert m[..i + 1][..i] == m[..i];
  }

  lemma Uncaught(same: Same, m: seq<Pair>, i: nat)
    requires i < |m| && Changes(m[i]) && forall j :: i < j < |m| ==> !Captures(same, m, i, j)
    ensures forall j :: i < j < |m| ==> Replace(same, m[j], m[i].1) == m[i].1
  {
    forall j | i < j < |m| ensures Replace(same, m[j], m[i].1) == m[i].1 {
      assert !Captures(same, m, i, j);
    }
  }

  /** Uncaught, it stays until the end. */
  lemma StaysReplaced(same: Same, m: seq<Pair>, i: nat, v: string)
    requires Equivalence(same) && DistinctKeys(same, m) && i < |m| && Changes(m[i]) && same(v, m[i].0)
    requires forall j :: i < j < |m| ==> !Captures(same, m, i, j)
    ensures Sequential(same, m, v) == m[i].1
  {
    ReplacedAt(same, m, i, v);
    Uncaught(same, m, i);
    Stays(same, m, i + 1, v, m[i].1);
  }

  /** A value that no changing pair looks for is left as it is. */
  lemma LeftAlone(same: Same, m: seq<Pair>, v: string)
    requires forall i :: 0 <= i < |m| && Changes(m[i]) ==> !same(v, m[i].0)
    ensures Sequential(same, m, v) == v
  {
    assert m[..0] == [];
    Stays(same, m, 0, v, v);
  }

  lemma AgreesAt(same: Same, m: seq<Pair>, v: string)
    requires Equivalence(same) && DistinctKeys(same, m) && NoCapture(same, m)
    ensures Sequential(same, m, v) == Mapped(same, m, v)
  {
    if i :| 0 <= i < |m| && same(v, m[i].0) {
      MappedAt(same, m, i, v);
      if Changes(m[i]) {
        StaysReplaced(same, m, i, v);
      } else {
        forall j | 0 <= j < |m| && Changes(m[j]) ensures !same(v, m[j].0) {
          assert same(m[i].0, v) && (j < i ==> !same(m[j].0, m[i].0)) && (i < j ==> !same(m[i].0, m[j].0));
        }
        LeftAlone(same, m, v);
      }
    } else {
      LeftAlone(same, m, v);
      MappedElsewhere(same, m, v);
    }
  }

  /** The last update whose result is caught goes wrong: what catches it is itself left alone. */
  lemma CapturedGoesWrong(same: Same, m: seq<Pair>, i: nat, j: nat)
    requires Equivalence(same) && DistinctKeys(same, m) && i < j < |m| && Captures(same, m, i, j)
    requires forall k, l :: i < k < l < |m| ==> !Captures(same, m, k, l)
    ensures Sequential(same, m, m[i].0) != Mapped(same, m, m[i].0)
  {
    hide *;
    CaughtAt(same, m, i, j);
    MappedAt(same, m, i, m[i].0);
    Uncaught(same, m, j);
    Stays(same, m, j + 1, m[i].0, m[j].1);
  }

  lemma CaughtAt(same: Same, m: seq<Pair>, i: nat, j: nat)
    requires Equivalence(same) && DistinctKeys(same, m) && i < j < |m| && Captures(same, m, i, j)
    ensures Sequential(same, m[..j + 1], m[i].0) == m[j].1 && m[j].1 != m[i].1
    ensures Changes(m[i]) && Changes(m[j]) && same(m[i].0, m[i].0)
  {
    ReplacedAt(same, m, i, m[i].0);
    assert m[..j][..i + 1] == m[..i + 1];
    forall k | i < k < j ensures !same(m[i].1, m[k].0) {
      assert !same(m[k].0, m[j].0);
    }
    Stays(same, m[..j], i + 1, m[i].0, m[i].1);
    assert m[..j + 1][..j] == m[..j];
  }

  /** The last position with a capture after it. */
  lemma {:induction false} LastCaptured(same: Same, m: seq<Pair>, i: nat, j: nat) returns (a: nat, b: nat)
    requires i < j < |m| && Captures(same, m, i, j)
    ensures a < b < |m| && Captures(same, m, a, b)
    ensures forall k, l :: a < k < l < |m| ==> !Captures(same, m, k, l)
    decreases |m| - i
  {
    if k, l :| i < k < l < |m| && Captures(same, m, k, l) {
      a, b := LastCaptured(same, m, k, l);
    } else {
      a, b := i, j;
    }
  }

  /**
   * The updates one by one do what the mapping says, for every value, exactly when none catches an earlier one's
   * result.
   */
  lemma SequentialIsSimultaneous(same: Same, m: seq<Pair>)
    requires Equivalence(same) && DistinctKeys(same, m)
    ensures (forall v :: Sequential(same, m, v) == Mapped(same, m, v)) <==> NoCapture(same, m)
  {
    if NoCapture(same, m) {
      forall v ensures Sequential(same, m, v) == Mapped(same, m, v) {
        AgreesAt(same, m, v);
      }
    } else {
      var i, j :| 0 <= i < j < |m| && Captures(same, m, i, j);
      var a, b := LastCaptured(same, m, i, j);
      CapturedGoesWrong(same, m, a, b);
    }
  }

  /** Converting twice is converting once, exactly when nothing written is caught. */
  lemma SecondTimeIsIdle(same: Same, m: seq<Pair>)
    requires Equivalence(same) && DistinctKeys(same, m) && NoCapture(same, m)
    ensures (forall v :: Sequential(same, m, Sequential(same, m, v)) == Sequential(same, m, v)) <==> NoOverlap(same, m)
  {
    if NoOverlap(same, m) {
      forall v ensures Sequential(same, m, Sequential(same, m, v)) == Sequential(same, m, v) {
        AgreesAt(same, m, v);
        AgreesAt(same, m, Mapped(same, m, v));
        WrittenStays(same, m, v);
      }
    } else {
      var i, j :| 0 <= i < |m| && 0 <= j < |m| && Captures(same, m, i, j);
      AgreesAt(same, m, m[i].0);
      AgreesAt(same, m, m[i].1);
      MappedAt(same, m, i, m[i].0);
      MappedAt(same, m, j, m[i].1);
      assert Sequential(same, m, Sequential(same, m, m[i].0)) == m[j].1;
    }
  }

  lemma WrittenStays(same: Same, m: seq<Pair>, v: string)
    requires Equivalence(same) && DistinctKeys(same, m) && NoOverlap(same, m)
    ensures Mapped(same, m, Mapped(same, m, v)) == Mapped(same, m, v)
  {
    if i :| 0 <= i < |m| && same(v, m[i].0) {
      MappedAt(same, m, i, v);
      if j :| 0 <= j < |m| && same(m[i].1, m[j].0) {
        MappedAt(same, m, j, m[i].1);
        assert !Captures(same, m, i, j);
      } else {
        MappedElsewhere(same, m, m[i].1);
      }
    } else {
      MappedElsewhere(same, m, v);
    }
  }

  // ---- there and back ----

  /** No two new values are the same to the database. */
  ghost predicate Injective(same: Same, m: seq<Pair>) {
    forall i, j :: 0 <= i < j < |m| ==> !same(m[i].1, m[j].1)
  }

  predicate IsKey(m: seq<Pair>, v: string) { exists i :: 0 <= i < |m| && m[i].0 == v }

  /** A changing pair has an old or a new value that the database takes for v. */
  predicate Touched(same: Same, m: seq<Pair>, v: string) {
    exists i :: 0 <= i < |m| && Changes(m[i]) && (same(v, m[i].0) || same(v, m[i].1))
  }

  /** A dictionary entry: in the place of the key if it is there already, at the end otherwise. */
  function Put(m: seq<Pair>, key: string, value: string): seq<Pair> {
    if m == [] then [(key, value)]
    else if m[0].0 == key then [(key, value)] + m[1..]
    else [m[0]] + Put(m[1..], key, value)
  }

  /** The mapping back, new value to old value. */
  function Invert(m: seq<Pair>): seq<Pair> {
    if m == [] then [] else Put(Invert(m[..|m| - 1]), m[|m| - 1].1, m[|m| - 1].0)
  }

  lemma {:induction false} PutFresh(m: seq<Pair>, key: string, value: string)
    requires !IsKey(m, key)
    ensures Put(m, key, value) == m + [(key, value)]
  {
    if m != [] {
      assert m[0].0 != key && forall i :: 0 <= i < |m[1..]| ==> m[1..][i] == m[i + 1];
      PutFresh(m[1..], key, value);
    }
  }

  /** Without equal new values, the mapping back swaps every pair and keeps the order. */
  lemma {:induction false} InvertSwaps(same: Same, m: seq<Pair>)
    requires Equivalence(same) && Injective(same, m)
    ensures |Invert(m)| == |m| && forall i :: 0 <= i < |m| ==> Invert(m)[i] == (m[i].1, m[i].0)
  {
    if m != [] {
      var n := |m| - 1;
      InvertSwaps(same, m[..n]);
      forall i | 0 <= i < n ensures Invert(m[..n])[i].0 != m[n].1 {
        assert !same(m[i].1, m[n].1) && same(m[n].1, m[n].1);
      }
      PutFresh(Invert(m[..n]), m[n].1, m[n].0);
    }
  }

  lemma InvertUncaptured(same: Same, m: seq<Pair>)
    requires Equivalence(same) && Injective(same, m) && NoOverlap(same, m)
    ensures DistinctKeys(same, Invert(m)) && NoCapture(same, Invert(m))
  {
    InvertSwaps(same, m);
    var r := Invert(m);
    forall i, j | 0 <= i < j < |r| ensures !same(r[i].0, r[j].0) && !Captures(same, r, i, j) {
      assert !Captures(same, m, j, i);
      assert !same(m[i].1, m[j].1) && same(m[j].1, m[j].1);
    }
  }

  function ThereAndBack(same: Same, m: seq<Pair>, v: string): string {
    Sequential(same, Invert(m), Sequential(same, m, v))
  }

  lemma ThereAndBackMapped(same: Same, m: seq<Pair>, v: string)
    requires Equivalence(same) && DistinctKeys(same, m) && NoOverlap(same, m) && Injective(same, m)
    ensures ThereAndBack(same, m, v) == Mapped(same, Invert(m), Mapped(same, m, v))
  {
    AgreesAt(same, m, v);
    InvertUncaptured(same, m);
    AgreesAt(same, Invert(m), Mapped(same, m, v));
  }

  /** What the mapping back makes of a value. */
  lemma MappedBack(same: Same, m: seq<Pair>, v: string)
    requires Equivalence(same) && NoOverlap(same, m) && Injective(same, m)
    ensures forall i :: 0 <= i < |m| && same(v, m[i].1) ==>
      Mapped(same, Invert(m), v) == if Changes(m[i]) then m[i].0 else v
    ensures (forall i :: 0 <= i < |m| ==> !same(v, m[i].1)) ==> Mapped(same, Invert(m), v) == v
  {
    InvertSwaps(same, m);
    InvertUncaptured(same, m);
    var r := Invert(m);
    forall i | 0 <= i < |m| && same(v, m[i].1) ensures Mapped(same, r, v) == if Changes(m[i]) then m[i].0 else v {
      MappedAt(same, r, i, v);
    }
    if forall i :: 0 <= i < |m| ==> !same(v, m[i].1) {
      MappedElsewhere(same, r, v);
    }
  }

  /**
   * Downgrade after upgrade gives a value back exactly when it is spelt as an old label, or no pair that changes
   * anything has an old or a new value the database takes for it.
   */
  lemma ValueReturns(same: Same, m: seq<Pair>, v: string)
    requires Equivalence(same) && DistinctKeys(same, m) && NoOverlap(same, m) && Injective(same, m)
    ensures ThereAndBack(same, m, v) == v <==> IsKey(m, v) || !Touched(same, m, v)
  {
    ThereAndBackMapped(same, m, v);
    assert same(v, v);
    if i :| 0 <= i < |m| && Changes(m[i]) && same(v, m[i].0) {
      MappedAt(same, m, i, v);
      assert same(m[i].1, m[i].1);
      MappedBack(same, m, m[i].1);
      OneKeyFor(same, m, i, v);
    } else {
      UntouchedByUpgrade(same, m, v);
      MappedBack(same, m, v);
      if j :| 0 <= j < |m| && m[j].0 == v {
        assert !Changes(m[j]);
      }
    }
  }

  /** Only the pair whose old value v is the same as can have v itself for its old value. */
  lemma OneKeyFor(same: Same, m: seq<Pair>, i: nat, v: string)
    requires Equivalence(same) && DistinctKeys(same, m) && i < |m| && same(v, m[i].0)
    ensures IsKey(m, v) <==> m[i].0 == v
  {
  }

  lemma UntouchedByUpgrade(same: Same, m: seq<Pair>, v: string)
    requires Equivalence(same) && DistinctKeys(same, m)
    requires forall i :: 0 <= i < |m| && Changes(m[i]) ==> !same(v, m[i].0)
    ensures Mapped(same, m, v) == v
  {
    if i :| 0 <= i < |m| && same(v, m[i].0) {
      MappedAt(same, m, i, v);
    } else {
      MappedElsewhere(same, m, v);
    }
  }

  /** Two values the database takes for the same end up as one, or neither is changed. */
  lemma {:induction false} SameFate(same: Same, m: seq<Pair>, v: string, w: string)
    requires Equivalence(same) && same(v, w)
    ensures Sequential(same, m, v) == Sequential(same, m, w)
         || (Sequential(same, m, v) == v && Sequential(same, m, w) == w)
  {
    if m != [] {
      SameFate(same, m[..|m| - 1], v, w);
    }
  }

  /** Downgrade undoes upgrade on every old label exactly when no two new values are the same to the database. */
  lemma OldLabelsReturn(same: Same, m: seq<Pair>)
    requires Equivalence(same) && DistinctKeys(same, m) && NoOverlap(same, m)
    ensures (forall i :: 0 <= i < |m| ==> ThereAndBack(same, m, m[i].0) == m[i].0) <==> Injective(same, m)
  {
    if Injective(same, m) {
      forall i | 0 <= i < |m| ensures ThereAndBack(same, m, m[i].0) == m[i].0 {
        ValueReturns(same, m, m[i].0);
      }
    } else {
      var i, j :| 0 <= i < j < |m| && same(m[i].1, m[j].1);
      AgreesAt(same, m, m[i].0);
      AgreesAt(same, m, m[j].0);
      assert same(m[i].0, m[i].0) && same(m[j].0, m[j].0);
      MappedAt(same, m, i, m[i].0);
      MappedAt(same, m, j, m[j].0);
      SameFate(same, Invert(m), m[i].1, m[j].1);
      assert !same(m[i].0, m[j].0);
    }
  }

  // ---- collations ----

  /** A spelling the collation takes for an old value, although it is neither that nor its new value. */
  predicate Lookalike(same: Same, m: seq<Pair>, v: string) {
    exists i :: 0 <= i < |m| && Changes(m[i]) && same(v, m[i].0) && v != m[i].0 && v != m[i].1
  }

  lemma ExactIsEquivalence()
    ensures Equivalence(Exact) && IsExact(Exact)
  {
  }

  /** Distinct under a collation is distinct under exact comparison, and so on. */
  lemma ExactAsWell(same: Same, m: seq<Pair>)
    requires Equivalence(same)
    ensures DistinctKeys(same, m) ==> DistinctKeys(Exact, m)
    ensures NoCapture(same, m) ==> NoCapture(Exact, m)
  {
    forall a, b | Exact(a, b) ensures same(a, b) {
    }
    if NoCapture(same, m) {
      forall i, j | 0 <= i < j < |m| ensures !Captures(Exact, m, i, j) {
        assert !Captures(same, m, i, j);
      }
    }
  }

  /** A database with a collation converts a value like one that compares exactly, unless it is a lookalike. */
  lemma CollationMatters(same: Same, m: seq<Pair>, v: string)
    requires Equivalence(same) && DistinctKeys(same, m) && NoCapture(same, m)
    ensures Sequential(same, m, v) == Sequential(Exact, m, v) <==> !Lookalike(same, m, v)
  {
    ExactIsEquivalence();
    ExactAsWell(same, m);
    AgreesAt(same, m, v);
    AgreesAt(Exact, m, v);
    if i :| 0 <= i < |m| && same(v, m[i].0) {
      MappedAt(same, m, i, v);
      OneKeyFor(same, m, i, v);
      if m[i].0 == v {
        MappedAt(Exact, m, i, v);
      } else {
        MappedElsewhere(Exact, m, v);
      }
      forall j | 0 <= j < |m| && same(v, m[j].0) ensures j == i {
      }
    } else {
      MappedElsewhere(same, m, v);
      MappedElsewhere(Exact, m, v);
    }
  }

  /** The label of a native type that a value is stored as. */
  function LabelFor(same: Same, labels: seq<string>, v: string): string {
    if labels == [] then v else if same(v, labels[0]) then labels[0] else LabelFor(same, labels[1..], v)
  }

  lemma {:induction false} LabelForIs(same: Same, labels: seq<string>, v: string)
    ensures (exists l :: l in labels && same(v, l)) ==>
      LabelFor(same, labels, v) in labels && same(v, LabelFor(same, labels, v))
  {
    if labels != [] {
      LabelForIs(same, labels[1..], v);
    }
  }

  // ---- the database ----

  datatype Cell = Null | Text(text: string)
  datatype Kind = Portable | Varchar(length: nat) | Inline(labels: seq<string>) | Named(typeName: string)
  datatype Column = Column(kind: Kind, cells: seq<Cell>)
  datatype Dialect = Sqlite | Mysql | Postgresql

  type Ref = (string, string)

  predicate Fits(types: map<string, set<string>>, kind: Kind, text: string) {
    match kind
    case Portable => true
    case Varchar(length) => |text| <= length
    case Inline(labels) => text in labels
    case Named(name) => name in types && text in types[name]
  }

  predicate AllFit(types: map<string, set<string>>, kind: Kind, cells: seq<Cell>) {
    forall i :: 0 <= i < |cells| && cells[i].Text? ==> Fits(types, kind, cells[i].text)
  }

  function Convert(same: Same, m: seq<Pair>, cells: seq<Cell>): seq<Cell> {
    seq(|cells|, i requires 0 <= i < |cells| =>
      if cells[i].Null? then Null else Text(Sequential(same, m, cells[i].text)))
  }

  /** No two of the labels are the same to the database, as a native type demands. */
  predicate Inequivalent(same: Same, labels: set<string>) {
    forall a, b :: a in labels && b in labels && same(a, b) ==> a == b
  }

  predicate OneOf(same: Same, labels: set<string>, v: string) {
    exists l :: l in labels && same(v, l)
  }

  predicate Within(same: Same, cells: seq<Cell>, labels: set<string>) {
    forall i :: 0 <= i < |cells| && cells[i].Text? ==> OneOf(same, labels, cells[i].text)
  }

  /** A native type with these labels can take these cells. */
  predicate Takes(same: Same, cells: seq<Cell>, labels: set<string>) {
    Inequivalent(same, labels) && Within(same, cells, labels)
  }

  /** Cells as a native type stores them: spelt as its labels. */
  function Labelled(same: Same, labels: seq<string>, cells: seq<Cell>): seq<Cell> {
    seq(|cells|, i requires 0 <= i < |cells| =>
      if cells[i].Null? then Null else Text(LabelFor(same, labels, cells[i].text)))
  }

  function MaxLength(labels: seq<string>): (n: nat)
    ensures forall l :: l in labels ==> |l| <= n
    ensures n == 0 || exists l :: l in labels && |l| == n
  {
    if labels == [] then 0
    else
      var rest := MaxLength(labels[1..]);
      if |labels[0]| > rest then |labels[0]| else rest
  }

  predicate Accepts(same: Same, types: map<string, set<string>>, kind: Kind, cells: seq<Cell>) {
    if kind.Inline? then Takes(same, cells, Elems(kind.labels)) else AllFit(types, kind, cells)
  }

  function Adopted(same: Same, kind: Kind, cells: seq<Cell>): seq<Cell> {
    if kind.Inline? then Labelled(same, kind.labels, cells) else cells
  }

  lemma AdoptedFit(same: Same, types: map<string, set<string>>, kind: Kind, cells: seq<Cell>)
    requires Accepts(same, types, kind, cells)
    ensures AllFit(types, kind, Adopted(same, kind, cells))
  {
    if kind.Inline? {
      forall i | 0 <= i < |cells| && cells[i].Text? ensures LabelFor(same, kind.labels, cells[i].text) in kind.labels {
        LabelForIs(same, kind.labels, cells[i].text);
      }
    }
  }

  class Database {
    const dialect: Dialect
    const collation: Same
    var columns: map<Ref, Column>
    var types: map<string, set<string>>

    constructor (dialect: Dialect, collation: Same, columns: map<Ref, Column>, types: map<string, set<string>>)
      ensures this.dialect == dialect && this.collation == collation && this.columns == columns && this.types == types
    {
      this.dialect, this.collation, this.columns, this.types := dialect, collation, columns, types;
    }

    /** Every column holds what its type allows, only one kind of database has named types, and one has collations. */
    ghost predicate Valid()
      reads this
    {
      && Equivalence(collation) && (dialect != Mysql ==> IsExact(collation))
      && forall c :: c in columns ==>
        && AllFit(types, columns[c].kind, columns[c].cells)
        && (columns[c].kind.Named? ==> dialect == Postgresql && columns[c].kind.typeName in types)
        && (dialect == Sqlite ==> columns[c].kind == Portable)
        && (dialect == Mysql ==> columns[c].kind.Varchar? || columns[c].kind.Inline?)
    }

    /**
     * Refused, with nothing changed, when a cell does not fit the new type; inline labels are matched by the collation.
     */
    method Retype(c: Ref, kind: Kind) returns (ok: bool)
      requires Valid() && c in columns && dialect != Sqlite
      requires kind.Named? ==> dialect == Postgresql && kind.typeName in types
      requires dialect == Mysql ==> kind.Varchar? || kind.Inline?
      modifies `columns
      ensures Valid() && ok == Accepts(collation, types, kind, old(columns)[c].cells)
      ensures columns ==
        if ok then old(columns)[c := Column(kind, Adopted(collation, kind, old(columns)[c].cells))] else old(columns)
    {
      ok := Accepts(collation, types, kind, columns[c].cells);
      if ok {
        AdoptedFit(collation, types, kind, columns[c].cells);
        columns := columns[c := Column(kind, Adopted(collation, kind, columns[c].cells))];
      }
    }

    /** Refused while a column uses the type; nothing happens when there is no such type. */
    method DropType(name: string) returns (ok: bool)
      requires Valid()
      modifies `types
      ensures Valid() && ok == forall c :: c in columns ==> columns[c].kind != Named(name)
      ensures types == if ok then old(types) - {name} else old(types)
    {
      ok := forall c :: c in columns ==> columns[c].kind != Named(name);
      if ok {
        types := types - {name};
      }
    }

    method CreateType(name: string, labels: set<string>)
      requires Valid() && name !in types
      modifies `types
      ensures Valid() && types == old(types)[name := labels]
    {
      types := types[name := labels];
    }

    /** One UPDATE statement; what it writes must fit the column. */
    method Replace(c: Ref, p: Pair)
      requires Valid() && c in columns && Fits(types, columns[c].kind, p.1)
      modifies `columns
      ensures Valid()
      ensures columns == old(columns)[c := old(columns)[c].(cells := Replaced(collation, p, old(columns)[c].cells))]
    {
      columns := columns[c := columns[c].(cells := Replaced(collation, p, columns[c].cells))];
    }
  }

  function Replaced(same: Same, p: Pair, cells: seq<Cell>): seq<Cell> {
    seq(|cells|, i requires 0 <= i < |cells| =>
      if cells[i].Text? && same(cells[i].text, p.0) then Text(p.1) else cells[i])
  }

  // ---- one group of columns ----

  function NewValues(m: seq<Pair>): set<string> {
    set p | p in m :: p.1
  }

  function Widened(m: seq<Pair>, kind: Kind): nat {
    var existing := if kind.Varchar? && kind.length > 0 then kind.length
                    else if kind.Inline? && MaxLength(kind.labels) > 0 then MaxLength(kind.labels) else 64;
    Max(Max(existing, LongestNew(m)), 64)
  }

  function LongestNew(m: seq<Pair>): nat {
    if m == [] then 8 else MaxLength(seq(|m|, i requires 0 <= i < |m| => m[i].1))
  }

  function Max(a: nat, b: nat): nat {
    if a < b then b else a
  }

  /** The type a column ends up with. */
  function FinalKind(dialect: Dialect, m: seq<Pair>, labels: seq<string>, typeName: string, native: bool,
                     kind: Kind): Kind {
    match dialect
    case Sqlite => kind
    case Mysql => if native then Inline(labels) else Varchar(Widened(m, kind))
    case Postgresql => if native then Named(typeName) else Portable
  }

  /** The cells a column ends up with. */
  function FinalCells(dialect: Dialect, same: Same, m: seq<Pair>, labels: seq<string>, native: bool,
                      cells: seq<Cell>): seq<Cell> {
    if dialect == Mysql && native then Labelled(same, labels, Convert(same, m, cells)) else Convert(same, m, cells)
  }

  /** The listed columns converted, the others as they were. */
  function Migrated(dialect: Dialect, same: Same, columns: map<Ref, Column>, m: seq<Pair>, listed: set<Ref>,
                    labels: seq<string>, typeName: string, native: bool): map<Ref, Column> {
    map c | c in columns ::
      if c in listed
      then Column(FinalKind(dialect, m, labels, typeName, native, columns[c].kind),
                  FinalCells(dialect, same, m, labels, native, columns[c].cells))
      else columns[c]
  }

  /** No column outside the list uses the named type, and a native target takes the converted cells. */
  ghost predicate Migratable(dialect: Dialect, same: Same, columns: map<Ref, Column>, m: seq<Pair>, listed: set<Ref>,
                             typeName: string, native: bool) {
    && (dialect == Postgresql ==> forall c :: c in columns && c !in listed ==> columns[c].kind != Named(typeName))
    && (dialect != Sqlite && native ==> forall c :: c in listed && c in columns ==>
          Takes(same, Convert(same, m, columns[c].cells), NewValues(m)))
  }

  lemma ConvertNext(same: Same, m: seq<Pair>, k: nat, cells: seq<Cell>)
    requires k < |m|
    ensures Convert(same, m[..k + 1], cells)
         == if Changes(m[k]) then Replaced(same, m[k], Convert(same, m[..k], cells)) else Convert(same, m[..k], cells)
  {
    assert m[..k + 1][..k] == m[..k];
  }

  method UpdateEnumValues(db: Database, c: Ref, m: seq<Pair>)
    requires db.Valid() && c in db.columns && forall p :: p in m ==> Fits(db.types, db.columns[c].kind, p.1)
    modifies db`columns
    ensures db.Valid()
    ensures db.columns ==
      old(db.columns)[c := old(db.columns)[c].(cells := Convert(db.collation, m, old(db.columns)[c].cells))]
  {
    hide Convert, Fits;
    ghost var column := db.columns[c];
    var k := 0;
    ConvertNothing(db.collation, column.cells);
    assert m[..0] == [];
    while k < |m|
      invariant k <= |m| && db.Valid()
      invariant db.columns == old(db.columns)[c := column.(cells := Convert(db.collation, m[..k], column.cells))]
    {
      ConvertNext(db.collation, m, k, column.cells);
      assert m[k] in m;
      if Changes(m[k]) {
        db.Replace(c, m[k]);
      }
      k := k + 1;
    }
    assert m[..k] == m;
  }

  lemma ConvertNothing(same: Same, cells: seq<Cell>)
    ensures Convert(same, [], cells) == cells
  {
  }

  method MigrateColumnMysql(db: Database, c: Ref, m: seq<Pair>, labels: seq<string>, native: bool) returns (ok: bool)
    requires db.Valid() && db.dialect == Mysql && c in db.columns && Elems(labels) == NewValues(m)
    modifies db`columns
    ensures db.Valid()
    ensures ok == (native ==> Takes(db.collation, Convert(db.collation, m, old(db.columns)[c].cells), NewValues(m)))
    ensures ok ==> var column := old(db.columns)[c];
      db.columns == old(db.columns)[c := Column(FinalKind(Mysql, m, labels, "", native, column.kind),
                                                FinalCells(Mysql, db.collation, m, labels, native, column.cells))]
    ensures !ok ==> db.columns.Keys == old(db.columns).Keys && db.columns - {c} == old(db.columns) - {c}
  {
    hide Convert, Takes, Labelled, AllFit, Widened;
    var wide := Varchar(Widened(m, db.columns[c].kind));
    WideEnough(db.types, m, db.columns[c]);
    ok := db.Retype(c, wide);
    UpdateEnumValues(db, c, m);
    if native {
      ok := db.Retype(c, Inline(labels));
    }
  }

  lemma WideEnough(types: map<string, set<string>>, m: seq<Pair>, column: Column)
    requires column.kind.Varchar? || column.kind.Inline?
    requires AllFit(types, column.kind, column.cells)
    ensures AllFit(types, Varchar(Widened(m, column.kind)), column.cells)
    ensures forall p :: p in m ==> Fits(types, Varchar(Widened(m, column.kind)), p.1)
  {
    forall p | p in m ensures |p.1| <= LongestNew(m) {
      var i :| 0 <= i < |m| && m[i] == p;
      var news := seq(|m|, i requires 0 <= i < |m| => m[i].1);
      assert news[i] in news;
    }
  }

  /** The goal where it has been reached, the start elsewhere. */
  function Partly(start: map<Ref, Column>, goal: map<Ref, Column>, done: set<Ref>): map<Ref, Column> {
    map c | c in start :: if c in done && c in goal then goal[c] else start[c]
  }

  lemma PartlyNext(start: map<Ref, Column>, goal: map<Ref, Column>, list: seq<Ref>, i: nat)
    requires i < |list| && NoDup(list) && start.Keys == goal.Keys && list[i] in start
    ensures list[i] in Partly(start, goal, Elems(list[..i]))
      && Partly(start, goal, Elems(list[..i]))[list[i]] == start[list[i]]
    ensures Partly(start, goal, Elems(list[..i]))[list[i] := goal[list[i]]] == Partly(start, goal, Elems(list[..i + 1]))
  {
    assert list[..i + 1] == list[..i] + [list[i]];
    assert list[i] !in list[..i];
  }

  lemma PartlyAll(start: map<Ref, Column>, goal: map<Ref, Column>, done: set<Ref>)
    requires start.Keys == goal.Keys && forall c :: c in start && c !in done ==> goal[c] == start[c]
    ensures Partly(start, goal, {}) == start && Partly(start, goal, done) == goal
  {
  }

  /** The listed columns with another type. */
  function WithKind(columns: map<Ref, Column>, listed: set<Ref>, kind: Kind): map<Ref, Column> {
    map c | c in columns :: if c in listed then columns[c].(kind := kind) else columns[c]
  }

  /** The listed columns with converted cells. */
  function WithCells(same: Same, columns: map<Ref, Column>, listed: set<Ref>, m: seq<Pair>): map<Ref, Column> {
    map c | c in columns :: if c in listed then columns[c].(cells := Convert(same, m, columns[c].cells)) else columns[c]
  }

  /** Stops at the first column that has a cell the type does not allow. */
  method RetypeAll(db: Database, list: seq<Ref>, kind: Kind) returns (ok: bool)
    requires db.Valid() && db.dialect == Postgresql && NoDup(list) && Elems(list) <= db.columns.Keys
    requires kind == Portable || (kind.Named? && kind.typeName in db.types)
    modifies db`columns
    ensures db.Valid() && ok == forall c :: c in list ==> AllFit(db.types, kind, old(db.columns)[c].cells)
    ensures ok ==> db.columns == WithKind(old(db.columns), Elems(list), kind)
    ensures db.columns.Keys == old(db.columns).Keys && db.columns - Elems(list) == old(db.columns) - Elems(list)
  {
    hide AllFit, Elems, NoDup;
    ghost var start, goal := db.columns, WithKind(db.columns, Elems(list), kind);
    WithKindKeeps(start, list, kind);
    hide WithKind;
    PartlyAll(start, goal, Elems(list));
    hide Partly;
    NothingListed(list);
    ok := true;
    var i := 0;
    while i < |list|
      invariant i <= |list| && ok && db.Valid() && db.columns == Partly(start, goal, Elems(list[..i]))
      invariant forall k :: 0 <= k < i ==> AllFit(db.types, kind, start[list[k]].cells)
    {
      assert list[i] in list;
      PartlyNext(start, goal, list, i);
      ok := db.Retype(list[i], kind);
      if !ok {
        PartlyElsewhere(start, goal, list, i);
        return;
      }
      i := i + 1;
    }
    assert list[..i] == list;
  }

  lemma NothingListed(list: seq<Ref>)
    ensures Elems(list[..0]) == {}
  {
  }

  lemma WithKindKeeps(start: map<Ref, Column>, list: seq<Ref>, kind: Kind)
    requires Elems(list) <= start.Keys
    ensures var goal := WithKind(start, Elems(list), kind);
      && goal.Keys == start.Keys && goal - Elems(list) == start - Elems(list)
      && forall c :: c in list ==> c in start && goal[c] == start[c].(kind := kind)
    ensures forall c :: c in start && c !in Elems(list) ==> WithKind(start, Elems(list), kind)[c] == start[c]
  {
  }

  lemma PartlyElsewhere(start: map<Ref, Column>, goal: map<Ref, Column>, list: seq<Ref>, i: nat)
    requires i <= |list| && start.Keys == goal.Keys
    ensures var now := Partly(start, goal, Elems(list[..i]));
      now.Keys == start.Keys && now - Elems(list) == start - Elems(list)
  {
  }

  lemma WithCellsKeeps(same: Same, start: map<Ref, Column>, list: seq<Ref>, m: seq<Pair>)
    requires Elems(list) <= start.Keys
    ensures var goal := WithCells(same, start, Elems(list), m);
      && goal.Keys == start.Keys
      && (forall c :: c in list ==> c in start && goal[c] == start[c].(cells := Convert(same, m, start[c].cells)))
      && forall c :: c in start && c !in Elems(list) ==> goal[c] == start[c]
  {
  }

  method UpdateAll(db: Database, list: seq<Ref>, m: seq<Pair>)
    requires db.Valid() && NoDup(list) && Elems(list) <= db.columns.Keys
    requires forall c :: c in list ==> db.columns[c].kind == Portable
    modifies db`columns
    ensures db.Valid() && db.columns == WithCells(db.collation, old(db.columns), Elems(list), m)
  {
    hide Elems, NoDup, Convert, AllFit;
    ghost var start, goal := db.columns, WithCells(db.collation, db.columns, Elems(list), m);
    WithCellsKeeps(db.collation, start, list, m);
    hide WithCells;
    PartlyAll(start, goal, Elems(list));
    hide Partly;
    NothingListed(list);
    var i := 0;
    while i < |list|
      invariant i <= |list| && db.Valid() && db.columns == Partly(start, goal, Elems(list[..i]))
    {
      assert list[i] in list;
      PartlyNext(start, goal, list, i);
      UpdateEnumValues(db, list[i], m);
      i := i + 1;
    }
    assert list[..i] == list;
  }

  lemma MigratedKeeps(same: Same, start: map<Ref, Column>, m: seq<Pair>, list: seq<Ref>, labels: seq<string>,
                      typeName: string, native: bool)
    requires Elems(list) <= start.Keys
    ensures var goal := Migrated(Mysql, same, start, m, Elems(list), labels, typeName, native);
      && goal.Keys == start.Keys && goal - Elems(list) == start - Elems(list)
      && (forall c :: c in list ==> c in start)
      && (forall c :: c in list ==>
            goal[c] == Column(FinalKind(Mysql, m, labels, "", native, start[c].kind),
                              FinalCells(Mysql, same, m, labels, native, start[c].cells)))
      && forall c :: c in start && c !in Elems(list) ==> goal[c] == start[c]
    ensures Migratable(Mysql, same, start, m, Elems(list), typeName, native) <==>
      native ==> FirstTaken(same, start, m, list, |list|)
  {
  }

  /** The first k listed columns fit a native type once they are converted. */
  ghost predicate FirstTaken(same: Same, columns: map<Ref, Column>, m: seq<Pair>, list: seq<Ref>, k: nat)
    requires k <= |list|
  {
    forall j :: 0 <= j < k ==>
      list[j] in columns && Takes(same, Convert(same, m, columns[list[j]].cells), NewValues(m))
  }

  lemma OneMoreTaken(same: Same, columns: map<Ref, Column>, m: seq<Pair>, list: seq<Ref>, k: nat)
    requires k < |list| && list[k] in columns
    ensures FirstTaken(same, columns, m, list, k + 1) <==>
      FirstTaken(same, columns, m, list, k) && Takes(same, Convert(same, m, columns[list[k]].cells), NewValues(m))
    ensures FirstTaken(same, columns, m, list, |list|) ==> FirstTaken(same, columns, m, list, k + 1)
  {
  }

  method MigrateAllMysql(db: Database, list: seq<Ref>, m: seq<Pair>, labels: seq<string>, typeName: string,
                         native: bool)
    returns (ok: bool)
    requires db.Valid() && db.dialect == Mysql && NoDup(list) && Elems(list) <= db.columns.Keys
      && Elems(labels) == NewValues(m)
    modifies db`columns
    ensures db.Valid() && ok == Migratable(Mysql, db.collation, old(db.columns), m, Elems(list), typeName, native)
    ensures ok ==>
      db.columns == Migrated(Mysql, db.collation, old(db.columns), m, Elems(list), labels, typeName, native)
    ensures db.columns.Keys == old(db.columns).Keys && db.columns - Elems(list) == old(db.columns) - Elems(list)
  {
    hide Convert, Takes, Elems, NoDup, AllFit, FinalKind, FinalCells, NewValues, Database.Valid;
    ghost var start := db.columns;
    ghost var goal := Migrated(Mysql, db.collation, db.columns, m, Elems(list), labels, typeName, native);
    MigratedKeeps(db.collation, start, m, list, labels, typeName, native);
    assert FirstTaken(db.collation, start, m, list, 0);
    hide Migrated, Migratable, FirstTaken;
    PartlyAll(start, goal, Elems(list));
    PartlyOutside(start, goal, list);
    hide Partly;
    NothingListed(list);
    ok := true;
    var i := 0;
    while i < |list|
      invariant i <= |list| && ok && db.Valid() && db.columns == Partly(start, goal, Elems(list[..i]))
      invariant native ==> FirstTaken(db.collation, start, m, list, i)
    {
      assert list[i] in list;
      OneMoreTaken(db.collation, start, m, list, i);
      PartlyNext(start, goal, list, i);
      ghost var before := db.columns;
      ok := MigrateColumnMysql(db, list[i], m, labels, native);
      if !ok {
        Elsewhere(db.columns, before, start, list, i);
        return;
      }
      i := i + 1;
    }
    assert list[..i] == list;
  }

  lemma PartlyOutside(start: map<Ref, Column>, goal: map<Ref, Column>, list: seq<Ref>)
    requires start.Keys == goal.Keys
    ensures forall i :: 0 <= i <= |list| ==> Partly(start, goal, Elems(list[..i])).Keys == start.Keys
    ensures forall i, c :: 0 <= i <= |list| && c in start && c !in list[..i] ==>
      Partly(start, goal, Elems(list[..i]))[c] == start[c]
  {
  }

  lemma Elsewhere(now: map<Ref, Column>, before: map<Ref, Column>, start: map<Ref, Column>, list: seq<Ref>, i: nat)
    requires i < |list| && now.Keys == before.Keys == start.Keys && now - {list[i]} == before - {list[i]}
    requires forall c :: c in start && c !in list[..i] ==> before[c] == start[c]
    ensures now - Elems(list) == start - Elems(list)
  {
    forall c | c in start && c !in Elems(list) ensures now[c] == start[c] {
      assert c in before - {list[i]};
    }
  }

  /** The sorted new values are the labels of a native type. */
  ghost predicate AreLabels(labels: seq<string>, m: seq<Pair>) {
    Elems(labels) == NewValues(m) && NoDup(labels) && SortedBy(NameLeq, labels)
  }

  /** On every kind of database the listed columns end up with the same cells. */
  method MigrateEnumStorage(db: Database, m: seq<Pair>, list: seq<Ref>, typeName: string, native: bool)
    returns (ok: bool, ghost labels: seq<string>)
    requires db.Valid() && NoDup(list) && Elems(list) <= db.columns.Keys
    modifies db
    ensures db.Valid() && AreLabels(labels, m)
    ensures ok == Migratable(db.dialect, db.collation, old(db.columns), m, Elems(list), typeName, native)
    ensures ok ==>
      db.columns == Migrated(db.dialect, db.collation, old(db.columns), m, Elems(list), labels, typeName, native)
    ensures ok ==> db.types == if db.dialect != Postgresql then old(db.types)
                               else if native then old(db.types)[typeName := NewValues(m)]
                               else old(db.types) - {typeName}
    ensures db.columns.Keys == old(db.columns).Keys && db.columns - Elems(list) == old(db.columns) - Elems(list)
  {
    hide AllFit, Convert, Takes;
    NameLeqIsTotal();
    var sorted := Sorted(NewValues(m), NameLeq);
    labels := sorted;
    ok := true;
    match db.dialect {
      case Mysql =>
        ok := MigrateAllMysql(db, list, m, sorted, typeName, native);
      case Postgresql =>
        ok := MigrateAllPostgresql(db, list, m, typeName, native);
      case Sqlite =>
        UpdateAll(db, list, m);
    }
  }

  method MigrateAllPostgresql(db: Database, list: seq<Ref>, m: seq<Pair>, typeName: string, native: bool)
    returns (ok: bool)
    requires db.Valid() && db.dialect == Postgresql && NoDup(list) && Elems(list) <= db.columns.Keys
    modifies db
    ensures db.Valid() && ok == Migratable(Postgresql, db.collation, old(db.columns), m, Elems(list), typeName, native)
    ensures ok ==>
      db.columns == Migrated(Postgresql, db.collation, old(db.columns), m, Elems(list), [], typeName, native)
    ensures ok ==> db.types == if native then old(db.types)[typeName := NewValues(m)] else old(db.types) - {typeName}
    ensures db.columns.Keys == old(db.columns).Keys && db.columns - Elems(list) == old(db.columns) - Elems(list)
  {
    hide AllFit, WithKind, WithCells, Migrated, Migratable, NewValues;
    ghost var start, listed := db.columns, Elems(list);
    ghost var texts := WithKind(start, listed, Portable);
    ghost var cells := WithCells(db.collation, texts, listed, m);
    WithKindKeeps(start, list, Portable);
    PortableFits(db.types, start, list);
    ok := RetypeAll(db, list, Portable);
    TypeIsFree(db.collation, start, m, list, typeName, native);
    ok := db.DropType(typeName);
    if !ok {
      return;
    }
    UpdateAll(db, list, m);
    Stages(db.collation, start, m, list, typeName);
    if native {
      db.CreateType(typeName, NewValues(m));
      NativeFits(db.collation, db.types, start, m, list, typeName);
      ok := RetypeAll(db, list, Named(typeName));
    }
  }

  lemma PortableFits(types: map<string, set<string>>, columns: map<Ref, Column>, list: seq<Ref>)
    requires Elems(list) <= columns.Keys
    ensures forall c :: c in list ==> c in columns && AllFit(types, Portable, columns[c].cells)
  {
  }

  /** Once the listed columns are portable, the type is in use exactly when an unlisted column uses it. */
  lemma TypeIsFree(same: Same, start: map<Ref, Column>, m: seq<Pair>, list: seq<Ref>, typeName: string, native: bool)
    requires Elems(list) <= start.Keys
    ensures var texts := WithKind(start, Elems(list), Portable);
      (forall c :: c in texts ==> texts[c].kind != Named(typeName))
      <==> forall c :: c in start && c !in Elems(list) ==> start[c].kind != Named(typeName)
    ensures Migratable(Postgresql, same, start, m, Elems(list), typeName, native)
      ==> forall c :: c in start && c !in Elems(list) ==> start[c].kind != Named(typeName)
    ensures !native && (forall c :: c in start && c !in Elems(list) ==> start[c].kind != Named(typeName))
      ==> Migratable(Postgresql, same, start, m, Elems(list), typeName, native)
  {
    var texts := WithKind(start, Elems(list), Portable);
    if c :| c in start && c !in Elems(list) && start[c].kind == Named(typeName) {
      assert texts[c].kind == Named(typeName);
    }
  }

  lemma Stages(same: Same, start: map<Ref, Column>, m: seq<Pair>, list: seq<Ref>, typeName: string)
    requires Elems(list) <= start.Keys
    ensures var cells := WithCells(same, WithKind(start, Elems(list), Portable), Elems(list), m);
      && cells.Keys == start.Keys && cells - Elems(list) == start - Elems(list)
      && cells == Migrated(Postgresql, same, start, m, Elems(list), [], typeName, false)
      && WithKind(cells, Elems(list), Named(typeName))
         == Migrated(Postgresql, same, start, m, Elems(list), [], typeName, true)
  {
  }

  lemma NativeFits(same: Same, types: map<string, set<string>>, start: map<Ref, Column>, m: seq<Pair>, list: seq<Ref>,
                   typeName: string)
    requires IsExact(same) && Elems(list) <= start.Keys && typeName in types && types[typeName] == NewValues(m)
    requires forall c :: c in start && c !in Elems(list) ==> start[c].kind != Named(typeName)
    ensures var cells := WithCells(same, WithKind(start, Elems(list), Portable), Elems(list), m);
      cells.Keys == start.Keys && (forall c :: c in list ==> c in start)
      && ((forall c :: c in list ==> AllFit(types, Named(typeName), cells[c].cells))
          <==> Migratable(Postgresql, same, start, m, Elems(list), typeName, true))
  {
  }

  // ---- upgrade and downgrade of whole columns ----

  /** Downgrading an upgraded column gives its cells back exactly when each of its values is given back. */
  lemma CellsReturn(same: Same, m: seq<Pair>, cells: seq<Cell>)
    requires Equivalence(same) && DistinctKeys(same, m) && NoOverlap(same, m) && Injective(same, m)
    ensures Convert(same, Invert(m), Convert(same, m, cells)) == cells
       <==> forall i :: 0 <= i < |cells| && cells[i].Text? ==>
              IsKey(m, cells[i].text) || !Touched(same, m, cells[i].text)
  {
    hide Sequential, Invert, DistinctKeys, NoOverlap, Injective, IsKey, Touched, Equivalence;
    var back := Convert(same, Invert(m), Convert(same, m, cells));
    forall i | 0 <= i < |cells| && cells[i].Text?
      ensures back[i] == cells[i] <==> IsKey(m, cells[i].text) || !Touched(same, m, cells[i].text)
    {
      assert back[i] == Text(ThereAndBack(same, m, cells[i].text));
      ValueReturns(same, m, cells[i].text);
    }
  }

  predicate IsLabel(same: Same, m: seq<Pair>, v: string) {
    exists i :: 0 <= i < |m| && (same(v, m[i].0) || same(v, m[i].1))
  }

  /** A native downgrade is possible exactly when every cell holds what the database takes for an old or a new value. */
  lemma DowngradeTakes(same: Same, m: seq<Pair>, cells: seq<Cell>)
    requires Equivalence(same) && DistinctKeys(same, m) && NoOverlap(same, m) && Injective(same, m)
    ensures Takes(same, Convert(same, Invert(m), cells), NewValues(Invert(m)))
       <==> forall i :: 0 <= i < |cells| && cells[i].Text? ==> IsLabel(same, m, cells[i].text)
  {
    OldLabelsAgain(same, m);
    hide Sequential, Invert, DistinctKeys, NoOverlap, Injective, IsLabel, NewValues, Equivalence, OneOf, Inequivalent;
    var back := Convert(same, Invert(m), cells);
    forall i | 0 <= i < |cells| && cells[i].Text?
      ensures OneOf(same, NewValues(Invert(m)), back[i].text) <==> IsLabel(same, m, cells[i].text)
    {
      DowngradedLabel(same, m, cells[i].text);
    }
  }

  lemma OldLabelsAgain(same: Same, m: seq<Pair>)
    requires Equivalence(same) && DistinctKeys(same, m) && Injective(same, m)
    ensures Inequivalent(same, NewValues(Invert(m))) && forall v :: v in NewValues(Invert(m)) <==> IsKey(m, v)
  {
    InvertSwaps(same, m);
    var r := Invert(m);
    hide Invert;
    forall v ensures v in NewValues(r) <==> IsKey(m, v) {
      if i :| 0 <= i < |m| && m[i].0 == v {
        assert r[i] in r;
      }
    }
    forall a, b | IsKey(m, a) && IsKey(m, b) && same(a, b) ensures a == b {
      var i :| 0 <= i < |m| && m[i].0 == a;
      OneKeyFor(same, m, i, b);
    }
  }

  lemma DowngradedLabel(same: Same, m: seq<Pair>, v: string)
    requires Equivalence(same) && DistinctKeys(same, m) && NoOverlap(same, m) && Injective(same, m)
    ensures OneOf(same, NewValues(Invert(m)), Sequential(same, Invert(m), v)) <==> IsLabel(same, m, v)
  {
    InvertUncaptured(same, m);
    AgreesAt(same, Invert(m), v);
    MappedBack(same, m, v);
    OldLabelsAgain(same, m);
    hide Sequential, Invert, NewValues, NoOverlap;
    var w := Sequential(same, Invert(m), v);
    if i :| 0 <= i < |m| && same(v, m[i].1) {
      assert IsKey(m, m[i].0) && same(w, m[i].0);
    } else {
      assert w == v;
      if i :| 0 <= i < |m| && same(v, m[i].0) {
        assert IsKey(m, m[i].0);
      }
    }
  }

  // ---- the three kinds of database compared ----

  /** A whole column is converted alike exactly when no cell is a lookalike. */
  lemma CollationAgrees(same: Same, m: seq<Pair>, cells: seq<Cell>)
    requires Equivalence(same) && DistinctKeys(same, m) && NoCapture(same, m)
    ensures Convert(same, m, cells) == Convert(Exact, m, cells)
       <==> forall i :: 0 <= i < |cells| && cells[i].Text? ==> !Lookalike(same, m, cells[i].text)
  {
    hide Sequential, DistinctKeys, NoCapture, Lookalike, Equivalence;
    forall i | 0 <= i < |cells| && cells[i].Text?
      ensures Convert(same, m, cells)[i] == Convert(Exact, m, cells)[i] <==> !Lookalike(same, m, cells[i].text)
    {
      CollationMatters(same, m, cells[i].text);
    }
  }

  /** All databases that compare exactly convert alike. */
  lemma {:induction false} ExactConvertsAlike(same: Same, m: seq<Pair>, v: string)
    requires IsExact(same)
    ensures Sequential(same, m, v) == Sequential(Exact, m, v)
  {
    if m != [] {
      ExactConvertsAlike(same, m[..|m| - 1], v);
    }
  }

  /** What a native type adopts is spelt as it was if it was spelt as a label. */
  lemma LabelledIsIdle(same: Same, labels: seq<string>, cells: seq<Cell>)
    requires Equivalence(same) && Takes(Exact, cells, Elems(labels)) && Inequivalent(same, Elems(labels))
    ensures Labelled(same, labels, cells) == cells
  {
    forall i | 0 <= i < |cells| && cells[i].Text? ensures LabelFor(same, labels, cells[i].text) == cells[i].text {
      var v := cells[i].text;
      assert OneOf(Exact, Elems(labels), v);
      var l :| l in Elems(labels) && Exact(v, l);
      assert l in labels && same(v, l);
      LabelForIs(same, labels, v);
    }
  }

  /**
   * Where all three kinds of database migrate a column, a MySQL database ends with the same cells as the other two
   * exactly when no cell is a lookalike; and what the other two take, it takes too.
   */
  lemma SameCellsEverywhere(same: Same, m: seq<Pair>, labels: seq<string>, native: bool, cells: seq<Cell>)
    requires Equivalence(same) && DistinctKeys(same, m) && NoCapture(same, m)
    requires Elems(labels) == NewValues(m)
    requires native ==> Inequivalent(same, NewValues(m)) && Takes(Exact, Convert(Exact, m, cells), NewValues(m))
    ensures native ==> Takes(same, Convert(same, m, cells), NewValues(m))
    ensures FinalCells(Mysql, same, m, labels, native, cells) == FinalCells(Postgresql, Exact, m, labels, native, cells)
       <==> forall i :: 0 <= i < |cells| && cells[i].Text? ==> !Lookalike(same, m, cells[i].text)
  {
    CollationAgrees(same, m, cells);
    if native {
      var exact, loose := Convert(Exact, m, cells), Convert(same, m, cells);
      forall i | 0 <= i < |cells| && cells[i].Text?
        ensures loose[i].text in NewValues(m)
      {
        CollationMatters(same, m, cells[i].text);
        if Lookalike(same, m, cells[i].text) {
          LookalikeIsConverted(same, m, cells[i].text);
        }
        assert OneOf(Exact, NewValues(m), exact[i].text);
        var l :| l in NewValues(m) && Exact(exact[i].text, l);
      }
      ExactTakes(same, loose, NewValues(m));
      LabelledIsIdle(same, labels, loose);
    }
  }

  lemma ExactTakes(same: Same, cells: seq<Cell>, labels: set<string>)
    requires Equivalence(same) && Inequivalent(same, labels)
    requires forall i :: 0 <= i < |cells| && cells[i].Text? ==> cells[i].text in labels
    ensures Takes(same, cells, labels) && Takes(Exact, cells, labels)
  {
    forall i | 0 <= i < |cells| && cells[i].Text?
      ensures OneOf(same, labels, cells[i].text) && OneOf(Exact, labels, cells[i].text)
    {
      assert same(cells[i].text, cells[i].text) && Exact(cells[i].text, cells[i].text);
    }
  }

  lemma LookalikeIsConverted(same: Same, m: seq<Pair>, v: string)
    requires Equivalence(same) && DistinctKeys(same, m) && NoCapture(same, m) && Lookalike(same, m, v)
    ensures Sequential(same, m, v) in NewValues(m)
  {
    var i :| 0 <= i < |m| && Changes(m[i]) && same(v, m[i].0) && v != m[i].0 && v != m[i].1;
    AgreesAt(same, m, v);
    MappedAt(same, m, i, v);
    assert m[i] in m;
  }

  /** Under a collation that ignores case, a cell in lower case is converted on MySQL and left alone elsewhere. */
  lemma CaseMatters(same: Same)
    requires Equivalence(same) && same("high", "HIGH")
    ensures Sequential(same, [("HIGH", "High")], "high") == "High"
    ensures Sequential(Exact, [("HIGH", "High")], "high") == "high"
  {
    assert [("HIGH", "High")][..0] == [];
  }
}
