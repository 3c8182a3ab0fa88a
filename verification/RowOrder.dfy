/** Parent-first ordering of the rows of a table that refers to itself. */
module RowOrder {
  import opened Ordering
  import opened Relational
  import opened Kahn

  /** A self-reference that the script takes into account: the referring columns and the primary key. */
  type Spec = (seq<string>, seq<string>)

  /** Self-references to anything but the whole primary key, in its order, are passed over. */
  function OwnSpecs(name: string, t: Table): set<Spec> {
    set fk | fk in t.foreignKeys && fk.table == name && fk.referred == t.primaryKey :: (fk.columns, fk.referred)
  }

  method SelfReferentialSpecs(name: string, tables: seq<Table>) returns (specs: seq<Spec>)
    ensures NoDup(specs)
    ensures Elems(specs) == set t, s | t in tables && s in OwnSpecs(name, t) :: s
  {
    specs := [];
    var seen: set<Spec> := {};
    for i := 0 to |tables|
      invariant NoDup(specs) && Elems(specs) == seen
      invariant seen == set t, s | t in tables[..i] && s in OwnSpecs(name, t) :: s
    {
      var table := tables[i];
      assert tables[..i + 1] == tables[..i] + [table];
      ghost var before := seen;
      for j := 0 to |table.foreignKeys|
        invariant NoDup(specs) && Elems(specs) == seen
        invariant seen == before + OwnSpecs(name, table.(foreignKeys := table.foreignKeys[..j]))
      {
        var fk := table.foreignKeys[j];
        assert table.foreignKeys[..j + 1] == table.foreignKeys[..j] + [fk];
        ghost var upTo := table.(foreignKeys := table.foreignKeys[..j]);
        ghost var next := table.(foreignKeys := table.foreignKeys[..j + 1]);
        var spec := (fk.columns, fk.referred);
        assert OwnSpecs(name, next) == OwnSpecs(name, upTo)
          + if fk.table == name && fk.referred == table.primaryKey then {spec} else {};
        if fk.table == name && fk.referred == table.primaryKey && spec !in seen {
          assert spec !in Elems(specs);
          seen := seen + {spec};
          specs := specs + [spec];
        }
      }
      assert table.foreignKeys[..|table.foreignKeys|] == table.foreignKeys;
    }
    assert tables[..|tables|] == tables;
  }

  // ---- the row graph ----

  function ByKey(rows: seq<Row>, pk: seq<string>): map<Key, Row> {
    if rows == [] then map[]
    else ByKey(rows[..|rows| - 1], pk)[KeyOf(rows[|rows| - 1], pk) := rows[|rows| - 1]]
  }

  function Keys(rows: seq<Row>, pk: seq<string>): seq<Key> {
    seq(|rows|, i requires 0 <= i < |rows| => KeyOf(rows[i], pk))
  }

  /** The other rows of the batch that a row refers to, over all its self-references. */
  function Parents(byKey: map<Key, Row>, key: Key, row: Row, specs: set<Spec>): set<Key> {
    set s | s in specs && Null !in KeyOf(row, s.0) && KeyOf(row, s.0) != key && KeyOf(row, s.0) in byKey
      :: KeyOf(row, s.0)
  }

  function RowGraph(byKey: map<Key, Row>, specs: set<Spec>): map<Key, set<Key>> {
    map k | k in byKey :: Parents(byKey, k, byKey[k], specs)
  }

  /** Reading a column the result set does not have raises. */
  predicate ColumnsKnown(columns: set<string>, pk: seq<string>, specs: set<Spec>) {
    && (forall c :: c in pk ==> c in columns)
    && (forall s :: s in specs ==> forall c :: c in s.0 ==> c in columns)
  }

  datatype SortResult = Ordered(rows: seq<Row>) | RowCycle | UnknownColumn

  ghost predicate IsSorting(rows: seq<Row>, pk: seq<string>, specs: set<Spec>, order: seq<Key>, o: seq<Row>) {
    var byKey := ByKey(rows, pk);
    && IsKahnOrder(RowGraph(byKey, specs), KeyLeq, order)
    && Elems(order) == byKey.Keys && |o| == |order|
    && forall i :: 0 <= i < |order| ==> order[i] in byKey && o[i] == byKey[order[i]]
  }

  /** The rows of one result set, parents first. `order` is the key order they end up in. */
  method SortRows(rows: seq<Row>, columns: set<string>, pk: seq<string>, specs: seq<Spec>)
    returns (r: SortResult, ghost order: seq<Key>)
    requires forall row :: row in rows ==> row.Keys == columns
    ensures rows == [] || specs == [] ==> r == Ordered(rows)
    ensures rows != [] && specs != [] ==>
      && (r.UnknownColumn? <==> !ColumnsKnown(columns, pk, Elems(specs)))
      && (r.Ordered? <==> ColumnsKnown(columns, pk, Elems(specs)) && NoDup(Keys(rows, pk))
                          && Acyclic(RowGraph(ByKey(rows, pk), Elems(specs))))
      && (r.Ordered? ==> IsSorting(rows, pk, Elems(specs), order, r.rows))
  {
    hide NoDup, Acyclic, RowGraph, Parents;
    order := [];
    if rows == [] || specs == [] {
      return Ordered(rows), [];
    }
    if !ColumnsKnown(columns, pk, Elems(specs)) {
      return UnknownColumn, [];
    }
    var byKey := IndexRows(rows, pk);
    var graph := BuildRowGraph(byKey, specs);
    var keys := OrderKeys(graph);
    order := keys;
    CompleteCount(rows, pk, Elems(specs), keys);
    if |keys| == |rows| {
      r := Ordered(seq(|keys|, i requires 0 <= i < |keys| && keys[i] in byKey => byKey[keys[i]]));
    } else {
      r := RowCycle;
    }
  }

  method IndexRows(rows: seq<Row>, pk: seq<string>) returns (byKey: map<Key, Row>)
    requires forall row :: row in rows ==> forall c :: c in pk ==> c in row
    ensures byKey == ByKey(rows, pk)
  {
    byKey := map[];
    for k := 0 to |rows|
      invariant byKey == ByKey(rows[..k], pk)
    {
      assert rows[..k + 1][..k] == rows[..k];
      byKey := byKey[KeyOf(rows[k], pk) := rows[k]];
    }
    assert rows[..|rows|] == rows;
  }

  method OrderKeys(graph: map<Key, set<Key>>) returns (keys: seq<Key>)
    requires Closed(graph)
    ensures IsKahnOrder(graph, KeyLeq, keys)
  {
    KeyLeqIsTotal();
    keys := TopologicalOrder(graph, KeyLeq);
  }

  /** Comparing lengths, as the script does, tells both a repeated key and a cycle. */
  lemma CompleteCount(rows: seq<Row>, pk: seq<string>, specs: set<Spec>, keys: seq<Key>)
    requires var g := RowGraph(ByKey(rows, pk), specs); Closed(g) && IsKahnOrder(g, KeyLeq, keys)
    ensures var g := RowGraph(ByKey(rows, pk), specs);
            && (|keys| == |rows| <==> NoDup(Keys(rows, pk)) && Acyclic(g))
            && (|keys| == |rows| ==> Elems(keys) == ByKey(rows, pk).Keys)
  {
    var byKey := ByKey(rows, pk);
    var g := RowGraph(byKey, specs);
    assert g.Keys == byKey.Keys;
    assert |g| == |g.Keys| && |byKey| == |byKey.Keys|;
    CompleteIffAcyclic(g, KeyLeq, keys);
    ByKeyIsIndex(rows, pk);
    ElemsCardinality(Keys(rows, pk));
    NoDupCardinality(keys);
    SubsetCardinality(Elems(keys), g.Keys);
  }

  /** The loop that collects, for every row, the keys of the rows it must follow. */
  method BuildRowGraph(byKey: map<Key, Row>, specs: seq<Spec>) returns (graph: map<Key, set<Key>>)
    ensures graph == RowGraph(byKey, Elems(specs)) && Closed(graph)
  {
    graph := map[];
    var todo := byKey.Keys;
    while todo != {}
      invariant todo <= byKey.Keys
      invariant graph == map k | k in byKey && k !in todo :: Parents(byKey, k, byKey[k], Elems(specs))
      decreases todo
    {
      var key :| key in todo;
      var row := byKey[key];
      var dependencies: set<Key> := {};
      for i := 0 to |specs|
        invariant dependencies == Parents(byKey, key, row, Elems(specs[..i]))
      {
        assert specs[..i + 1] == specs[..i] + [specs[i]];
        var dependency := KeyOf(row, specs[i].0);
        assert Parents(byKey, key, row, Elems(specs[..i + 1])) == Parents(byKey, key, row, Elems(specs[..i]))
          + if Null !in dependency && dependency != key && dependency in byKey then {dependency} else {};
        if Null !in dependency && dependency != key && dependency in byKey {
          dependencies := dependencies + {dependency};
        }
      }
      assert specs[..|specs|] == specs;
      graph := graph[key := dependencies];
      todo := todo - {key};
    }
  }

  lemma {:induction false} ByKeyIsIndex(rows: seq<Row>, pk: seq<string>)
    ensures ByKey(rows, pk).Keys == Elems(Keys(rows, pk))
    ensures forall k :: k in ByKey(rows, pk) ==> ByKey(rows, pk)[k] in rows && KeyOf(ByKey(rows, pk)[k], pk) == k
  {
    if rows != [] {
      var n := |rows| - 1;
      ByKeyIsIndex(rows[..n], pk);
      assert Keys(rows, pk) == Keys(rows[..n], pk) + [KeyOf(rows[n], pk)];
      assert rows == rows[..n] + [rows[n]];
    }
  }

  lemma DistinctKeysFindRows(rows: seq<Row>, pk: seq<string>, row: Row)
    requires NoDup(Keys(rows, pk)) && row in rows
    ensures KeyOf(row, pk) in ByKey(rows, pk) && ByKey(rows, pk)[KeyOf(row, pk)] == row
  {
    ByKeyIsIndex(rows, pk);
    var i :| 0 <= i < |rows| && rows[i] == row;
    assert Keys(rows, pk)[i] == KeyOf(row, pk);
    assert KeyOf(row, pk) in Elems(Keys(rows, pk));
    var j :| 0 <= j < |rows| && rows[j] == ByKey(rows, pk)[KeyOf(row, pk)];
    assert Keys(rows, pk)[j] == KeyOf(row, pk);
  }

  // ---- what the ordering guarantees ----

  /** Every row is there once, after the other rows of the batch it refers to, over all specs at once. */
  ghost predicate ParentsFirst(rows: seq<Row>, pk: seq<string>, specs: set<Spec>, o: seq<Row>) {
    && multiset(o) == multiset(rows)
    && forall i, s :: 0 <= i < |o| && s in specs ==>
      var parent := KeyOf(o[i], s.0);
      Null !in parent && parent != KeyOf(o[i], pk) && parent in Keys(rows, pk) ==>
        exists j :: 0 <= j < i && KeyOf(o[j], pk) == parent
  }

  lemma {:induction false} SameElements<T>(a: seq<T>, b: seq<T>)
    requires NoDup(a) && NoDup(b) && Elems(a) == Elems(b)
    ensures multiset(a) == multiset(b)
  {
    forall x ensures multiset(a)[x] == multiset(b)[x] {
      NoDupMultiplicity(a, x);
      NoDupMultiplicity(b, x);
      assert x in a <==> x in Elems(a);
      assert x in b <==> x in Elems(b);
    }
  }

  lemma {:induction false} NoDupMultiplicity<T>(s: seq<T>, x: T)
    requires NoDup(s)
    ensures multiset(s)[x] == if x in s then 1 else 0
  {
    if s != [] {
      assert s == [s[0]] + s[1..];
      NoDupMultiplicity(s[1..], x);
      assert s[0] !in s[1..];
    }
  }

  lemma SortingIsParentsFirst(rows: seq<Row>, pk: seq<string>, specs: set<Spec>, order: seq<Key>, o: seq<Row>)
    requires NoDup(Keys(rows, pk)) && IsSorting(rows, pk, specs, order, o)
    ensures ParentsFirst(rows, pk, specs, o)
  {
    var byKey := ByKey(rows, pk);
    var g := RowGraph(byKey, specs);
    ByKeyIsIndex(rows, pk);
    SortingIsPermutation(rows, pk, specs, order, o);
    forall i, s | 0 <= i < |o| && s in specs && Null !in KeyOf(o[i], s.0) && KeyOf(o[i], s.0) != KeyOf(o[i], pk)
        && KeyOf(o[i], s.0) in Keys(rows, pk)
      ensures exists j :: 0 <= j < i && KeyOf(o[j], pk) == KeyOf(o[i], s.0)
    {
      var parent := KeyOf(o[i], s.0);
      assert parent in Elems(Keys(rows, pk));
      assert parent in g[order[i]];
      assert parent in Elems(order[..i]);
      var j :| 0 <= j < i && order[j] == parent;
      assert KeyOf(o[j], pk) == parent;
    }
  }

  lemma SortingIsPermutation(rows: seq<Row>, pk: seq<string>, specs: set<Spec>, order: seq<Key>, o: seq<Row>)
    requires NoDup(Keys(rows, pk)) && IsSorting(rows, pk, specs, order, o)
    ensures multiset(o) == multiset(rows)
  {
    var byKey := ByKey(rows, pk);
    ByKeyIsIndex(rows, pk);
    forall i, j | 0 <= i < j < |rows| ensures rows[i] != rows[j] {
      assert Keys(rows, pk)[i] != Keys(rows, pk)[j];
    }
    forall i, j | 0 <= i < j < |o| ensures o[i] != o[j] {
      assert order[i] != order[j];
    }
    forall row ensures row in Elems(o) <==> row in Elems(rows) {
      if row in rows {
        var k := KeyOf(row, pk);
        DistinctKeysFindRows(rows, pk, row);
        assert k in Elems(order);
        var i :| 0 <= i < |order| && order[i] == k;
        assert o[i] == row;
      }
    }
    SameElements(o, rows);
  }
}
