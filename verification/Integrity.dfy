/** Why no insert of a migration ever dangles. */
module Integrity {
  import opened Relational
  import opened RowOrder
  import opened TableCopy

  /** The value goes over as it is: it does not come from a JSON column. */
  predicate PlainColumn(s: Setting, t: string, c: string)
    requires t in s.source
  {
    KindOf(s.source[t].columns, c) != JsonKind
  }

  /** Rows have the columns of their table, and structured values only in JSON columns. */
  predicate RowFits(t: Table, row: Row) {
    && row.Keys == ColumnNames(t)
    && forall c :: c in row && KindOf(t.columns, c) != JsonKind ==> !row[c].Document?
  }

  /** What the foreign keys of a selected target table must look like for the script's ordering to cover them. */
  predicate KeyCovered(s: Setting, selected: set<string>, t: string, fk: ForeignKey)
    requires s.Knows(t)
  {
    && fk.table in selected && s.Knows(fk.table) && fk.table != HISTORY
    && |fk.columns| == |fk.referred|
    && (forall c :: c in fk.referred ==> c in ColumnNames(s.target[fk.table]) && PlainColumn(s, fk.table, c))
    && (forall c :: c in fk.columns ==> PlainColumn(s, t, c))
    && (t == HISTORY && fk.table == ITEMS ==> fk.columns == [ITEM_ID] && fk.referred == [ID])
  }

  /** A self-reference the script sorts by: it names the whole primary key, in its order. */
  predicate SortedBySelf(s: Setting, t: string, fk: ForeignKey)
    requires s.Knows(t)
  {
    fk.referred == s.target[t].primaryKey == s.source[t].primaryKey
  }

  /** Every row comes after the row it refers to, or refers to itself. */
  ghost predicate ComesInOrder(ordered: seq<Row>, fk: ForeignKey) {
    forall i :: 0 <= i < |ordered| && Null !in KeyOf(ordered[i], fk.columns) ==>
      exists j :: 0 <= j <= i && KeyOf(ordered[j], fk.referred) == KeyOf(ordered[i], fk.columns)
  }

  /** Self-references the script does not sort by are in order in the one order the rows are copied in. */
  ghost predicate SelfInOrder(s: Setting, t: string, rows: seq<Row>)
    requires s.Knows(t)
  {
    forall fk, ordered ::
      fk in s.target[t].foreignKeys && fk.table == t && !SortedBySelf(s, t, fk) && InCopyOrder(s, t, rows, ordered)
      ==> ComesInOrder(ordered, fk)
  }

  predicate SchemasCovered(s: Setting, selected: set<string>) {
    forall t :: t in selected ==>
      s.Knows(t) && forall fk :: fk in s.target[t].foreignKeys ==> KeyCovered(s, selected, t, fk)
  }

  /** The source has no dangling reference, save for history rows whose item is gone. */
  ghost predicate SourceSound(s: Setting, source: Content, selected: set<string>) {
    forall t, row :: t in selected && t in source && t in s.source && t in s.target && row in source[t] ==>
      && RowFits(s.source[t], row)
      && forall fk :: fk in s.target[t].foreignKeys ==>
           Satisfied(source, row, fk) || (t == HISTORY && fk.table == ITEMS)
  }

  /** Every source row of t has arrived. */
  ghost predicate Landed(s: Setting, source: Content, content: Content, t: string)
    requires s.Knows(t)
  {
    t in source && t in content && forall row :: row in source[t] ==> s.Adapt(t, row) in content[t]
  }

  /**
   * Key columns survive the copy: either the key reads the same, or one of its columns is lost and it refers to
   * nothing.
   */
  lemma AdaptedKey(s: Setting, t: string, row: Row, columns: seq<string>)
    requires s.Knows(t) && RowFits(s.source[t], row) && forall c :: c in columns ==> PlainColumn(s, t, c)
    ensures KeyOf(s.Adapt(t, row), columns) == KeyOf(row, columns) || Null in KeyOf(s.Adapt(t, row), columns)
  {
    var a, b := KeyOf(s.Adapt(t, row), columns), KeyOf(row, columns);
    if Null !in a {
      forall i | 0 <= i < |columns| ensures a[i] == b[i] {
        assert columns[i] in columns;
        assert a[i] in a;
        AdaptedCell(s, t, row, columns[i]);
      }
    }
  }

  lemma AdaptedCell(s: Setting, t: string, row: Row, c: string)
    requires s.Knows(t) && RowFits(s.source[t], row) && PlainColumn(s, t, c)
    ensures Cell(s.Adapt(t, row), c) == if c in s.Transferable(t) then Cell(row, c) else Null
  {
  }

  /** A parent that a non-NULL key refers to is found under the same key after the copy. */
  lemma AdaptedParent(s: Setting, t: string, parent: Row, columns: seq<string>)
    requires s.Knows(t) && RowFits(s.source[t], parent) && Null !in KeyOf(parent, columns)
    requires forall c :: c in columns ==> c in ColumnNames(s.target[t]) && PlainColumn(s, t, c)
    ensures KeyOf(s.Adapt(t, parent), columns) == KeyOf(parent, columns)
  {
    var a, b := KeyOf(s.Adapt(t, parent), columns), KeyOf(parent, columns);
    forall i | 0 <= i < |columns| ensures a[i] == b[i] {
      assert columns[i] in columns && b[i] in b;
      AdaptedCell(s, t, parent, columns[i]);
    }
  }

  /** Where the row at position i of the copy order stands when it goes in. */
  ghost predicate ReadyFor(s: Setting, source: Content, selected: set<string>, content: Content, t: string)
    requires SchemasCovered(s, selected) && t in selected
  {
    && t in source && t in content
    && (forall fk :: fk in s.target[t].foreignKeys && fk.table != t ==> Landed(s, source, content, fk.table))
  }

  lemma RowLands(s: Setting, source: Content, selected: set<string>, content: Content, t: string, existing: set<Key>,
                 ordered: seq<Row>, i: nat)
    requires SchemasCovered(s, selected) && SourceSound(s, source, selected) && t in selected
    requires ReadyFor(s, source, selected, content, t) && SelfInOrder(s, t, source[t])
    requires InCopyOrder(s, t, source[t], ordered) && i < |ordered|
    requires t == HISTORY ==> existing == KeyValues(RowsOf(content, ITEMS), [ID])
    requires s.Kept(t, existing, ordered[i])
    ensures var payload := s.Transfer(t, existing, ordered[..i]) + [s.Adapt(t, ordered[i])];
            RowSatisfied(s.target, Append(content, t, payload), t, s.Adapt(t, ordered[i]))
  {
    forall fk | fk in s.target[t].foreignKeys
      ensures Satisfied(Append(content, t, s.Transfer(t, existing, ordered[..i]) + [s.Adapt(t, ordered[i])]),
                        s.Adapt(t, ordered[i]), fk)
    {
      ReferenceLands(s, source, selected, content, t, existing, ordered, i, fk);
    }
  }

  lemma ReferenceLands(s: Setting, source: Content, selected: set<string>, content: Content, t: string,
                       existing: set<Key>, ordered: seq<Row>, i: nat, fk: ForeignKey)
    requires SchemasCovered(s, selected) && SourceSound(s, source, selected) && t in selected
    requires ReadyFor(s, source, selected, content, t) && SelfInOrder(s, t, source[t])
    requires InCopyOrder(s, t, source[t], ordered) && i < |ordered|
    requires t == HISTORY ==> existing == KeyValues(RowsOf(content, ITEMS), [ID])
    requires s.Kept(t, existing, ordered[i]) && fk in s.target[t].foreignKeys
    ensures var payload := s.Transfer(t, existing, ordered[..i]) + [s.Adapt(t, ordered[i])];
            Satisfied(Append(content, t, payload), s.Adapt(t, ordered[i]), fk)
  {
    var row := ordered[i];
    var payload := s.Transfer(t, existing, ordered[..i]) + [s.Adapt(t, row)];
    var after := Append(content, t, payload);
    OrderedRowIsSource(s, t, source[t], ordered, i);
    assert KeyCovered(s, selected, t, fk);
    AdaptedKey(s, t, row, fk.columns);
    hide Setting.Transfer, Setting.Adapt, Setting.Kept, InCopyOrder, SelfInOrder;
    if Null !in KeyOf(s.Adapt(t, row), fk.columns) {
      if t == HISTORY && fk.table == ITEMS {
        KeptItemIsThere(s, content, row, fk);
        var p :| p in RowsOf(content, ITEMS) && KeyOf(p, [ID]) == KeyOf(s.Adapt(t, row), fk.columns);
        assert p in after[ITEMS];
      } else if fk.table == t {
        SelfReferenceLands(s, source, selected, t, existing, ordered, i, fk);
        var p :| p in payload && KeyOf(p, fk.referred) == KeyOf(s.Adapt(t, row), fk.columns);
        assert p in after[t];
      } else {
        var p :| p in source[fk.table] && KeyOf(p, fk.referred) == KeyOf(row, fk.columns);
        AdaptedParent(s, fk.table, p, fk.referred);
        assert s.Adapt(fk.table, p) in after[fk.table];
      }
    }
  }

  lemma OrderedRowIsSource(s: Setting, t: string, rows: seq<Row>, ordered: seq<Row>, i: nat)
    requires s.Knows(t) && InCopyOrder(s, t, rows, ordered) && i < |ordered|
    ensures ordered[i] in rows
  {
    CopyOrderIsParentsFirst(s, t, rows, ordered);
    assert ordered[i] in multiset(ordered);
    assert ordered[i] in multiset(rows);
  }

  /**
   * The filter looks the item up before values are adapted; the key is plain, so it finds what the row will refer to.
   */
  lemma KeptItemIsThere(s: Setting, content: Content, row: Row, fk: ForeignKey)
    requires s.Knows(HISTORY) && RowFits(s.source[HISTORY], row)
    requires fk.columns == [ITEM_ID] && PlainColumn(s, HISTORY, ITEM_ID)
    requires s.Kept(HISTORY, KeyValues(RowsOf(content, ITEMS), [ID]), row)
    requires Null !in KeyOf(s.Adapt(HISTORY, row), fk.columns)
    ensures exists p :: p in RowsOf(content, ITEMS) && KeyOf(p, [ID]) == KeyOf(s.Adapt(HISTORY, row), fk.columns)
  {
    var k := KeyOf(s.Adapt(HISTORY, row), fk.columns);
    AdaptedCell(s, HISTORY, row, ITEM_ID);
    assert k[0] in k;
    assert k == [Cell(row, ITEM_ID)];
    assert Cell(s.Project(HISTORY, row), ITEM_ID) == Cell(row, ITEM_ID);
  }

  lemma SelfReferenceLands(s: Setting, source: Content, selected: set<string>, t: string, existing: set<Key>,
                           ordered: seq<Row>, i: nat, fk: ForeignKey)
    requires SchemasCovered(s, selected) && SourceSound(s, source, selected) && t in selected && t in source
    requires InCopyOrder(s, t, source[t], ordered) && SelfInOrder(s, t, source[t]) && i < |ordered|
    requires fk in s.target[t].foreignKeys && fk.table == t
    requires Null !in KeyOf(s.Adapt(t, ordered[i]), fk.columns)
    ensures exists p :: p in s.Transfer(t, existing, ordered[..i]) + [s.Adapt(t, ordered[i])]
                     && KeyOf(p, fk.referred) == KeyOf(s.Adapt(t, ordered[i]), fk.columns)
  {
    hide Setting.Transfer, Setting.Adapt, Setting.Kept, InCopyOrder, SelfInOrder;
    var row := ordered[i];
    assert KeyCovered(s, selected, t, fk);
    OrderedRowIsSource(s, t, source[t], ordered, i);
    AdaptedKey(s, t, row, fk.columns);
    var j := EarlierParent(s, source, selected, t, ordered, i, fk);
    OrderedRowIsSource(s, t, source[t], ordered, j);
    AdaptedParent(s, t, ordered[j], fk.referred);
    hide SchemasCovered, SourceSound, KeyCovered;
    var payload := s.Transfer(t, existing, ordered[..i]) + [s.Adapt(t, row)];
    if j < i {
      UnfilteredIsTransferred(s, t, existing, ordered[..i], j);
      assert payload[j] == s.Adapt(t, ordered[j]) && payload[j] in payload;
    } else {
      assert payload[|payload| - 1] == s.Adapt(t, row) && payload[|payload| - 1] in payload;
    }
  }

  /** Sorted by the script or in order anyway, the parent is written no later than the child. */
  lemma EarlierParent(s: Setting, source: Content, selected: set<string>, t: string, ordered: seq<Row>, i: nat,
                      fk: ForeignKey)
    returns (j: nat)
    requires SchemasCovered(s, selected) && SourceSound(s, source, selected) && t in selected && t in source
    requires InCopyOrder(s, t, source[t], ordered) && SelfInOrder(s, t, source[t]) && i < |ordered|
    requires fk in s.target[t].foreignKeys && fk.table == t && Null !in KeyOf(ordered[i], fk.columns)
    ensures j <= i && KeyOf(ordered[j], fk.referred) == KeyOf(ordered[i], fk.columns)
  {
    if !SortedBySelf(s, t, fk) {
      assert ComesInOrder(ordered, fk);
      j :| 0 <= j <= i && KeyOf(ordered[j], fk.referred) == KeyOf(ordered[i], fk.columns);
    } else if KeyOf(ordered[i], fk.columns) == KeyOf(ordered[i], fk.referred) {
      j := i;
    } else {
      j := SortedParent(s, source, selected, t, ordered, i, fk);
    }
  }

  lemma SortedParent(s: Setting, source: Content, selected: set<string>, t: string, ordered: seq<Row>, i: nat,
                     fk: ForeignKey)
    returns (j: nat)
    requires SchemasCovered(s, selected) && SourceSound(s, source, selected) && t in selected && t in source
    requires InCopyOrder(s, t, source[t], ordered) && i < |ordered| && SortedBySelf(s, t, fk)
    requires fk in s.target[t].foreignKeys && fk.table == t && Null !in KeyOf(ordered[i], fk.columns)
    requires KeyOf(ordered[i], fk.columns) != KeyOf(ordered[i], fk.referred)
    ensures j < i && KeyOf(ordered[j], fk.referred) == KeyOf(ordered[i], fk.columns)
  {
    var pk, key, rows := s.source[t].primaryKey, KeyOf(ordered[i], fk.columns), source[t];
    CopyOrderIsParentsFirst(s, t, rows, ordered);
    OrderedRowIsSource(s, t, rows, ordered, i);
    assert KeyCovered(s, selected, t, fk);
    assert Satisfied(source, ordered[i], fk);
    assert pk == fk.referred && (fk.columns, fk.referred) in s.Specs(t);
    hide InCopyOrder, SchemasCovered, SourceSound, KeyCovered, SortedBySelf, Setting.Specs, ParentsFirst;
    var parent :| parent in rows && KeyOf(parent, pk) == key;
    j := ParentBefore(rows, pk, s.Specs(t), ordered, i, fk.columns, parent);
  }

  lemma ParentBefore(rows: seq<Row>, pk: seq<string>, specs: set<Spec>, ordered: seq<Row>, i: nat,
                     columns: seq<string>, parent: Row)
    returns (j: nat)
    requires ParentsFirst(rows, pk, specs, ordered) && i < |ordered| && (columns, pk) in specs && parent in rows
    requires var key := KeyOf(ordered[i], columns);
      Null !in key && key != KeyOf(ordered[i], pk) && key == KeyOf(parent, pk)
    ensures j < i && KeyOf(ordered[j], pk) == KeyOf(ordered[i], columns)
  {
    var m :| 0 <= m < |rows| && rows[m] == parent;
    assert Keys(rows, pk)[m] == KeyOf(parent, pk);
    j :| 0 <= j < i && KeyOf(ordered[j], pk) == KeyOf(ordered[i], columns);
  }

  lemma {:induction false} UnfilteredIsTransferred(s: Setting, t: string, existing: set<Key>, rows: seq<Row>, j: nat)
    requires s.Knows(t) && t != HISTORY && j < |rows|
    ensures |s.Transfer(t, existing, rows)| == |rows| && s.Transfer(t, existing, rows)[j] == s.Adapt(t, rows[j])
    ensures s.Adapt(t, rows[j]) in s.Transfer(t, existing, rows)
  {
    hide Setting.Adapt, Setting.Project, Setting.Transferable;
    var n := |rows| - 1;
    if n > 0 {
      UnfilteredIsTransferred(s, t, existing, rows[..n], if j < n then j else 0);
    } else {
      assert s.Transfer(t, existing, rows[..n]) == [];
    }
  }

  /** What has been written when the row at position i is next. */
  ghost function Before(s: Setting, t: string, existing: set<Key>, ordered: seq<Row>, i: nat): seq<Row>
    requires s.Knows(t) && i <= |ordered|
  {
    s.Transfer(t, existing, ordered[..i])
  }

  /** The row at position i finds what it refers to when it goes in. */
  ghost predicate Lands(s: Setting, content: Content, t: string, existing: set<Key>, ordered: seq<Row>, i: nat)
    requires s.Knows(t) && i < |ordered|
  {
    s.Kept(t, existing, ordered[i]) ==>
      RowSatisfied(s.target, Append(content, t, Before(s, t, existing, ordered, i) + [s.Adapt(t, ordered[i])]), t,
                   s.Adapt(t, ordered[i]))
  }

  lemma {:induction false} RowByRow(s: Setting, content: Content, t: string, existing: set<Key>, ordered: seq<Row>,
                                    i: nat)
    requires s.Knows(t) && i <= |ordered| && forall j :: 0 <= j < i ==> Lands(s, content, t, existing, ordered, j)
    ensures Insertable(s.target, content, t, Before(s, t, existing, ordered, i))
  {
    if i > 0 {
      hide *;
      RowByRow(s, content, t, existing, ordered, i - 1);
      OneMoreLands(s, content, t, existing, ordered, i - 1);
    }
  }

  lemma OneMoreLands(s: Setting, content: Content, t: string, existing: set<Key>, ordered: seq<Row>, i: nat)
    requires s.Knows(t) && i < |ordered| && Lands(s, content, t, existing, ordered, i)
    requires Insertable(s.target, content, t, Before(s, t, existing, ordered, i))
    ensures Insertable(s.target, content, t, Before(s, t, existing, ordered, i + 1))
  {
    assert ordered[..i + 1][..i] == ordered[..i];
    var rows, row := Before(s, t, existing, ordered, i), s.Adapt(t, ordered[i]);
    if s.Kept(t, existing, ordered[i]) {
      assert Before(s, t, existing, ordered, i + 1) == rows + [row];
      OneMoreInsertable(s.target, content, t, rows, row);
    } else {
      assert Before(s, t, existing, ordered, i + 1) == rows;
    }
  }

  /** No row of the table dangles as it goes in. */
  lemma TableLands(s: Setting, source: Content, selected: set<string>, content: Content, t: string,
                   existing: set<Key>, ordered: seq<Row>)
    requires SchemasCovered(s, selected) && SourceSound(s, source, selected) && t in selected
    requires ReadyFor(s, source, selected, content, t) && InCopyOrder(s, t, source[t], ordered)
    requires SelfInOrder(s, t, source[t])
    requires t == HISTORY ==> existing == KeyValues(RowsOf(content, ITEMS), [ID])
    ensures Insertable(s.target, content, t, s.Transfer(t, existing, ordered))
  {
    assert s.Knows(t);
    hide Setting.Transfer, Setting.Adapt, SchemasCovered, SourceSound, ReadyFor, InCopyOrder, SelfInOrder, Insertable;
    hide RowSatisfied, KeyValues, RowsOf;
    forall i | 0 <= i < |ordered| ensures Lands(s, content, t, existing, ordered, i) {
      if s.Kept(t, existing, ordered[i]) {
        RowLands(s, source, selected, content, t, existing, ordered, i);
      }
    }
    assert ordered[..|ordered|] == ordered;
    RowByRow(s, content, t, existing, ordered, |ordered|);
  }

  lemma OneMoreInsertable(schema: Schema, content: Content, t: string, rows: seq<Row>, row: Row)
    requires Insertable(schema, content, t, rows) && RowSatisfied(schema, Append(content, t, rows + [row]), t, row)
    ensures Insertable(schema, content, t, rows + [row])
  {
    var all := rows + [row];
    forall k | 0 <= k < |all| ensures RowSatisfied(schema, Append(content, t, all[..k + 1]), t, all[k]) {
      if k < |rows| {
        assert all[..k + 1] == rows[..k + 1];
        assert RowSatisfied(schema, Append(content, t, rows[..k + 1]), t, rows[k]);
      } else {
        assert all[..k + 1] == all;
      }
    }
  }

  /** So every state a table passes through while its rows go in is consistent. */
  lemma InsertKeepsConsistent(schema: Schema, content: Content, t: string, rows: seq<Row>, k: nat)
    requires Consistent(schema, content) && Insertable(schema, content, t, rows) && k <= |rows| && t in content
    ensures Consistent(schema, Append(content, t, rows[..k]))
  {
  }

  // ---- self-references the script does not sort by ----

  /** The rows of an empty table can go in if and only if those references are in order in the copy order already. */
  lemma SelfReferencesNeedOrder(s: Setting, source: Content, selected: set<string>, content: Content, t: string,
                                ordered: seq<Row>)
    requires SchemasCovered(s, selected) && SourceSound(s, source, selected) && t in selected && t != HISTORY
    requires ReadyFor(s, source, selected, content, t) && InCopyOrder(s, t, source[t], ordered) && content[t] == []
    requires forall fk, c :: fk in s.target[t].foreignKeys && fk.table == t && c in fk.columns ==>
      c in s.Transferable(t)
    ensures Insertable(s.target, content, t, s.Transfer(t, {}, ordered)) <==> SelfInOrder(s, t, source[t])
  {
    hide SourceSound, KeyCovered, Insertable, Setting.Transfer, Setting.Transferable, InCopyOrder;
    if SelfInOrder(s, t, source[t]) {
      TableLands(s, source, selected, content, t, {}, ordered);
    } else {
      var fk, other :| fk in s.target[t].foreignKeys && fk.table == t && !SortedBySelf(s, t, fk)
        && InCopyOrder(s, t, source[t], other) && !ComesInOrder(other, fk);
      CopyOrderIsUnique(s, t, source[t], ordered, other);
      var i :| 0 <= i < |ordered| && Null !in KeyOf(ordered[i], fk.columns)
        && !exists j :: 0 <= j <= i && KeyOf(ordered[j], fk.referred) == KeyOf(ordered[i], fk.columns);
      assert ReadyFor(s, source, selected, content, t);
      LateParentDangles(s, source, selected, content, t, ordered, fk, i);
    }
  }

  lemma LateParentDangles(s: Setting, source: Content, selected: set<string>, content: Content, t: string,
                          ordered: seq<Row>, fk: ForeignKey, i: nat)
    requires SchemasCovered(s, selected) && SourceSound(s, source, selected) && t in selected && t != HISTORY
    requires ReadyFor(s, source, selected, content, t) && content[t] == [] && InCopyOrder(s, t, source[t], ordered)
    requires fk in s.target[t].foreignKeys && fk.table == t && forall c :: c in fk.columns ==> c in s.Transferable(t)
    requires i < |ordered| && Null !in KeyOf(ordered[i], fk.columns)
    requires !exists j :: 0 <= j <= i && KeyOf(ordered[j], fk.referred) == KeyOf(ordered[i], fk.columns)
    ensures !Insertable(s.target, content, t, s.Transfer(t, {}, ordered))
  {
    var payload, key := s.Transfer(t, {}, ordered), KeyOf(ordered[i], fk.columns);
    assert KeyCovered(s, selected, t, fk);
    OrderedRowIsSource(s, t, source[t], ordered, i);
    UnfilteredIsTransferred(s, t, {}, ordered, i);
    AdaptedWhole(s, t, ordered[i], fk.columns);
    hide InCopyOrder, SchemasCovered, SourceSound, KeyCovered, SelfInOrder, Setting.Adapt, Setting.Transfer;
    forall j | 0 <= j <= i ensures KeyOf(payload[j], fk.referred) != key {
      OtherKeyStaysOther(s, source, selected, t, ordered, fk, j, key);
    }
    var after := Append(content, t, payload[..i + 1]);
    assert after[t] == payload[..i + 1];
    assert !Satisfied(after, payload[i], fk);
    assert !RowSatisfied(s.target, after, t, payload[i]);
  }

  lemma OtherKeyStaysOther(s: Setting, source: Content, selected: set<string>, t: string, ordered: seq<Row>,
                           fk: ForeignKey, j: nat, key: Key)
    requires SchemasCovered(s, selected) && SourceSound(s, source, selected) && t in selected && t != HISTORY
    requires t in source && InCopyOrder(s, t, source[t], ordered) && j < |ordered|
    requires fk in s.target[t].foreignKeys && fk.table == t && Null !in key && KeyOf(ordered[j], fk.referred) != key
    ensures |s.Transfer(t, {}, ordered)| == |ordered| && KeyOf(s.Transfer(t, {}, ordered)[j], fk.referred) != key
  {
    assert KeyCovered(s, selected, t, fk);
    OrderedRowIsSource(s, t, source[t], ordered, j);
    UnfilteredIsTransferred(s, t, {}, ordered, j);
    AdaptedKey(s, t, ordered[j], fk.referred);
  }

  lemma AdaptedWhole(s: Setting, t: string, row: Row, columns: seq<string>)
    requires s.Knows(t) && RowFits(s.source[t], row)
    requires forall c :: c in columns ==> PlainColumn(s, t, c) && c in s.Transferable(t)
    ensures KeyOf(s.Adapt(t, row), columns) == KeyOf(row, columns)
  {
    var a, b := KeyOf(s.Adapt(t, row), columns), KeyOf(row, columns);
    forall i | 0 <= i < |columns| ensures a[i] == b[i] {
      assert columns[i] in columns;
      AdaptedCell(s, t, row, columns[i]);
    }
  }

  /** Rows that refer to a code instead of the primary key, the first of them to the second. */
  const REFERENCE := ForeignKey(["parent"], "nodes", ["code"])
  const NODES := Table([Column("id", OtherKind), Column("code", StringKind), Column("parent", StringKind)], ["id"],
                       [REFERENCE])
  const CHILD: Row := map["id" := Number(1), "code" := Text("a"), "parent" := Text("b")]
  const PARENT: Row := map["id" := Number(2), "code" := Text("b"), "parent" := Null]

  /** Such a source is consistent, but the sort passes the reference over and the first row cannot go in. */
  lemma PassedOverSelfReferenceDangles(dumps: Value -> string)
    ensures var s, source := NodesSetting(dumps), map["nodes" := [CHILD, PARENT]];
      && Consistent(s.source, source) && SchemasCovered(s, {"nodes"}) && SourceSound(s, source, {"nodes"})
      && InCopyOrder(s, "nodes", [CHILD, PARENT], [CHILD, PARENT])
      && !Insertable(s.target, map["nodes" := []], "nodes", s.Transfer("nodes", {}, [CHILD, PARENT]))
  {
    var s, source, rows := NodesSetting(dumps), map["nodes" := [CHILD, PARENT]], [CHILD, PARENT];
    NodesKeys();
    NodesAreSound(dumps);
    NodesColumns(s);
    assert s.Specs("nodes") == {};
    assert !ComesInOrder(rows, REFERENCE) by {
      assert KeyOf(rows[0], ["parent"]) == [Text("b")] && KeyOf(rows[0], ["code"]) == [Text("a")];
    }
    hide Setting.Transfer, Setting.Adapt, SourceSound, SchemasCovered, Insertable, ComesInOrder, NODES;
    assert !SelfInOrder(s, "nodes", rows);
    SelfReferencesNeedOrder(s, source, {"nodes"}, map["nodes" := []], "nodes", rows);
  }

  function NodesSetting(dumps: Value -> string): Setting {
    Setting(map["nodes" := NODES], map["nodes" := NODES], dumps)
  }

  lemma NodesKeys()
    ensures KeyOf(CHILD, ["parent"]) == [Text("b")] && KeyOf(CHILD, ["code"]) == [Text("a")]
    ensures KeyOf(PARENT, ["code"]) == [Text("b")] && KeyOf(PARENT, ["parent"]) == [Null]
  {
  }

  lemma NodesColumns(s: Setting)
    requires s.Knows("nodes") && s.source["nodes"] == NODES && s.target["nodes"] == NODES
    ensures "parent" in s.Transferable("nodes")
  {
    assert NODES.columns[2] in NODES.columns;
  }

  lemma NodesAreSound(dumps: Value -> string)
    ensures var s, source := NodesSetting(dumps), map["nodes" := [CHILD, PARENT]];
      Consistent(s.source, source) && SchemasCovered(s, {"nodes"}) && SourceSound(s, source, {"nodes"})
  {
    var s, source := NodesSetting(dumps), map["nodes" := [CHILD, PARENT]];
    NodesFit(s);
    NodesReferToEachOther(source);
    assert NODES.foreignKeys == [REFERENCE];
    hide *;
    NodesConsistent(s, source);
    NodesCovered(s);
  }

  lemma NodesConsistent(s: Setting, source: Content)
    requires s.source == s.target == map["nodes" := NODES] && NODES.foreignKeys == [REFERENCE]
    requires source == map["nodes" := [CHILD, PARENT]] && RowFits(NODES, CHILD) && RowFits(NODES, PARENT)
    requires Satisfied(source, CHILD, REFERENCE) && Satisfied(source, PARENT, REFERENCE)
    ensures Consistent(s.source, source) && SourceSound(s, source, {"nodes"})
  {
    hide Satisfied, RowFits, NODES, REFERENCE, CHILD, PARENT;
  }

  lemma NodesCovered(s: Setting)
    requires s.Knows("nodes") && s.target["nodes"].foreignKeys == [REFERENCE]
    requires KeyCovered(s, {"nodes"}, "nodes", REFERENCE)
    ensures SchemasCovered(s, {"nodes"})
  {
    hide KeyCovered, REFERENCE;
  }

  lemma NodesReferToEachOther(source: Content)
    requires source == map["nodes" := [CHILD, PARENT]]
    ensures Satisfied(source, CHILD, REFERENCE) && Satisfied(source, PARENT, REFERENCE)
  {
    NodesKeys();
    assert source["nodes"][1] in source["nodes"];
    assert [Null][0] in KeyOf(PARENT, ["parent"]);
  }

  lemma NodesFit(s: Setting)
    requires s.Knows("nodes") && s.source["nodes"] == NODES && s.target["nodes"] == NODES
    ensures KeyCovered(s, {"nodes"}, "nodes", REFERENCE) && RowFits(NODES, CHILD) && RowFits(NODES, PARENT)
  {
    assert NODES.columns[0] in NODES.columns && NODES.columns[1] in NODES.columns && NODES.columns[2] in NODES.columns;
    assert ColumnNames(NODES) == {"id", "code", "parent"};
  }
}
