/** What the orphan filter of the result history does, in a good table order and in a bad one. */
module OrphanFilter {
  import opened Ordering
  import opened Relational
  import opened Kahn
  import opened RowOrder
  import opened TableCopy
  import opened Integrity
  import opened Sequences
  import opened CrossMigrate

  /** Item keys come through the copy unchanged. */
  lemma ItemKeysSurvive(s: Setting, rows: seq<Row>, existing: set<Key>, ordered: seq<Row>)
    requires s.Knows(ITEMS) && ID in s.Transferable(ITEMS) && PlainColumn(s, ITEMS, ID)
    requires multiset(ordered) == multiset(rows) && forall row :: row in rows ==> RowFits(s.source[ITEMS], row)
    ensures KeyValues(s.Transfer(ITEMS, existing, ordered), [ID]) == KeyValues(rows, [ID])
  {
    forall row | row in rows ensures KeyOf(s.Adapt(ITEMS, row), [ID]) == KeyOf(row, [ID]) {
      AdaptedCell(s, ITEMS, row, ID);
    }
    assert forall row :: row in rows <==> row in multiset(rows);
    assert forall row :: row in ordered <==> row in multiset(ordered);
    var arrived := s.Transfer(ITEMS, existing, ordered);
    assert forall row :: s.Kept(ITEMS, existing, row);
    forall p ensures p in arrived <==> exists row :: row in rows && p == s.Adapt(ITEMS, row) {
      TransferMembers(s, ITEMS, existing, ordered, p);
    }
    hide Setting.Transfer, Setting.Adapt, Setting.Kept;
    forall k | k in KeyValues(rows, [ID]) ensures k in KeyValues(arrived, [ID]) {
      var row :| row in rows && KeyOf(row, [ID]) == k;
      assert s.Adapt(ITEMS, row) in arrived;
    }
  }

  /** The history as the source's own items would have it filtered: orphans gone, nothing else. */
  ghost predicate OrphansOnlyDropped(s: Setting, source: Content, now: Content, copies: map<string, seq<Row>>)
    requires s.Knows(HISTORY) && ITEMS in source && HISTORY in now && HISTORY in copies
  {
    now[HISTORY] == s.Transfer(HISTORY, KeyValues(source[ITEMS], [ID]), copies[HISTORY])
  }

  /** With the items copied first, into a target that was emptied, only rows whose item the source lacks are dropped. */
  lemma ItemsFirstDropsOrphansOnly(s: Setting, source: Content, base: Content, now: Content, order: seq<string>,
                                   seen: set<Key>, copies: map<string, seq<Row>>, skipped: map<string, nat>,
                                   agree: bool)
    requires JobDone(s, source, base, now, order, seen, copies, skipped, agree)
    requires HISTORY in order && ITEMS in order && base[HISTORY] == base[ITEMS] == []
    requires ItemsFirst(order) && s.Transferable(HISTORY) != []
    requires ID in s.Transferable(ITEMS) && PlainColumn(s, ITEMS, ID)
    requires forall row :: row in source[ITEMS] ==> RowFits(s.source[ITEMS], row)
    ensures OrphansOnlyDropped(s, source, now, copies)
  {
    assert TableCopied(s, ITEMS, source[ITEMS], base[ITEMS], now[ITEMS], seen, copies[ITEMS], skipped);
    assert TableCopied(s, HISTORY, source[HISTORY], base[HISTORY], now[HISTORY], seen, copies[HISTORY], skipped);
    CopyOrderIsParentsFirst(s, ITEMS, source[ITEMS], copies[ITEMS]);
    assert now[ITEMS] == s.Transfer(ITEMS, seen, copies[ITEMS]);
    ItemKeysSurvive(s, source[ITEMS], seen, copies[ITEMS]);
  }

  /** A history row whose item is in the source. */
  predicate Live(s: Setting, source: Content, row: Row)
    requires s.Knows(HISTORY) && ITEMS in source
  {
    var item := Cell(s.Project(HISTORY, row), ITEM_ID);
    item != Null && [item] in KeyValues(source[ITEMS], [ID])
  }

  lemma {:induction false} EmptyFilterKeeps(s: Setting, ids: set<Key>, rows: seq<Row>)
    requires s.Knows(HISTORY)
    ensures |s.Transfer(HISTORY, {}, rows)| <= |s.Transfer(HISTORY, ids, rows)|
    ensures s.Transfer(HISTORY, {}, rows) == s.Transfer(HISTORY, ids, rows) <==>
      forall row :: row in rows ==> s.Kept(HISTORY, {}, row) == s.Kept(HISTORY, ids, row)
  {
    if rows != [] {
      var n := |rows| - 1;
      EmptyFilterKeeps(s, ids, rows[..n]);
      assert rows == rows[..n] + [rows[n]];
      var a, b := s.Transfer(HISTORY, {}, rows[..n]), s.Transfer(HISTORY, ids, rows[..n]);
      if s.Transfer(HISTORY, {}, rows) == s.Transfer(HISTORY, ids, rows) {
        assert s.Kept(HISTORY, {}, rows[n]) == s.Kept(HISTORY, ids, rows[n]);
        assert a == s.Transfer(HISTORY, {}, rows)[..|a|] && b == s.Transfer(HISTORY, ids, rows)[..|b|];
      }
    }
  }

  /**
   * With the history copied first, into a target that was emptied, the filter sees no items: the job still reports
   * matching counts, yet it is right if and only if no history row has a living item.
   */
  lemma HistoryFirstLosesLiveRows(s: Setting, source: Content, base: Content, now: Content, order: seq<string>,
                                  seen: set<Key>, copies: map<string, seq<Row>>, skipped: map<string, nat>, agree: bool)
    requires JobDone(s, source, base, now, order, seen, copies, skipped, agree)
    requires HISTORY in order && ITEMS in order && !ItemsFirst(order)
    requires forall t :: t in order ==> base[t] == [] && s.Transferable(t) != []
    ensures agree
    ensures OrphansOnlyDropped(s, source, now, copies)
       <==> forall row :: row in source[HISTORY] ==> !Live(s, source, row)
  {
    assert TableCopied(s, HISTORY, source[HISTORY], base[HISTORY], now[HISTORY], seen, copies[HISTORY], skipped);
    CopyOrderIsParentsFirst(s, HISTORY, source[HISTORY], copies[HISTORY]);
    assert forall row :: row in source[HISTORY] <==> row in multiset(source[HISTORY]);
    assert forall row :: row in copies[HISTORY] <==> row in multiset(copies[HISTORY]);
    assert seen == {};
    EmptyFilterKeeps(s, KeyValues(source[ITEMS], [ID]), copies[HISTORY]);
  }

  lemma {:induction false} LexCommonPrefix(p: string, a: string, b: string)
    ensures NameLeq(p + a, p + b) <==> NameLeq(a, b)
  {
    if p == [] {
      assert p + a == a && p + b == b;
    } else {
      LexCommonPrefix(p[1..], a, b);
      assert (p + a)[1..] == p[1..] + a && (p + b)[1..] == p[1..] + b;
    }
  }

  lemma HistorySortsFirst()
    ensures !NameLeq(ITEMS, HISTORY)
  {
    var stem := "test_run_item";
    assert HISTORY == stem + "_result_history";
    assert ITEMS == stem + "s";
    LexCommonPrefix(stem, "s", "_result_history");
  }

  /**
   * Leftovers go by name, and the history's name sorts before that of the items: together they come in the bad order.
   */
  lemma LeftOversPutHistoryFirst(order: seq<string>, placed: nat)
    requires placed <= |order| && SortedBy(NameLeq, order[placed..])
    requires HISTORY in order[placed..] && ITEMS in order[placed..]
    ensures !ItemsFirst(order)
  {
    var rest := order[placed..];
    var h :| 0 <= h < |rest| && rest[h] == HISTORY;
    var p :| 0 <= p < |rest| && rest[p] == ITEMS;
    HistorySortsFirst();
    hide NameLeq;
    assert h != p;
    assert h < p;
    assert order[placed + h] == HISTORY && order[placed + p] == ITEMS;
  }

  /** When the history refers to the items, they come first if and only if the items reach no cycle of tables. */
  lemma ItemsFirstExactly(s: Setting, selected: seq<string>, order: seq<string>, placed: nat)
    requires forall t :: t in selected ==> s.Knows(t)
    requires HISTORY in selected && ITEMS in Dependencies(s, selected, HISTORY)
    requires ResolvedOrder(TableGraph(s, selected), order, placed)
    ensures ItemsFirst(order) <==> !ReachesCycle(TableGraph(s, selected), ITEMS)
  {
    ItemsFirstInGraph(TableGraph(s, selected), order, placed);
  }

  lemma ItemsFirstInGraph(g: map<string, set<string>>, order: seq<string>, placed: nat)
    requires Closed(g) && ResolvedOrder(g, order, placed) && HISTORY in g && ITEMS in g[HISTORY]
    ensures ItemsFirst(order) <==> !ReachesCycle(g, ITEMS)
  {
    hide *;
    Resolved(g, order, placed, HISTORY);
    Resolved(g, order, placed, ITEMS);
    var queue := order[..placed];
    if ITEMS in queue {
      ItemsPlacedFirst(g, order, placed);
    } else {
      if HISTORY in queue {
        HistoryAfterItems(g, queue);
      }
      LeftOversPutHistoryFirst(order, placed);
    }
  }

  /** A table is placed by the queue if and only if it reaches no cycle, and is left over otherwise. */
  lemma Resolved(g: map<string, set<string>>, order: seq<string>, placed: nat, t: string)
    requires Closed(g) && ResolvedOrder(g, order, placed) && (t in g || exists u :: u in g && t in g[u])
    ensures NoDup(order) && placed <= |order| && DependenciesFirst(g, order[..placed])
      && SortedBy(NameLeq, order[placed..])
    ensures t in order[..placed] <==> !ReachesCycle(g, t)
    ensures t in order[placed..] <==> ReachesCycle(g, t)
  {
    hide *;
    ResolvedParts(g, order, placed);
    KahnOrderIsExact(g, NameLeq, order[..placed]);
    KahnPutsDependenciesFirst(g, order[..placed]);
    InGraph(g, t);
    Parted(order, placed, t);
  }

  lemma ResolvedParts(g: map<string, set<string>>, order: seq<string>, placed: nat)
    requires ResolvedOrder(g, order, placed)
    ensures NoDup(order) && placed <= |order| && IsKahnOrder(g, NameLeq, order[..placed])
      && SortedBy(NameLeq, order[placed..])
    ensures forall t :: t in g ==> t in order
  {
    forall t | t in g ensures t in order {
      assert t in Elems(order);
    }
  }

  lemma InGraph(g: map<string, set<string>>, t: string)
    requires Closed(g) && (t in g || exists u :: u in g && t in g[u])
    ensures t in g
  {
  }

  lemma Parted(order: seq<string>, placed: nat, t: string)
    requires NoDup(order) && placed <= |order| && t in order
    ensures t in order[..placed] <==> t !in order[placed..]
  {
    assert order == order[..placed] + order[placed..];
  }

  lemma HistoryAfterItems(g: map<string, set<string>>, queue: seq<string>)
    requires DependenciesFirst(g, queue) && HISTORY in queue && HISTORY in g && ITEMS in g[HISTORY]
    ensures ITEMS in queue
  {
    var h :| 0 <= h < |queue| && queue[h] == HISTORY;
    assert ITEMS in Elems(queue[..h]);
  }

  lemma ItemsPlacedFirst(g: map<string, set<string>>, order: seq<string>, placed: nat)
    requires NoDup(order) && placed <= |order| && DependenciesFirst(g, order[..placed]) && ITEMS in order[..placed]
    requires HISTORY in g && ITEMS in g[HISTORY]
    ensures ItemsFirst(order)
  {
    var queue := order[..placed];
    var q :| 0 <= q < placed && queue[q] == ITEMS;
    forall h, p | 0 <= h < |order| && 0 <= p < |order| && order[h] == HISTORY && order[p] == ITEMS ensures p < h {
      assert p == q;
      if h < placed {
        assert queue[h] == HISTORY && ITEMS in Elems(queue[..h]);
        var i :| 0 <= i < h && queue[i] == ITEMS;
      }
    }
  }

  /**
   * A job into emptied tables drops orphans only, if and only if the items reach no cycle or no history row has a
   * living item.
   */
  lemma FilterIsRightExactly(s: Setting, selected: seq<string>, source: Content, base: Content, now: Content,
                             order: seq<string>, placed: nat, seen: set<Key>, copies: map<string, seq<Row>>,
                             skipped: map<string, nat>, agree: bool)
    requires forall t :: t in selected ==> s.Knows(t)
    requires HISTORY in selected && ITEMS in Dependencies(s, selected, HISTORY)
    requires ResolvedOrder(TableGraph(s, selected), order, placed)
      && JobDone(s, source, base, now, order, seen, copies, skipped, agree)
    requires forall t :: t in order ==> t in base && base[t] == [] && s.Transferable(t) != []
    requires ID in s.Transferable(ITEMS) && PlainColumn(s, ITEMS, ID)
    requires ITEMS in source && forall row :: row in source[ITEMS] ==> RowFits(s.source[ITEMS], row)
    ensures agree && HISTORY in order && ITEMS in order
    ensures OrphansOnlyDropped(s, source, now, copies)
       <==> !ReachesCycle(TableGraph(s, selected), ITEMS)
            || forall row :: row in source[HISTORY] ==> !Live(s, source, row)
  {
    assert HISTORY in Elems(order) && ITEMS in Elems(order);
    ItemsFirstExactly(s, selected, order, placed);
    hide Live, OrphansOnlyDropped, ResolvedOrder, ReachesCycle, TableGraph, Dependencies, RowFits;
    if ItemsFirst(order) {
      ItemsFirstDropsOrphansOnly(s, source, base, now, order, seen, copies, skipped, agree);
    } else {
      HistoryFirstLosesLiveRows(s, source, base, now, order, seen, copies, skipped, agree);
    }
  }

  // ---- one such job ----

  const CONFIGS := "test_run_configs"

  /** Two columns, and a foreign key from the second to a table's id. */
  function PlanTable(column: string, referred: string): Table {
    Table([Column(ID, OtherKind), Column(column, OtherKind)], [ID], [ForeignKey([column], referred, [ID])])
  }

  /** Items and their configurations refer to each other; the history refers to the items. */
  const PLAN: Schema := map[
    CONFIGS := PlanTable("first_item_id", ITEMS),
    ITEMS := PlanTable("config_id", CONFIGS),
    HISTORY := PlanTable(ITEM_ID, ITEMS)]

  const RUN: Content := map[
    CONFIGS := [map[ID := Number(1), "first_item_id" := Number(7)]],
    ITEMS := [map[ID := Number(7), "config_id" := Number(1)]],
    HISTORY := [map[ID := Number(3), ITEM_ID := Number(7)]]]

  lemma PlanNames()
    ensures CONFIGS != ITEMS && CONFIGS != HISTORY && ITEMS != HISTORY
  {
    assert |CONFIGS| == 16 && |ITEMS| == 14 && |HISTORY| == 28;
  }

  lemma PlanShares(t: Table, column: string, referred: string)
    requires t == PlanTable(column, referred)
    ensures SharedColumns(t, t.columns) == [ID, column] && ColumnNames(t) == {ID, column}
  {
    var front := [Column(ID, OtherKind)];
    assert t.columns[0] in t.columns && t.columns[1] in t.columns;
    assert ColumnNames(t) == {ID, column};
    assert t.columns[..1] == front && front[..0] == [];
    assert SharedColumns(t, []) == [];
    assert SharedColumns(t, front) == [] + [ID];
  }

  lemma PlanSpecs(name: string, column: string, referred: string)
    requires name != referred
    ensures OwnSpecs(name, PlanTable(column, referred)) == {}
  {
  }

  lemma PlanColumns(s: Setting)
    requires s.source == PLAN && s.target == PLAN
    ensures forall t :: t in PLAN ==> s.Knows(t) && s.Specs(t) == {} && s.Transferable(t) != []
    ensures s.Transferable(ITEMS) == [ID, "config_id"] && s.Transferable(HISTORY) == [ID, ITEM_ID]
    ensures ColumnNames(PLAN[CONFIGS]) == {ID, "first_item_id"} && ColumnNames(PLAN[ITEMS]) == {ID, "config_id"}
    ensures ColumnNames(PLAN[HISTORY]) == {ID, ITEM_ID}
  {
    hide SharedColumns, OwnSpecs, ColumnNames, PlanTable, ID, ITEM_ID;
    PlanNames();
    PlanShares(PLAN[CONFIGS], "first_item_id", ITEMS);
    PlanShares(PLAN[ITEMS], "config_id", CONFIGS);
    PlanShares(PLAN[HISTORY], ITEM_ID, ITEMS);
    PlanSpecs(CONFIGS, "first_item_id", ITEMS);
    PlanSpecs(ITEMS, "config_id", CONFIGS);
    PlanSpecs(HISTORY, ITEM_ID, ITEMS);
  }

  lemma PlanGraph(s: Setting, selected: seq<string>)
    requires s.source == PLAN && s.target == PLAN && selected == [CONFIGS, ITEMS, HISTORY]
    ensures forall t :: t in selected ==> s.Knows(t)
    ensures ITEMS in Dependencies(s, selected, HISTORY) && ReachesCycle(TableGraph(s, selected), ITEMS)
  {
    PlanNames();
    hide HISTORY, ITEMS, CONFIGS;
    assert selected[0] in selected && selected[1] in selected && selected[2] in selected;
    PlanRefers(s, selected, HISTORY, ITEM_ID, ITEMS);
    PlanRefers(s, selected, ITEMS, "config_id", CONFIGS);
    PlanRefers(s, selected, CONFIGS, "first_item_id", ITEMS);
    RoundTrip(TableGraph(s, selected), ITEMS, CONFIGS);
  }

  lemma PlanRefers(s: Setting, selected: seq<string>, t: string, column: string, referred: string)
    requires s.Knows(t) && s.target[t] == PlanTable(column, referred) && referred in selected && referred != t
    ensures referred in Dependencies(s, selected, t)
  {
    var fk := ForeignKey([column], referred, [ID]);
    assert s.target[t].foreignKeys[0] == fk;
    assert fk in s.source[t].foreignKeys + s.target[t].foreignKeys;
  }

  lemma RoundTrip(g: map<string, set<string>>, a: string, b: string)
    requires a in g && b in g && b in g[a] && a in g[b]
    ensures ReachesCycle(g, a)
  {
    var w := [a, b, a];
    assert Walk(g, w) && w[0] == w[2];
  }

  lemma PlanIsConsistent()
    ensures Consistent(PLAN, RUN)
  {
    PlanNames();
    hide HISTORY, ITEMS, CONFIGS;
    assert RUN[CONFIGS][0] in RUN[CONFIGS] && RUN[ITEMS][0] in RUN[ITEMS];
    assert KeyOf(RUN[CONFIGS][0], [ID]) == [Number(1)] == KeyOf(RUN[ITEMS][0], ["config_id"]);
    assert KeyOf(RUN[CONFIGS][0], ["first_item_id"]) == [Number(7)];
    assert KeyOf(RUN[ITEMS][0], [ID]) == [Number(7)] == KeyOf(RUN[HISTORY][0], [ITEM_ID]);
  }

  /** What any completed job on that source leaves, once the order is the one of a cyclic graph. */
  lemma LiveRowIsLost(s: Setting, base: Content, now: Content, order: seq<string>, seen: set<Key>,
                      copies: map<string, seq<Row>>, skipped: map<string, nat>, agree: bool)
    requires s.source == PLAN && s.target == PLAN && Elems(order) == {CONFIGS, ITEMS, HISTORY} && !ItemsFirst(order)
    requires base == map[CONFIGS := [], ITEMS := [], HISTORY := []]
    requires JobDone(s, RUN, base, now, order, seen, copies, skipped, agree)
    ensures agree && HISTORY in now && ITEMS in now && now[HISTORY] == [] && now[ITEMS] == RUN[ITEMS]
  {
    PlanNames();
    PlanColumns(s);
    assert forall t :: t in order <==> t in Elems(order);
    assert HISTORY in order && ITEMS in order && HISTORY in base && ITEMS in base;
    assert forall t :: t in order ==> t in PLAN && base[t] == [];
    hide ItemsFirst, ItemsSeen, TableCopied, RUN, PLAN, HISTORY, ITEMS, CONFIGS;
    assert TableCopied(s, ITEMS, RUN[ITEMS], base[ITEMS], now[ITEMS], seen, copies[ITEMS], skipped);
    assert TableCopied(s, HISTORY, RUN[HISTORY], base[HISTORY], now[HISTORY], seen, copies[HISTORY], skipped);
    NothingSeen(order, base, now);
    OnlyItem(s, now[ITEMS], seen, copies[ITEMS], skipped);
    OnlyHistoryRow(s, now[HISTORY], copies[HISTORY], skipped);
  }

  lemma NothingSeen(order: seq<string>, base: Content, now: Content)
    requires !ItemsFirst(order) && ITEMS in base && base[ITEMS] == []
    ensures ItemsSeen(order, base, now) == {}
  {
  }

  lemma OnlyItem(s: Setting, after: seq<Row>, seen: set<Key>, ordered: seq<Row>, skipped: map<string, nat>)
    requires s.source == PLAN && s.target == PLAN && s.Specs(ITEMS) == {} && s.Transferable(ITEMS) == [ID, "config_id"]
    requires TableCopied(s, ITEMS, RUN[ITEMS], [], after, seen, ordered, skipped)
    ensures after == RUN[ITEMS]
  {
    PlanNames();
    var row := RUN[ITEMS][0];
    assert ordered == [row] && ordered[..0] == [];
    assert ITEMS in PLAN;
    assert s.Adapt(ITEMS, row) == row by {
      assert "config_id" != ID;
    }
    assert s.Transfer(ITEMS, seen, ordered) == [] + [row];
  }

  lemma OnlyHistoryRow(s: Setting, after: seq<Row>, ordered: seq<Row>, skipped: map<string, nat>)
    requires s.source == PLAN && s.target == PLAN && s.Specs(HISTORY) == {} && s.Transferable(HISTORY) == [ID, ITEM_ID]
    requires TableCopied(s, HISTORY, RUN[HISTORY], [], after, {}, ordered, skipped)
    ensures after == []
  {
    PlanNames();
    var row := RUN[HISTORY][0];
    assert ordered == [row] && ordered[..0] == [];
    assert Cell(s.Project(HISTORY, row), ITEM_ID) == Number(7);
    assert s.Transfer(HISTORY, {}, ordered) == [] + [];
  }

  lemma PlanFits(s: Setting, selected: seq<string>, empty: Content)
    requires s.source == PLAN && s.target == PLAN && selected == [CONFIGS, ITEMS, HISTORY]
    requires empty == map[CONFIGS := [], ITEMS := [], HISTORY := []]
    ensures NoDup(selected) && Elems(selected) == {CONFIGS, ITEMS, HISTORY} && Emptied(empty, Elems(selected)) == empty
    ensures forall t :: t in selected ==>
      s.Knows(t) && t in RUN && t in empty && HasColumns(s.source[t], RUN[t]) && Copyable(s, RUN, empty, t)
  {
    hide *;
    PlanNames();
    PlanColumns(s);
    RowKeys();
    ThreeNames(CONFIGS, ITEMS, HISTORY);
    PlanFit(s, CONFIGS, empty);
    PlanFit(s, ITEMS, empty);
    PlanFit(s, HISTORY, empty);
  }

  lemma ThreeNames(a: string, b: string, c: string)
    requires a != b && b != c && a != c
    ensures NoDup([a, b, c]) && Elems([a, b, c]) == {a, b, c}
    ensures var empty: Content := map[a := [], b := [], c := []]; Emptied(empty, Elems([a, b, c])) == empty
  {
  }

  lemma RowKeys()
    ensures CONFIGS in RUN && ITEMS in RUN && HISTORY in RUN && CONFIGS in PLAN && ITEMS in PLAN && HISTORY in PLAN
    ensures forall row :: row in RUN[CONFIGS] ==> row.Keys == {ID, "first_item_id"}
    ensures forall row :: row in RUN[ITEMS] ==> row.Keys == {ID, "config_id"}
    ensures forall row :: row in RUN[HISTORY] ==> row.Keys == {ID, ITEM_ID}
  {
    PlanNames();
    hide HISTORY, ITEMS, CONFIGS, ID, ITEM_ID;
  }

  lemma PlanFit(s: Setting, t: string, empty: Content)
    requires s.source == PLAN && s.target == PLAN && t in PLAN && t in RUN && s.Specs(t) == {} && ITEMS in empty
    requires forall row :: row in RUN[t] ==> row.Keys == ColumnNames(PLAN[t])
    ensures s.Knows(t) && HasColumns(s.source[t], RUN[t]) && Copyable(s, RUN, empty, t)
  {
    hide RUN, PLAN, ITEMS, HISTORY, ColumnNames;
  }

  /**
   * A consistent source and an empty target; with constraints off the only history row is lost and the counts match.
   */
  method LoseLiveRow(dumps: Value -> string) returns (r: JobResult, target: Content)
    ensures Consistent(PLAN, RUN) && r.Completed? && r.rowCountsMatch
    ensures HISTORY in target && ITEMS in target && target[HISTORY] == [] && target[ITEMS] == RUN[ITEMS]
  {
    hide PLAN, RUN, HISTORY, ITEMS, CONFIGS, JobDone, JobCovered, LastCommit, Copyable, HasColumns;
    hide Consistent, ResolvedOrder;
    hide Dependencies, Acyclic, ReachesCycle, NoDup, ConsistentSince;
    var s := Setting(PLAN, PLAN, dumps);
    var selected := [CONFIGS, ITEMS, HISTORY];
    var empty: Content := map[CONFIGS := [], ITEMS := [], HISTORY := []];
    var db := new Database(PLAN, false, empty);
    var catalog := new Catalog(map[]);
    ghost var order, placed, seen, copies, skipped, reached, resets;
    PlanGraph(s, selected);
    PlanIsConsistent();
    PlanFits(s, selected, empty);
    r, order, placed, seen, copies, skipped, reached, resets :=
      RunJob(db, catalog, s, RUN, selected, 1000, true, true, _ => NotNeeded);
    ItemsFirstExactly(s, selected, order, placed);
    AllOrdered(TableGraph(s, selected), order, placed);
    LiveRowIsLost(s, empty, db.content, order, seen, copies, skipped, r.rowCountsMatch);
    target := db.content;
  }

  lemma AllOrdered(g: map<string, set<string>>, order: seq<string>, placed: nat)
    requires ResolvedOrder(g, order, placed)
    ensures Elems(order) == g.Keys
  {
  }
}
