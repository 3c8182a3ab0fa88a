/** One migration job: order the tables, empty the target, copy, and compare row counts. */
module CrossMigrate {
  import opened Ordering
  import opened Relational
  import opened Kahn
  import opened TableCopy
  import opened Integrity
  import opened Sequences

  // ---- table order ----

  /** The selected tables that t refers to, in the source or in the target. */
  function Dependencies(s: Setting, selected: seq<string>, t: string): set<string>
    requires s.Knows(t)
  {
    set fk |
      fk in s.source[t].foreignKeys + s.target[t].foreignKeys && fk.table in selected && fk.table != t :: fk.table
  }

  function TableGraph(s: Setting, selected: seq<string>): (g: map<string, set<string>>)
    requires forall t :: t in selected ==> s.Knows(t)
    ensures Closed(g)
  {
    map t | t in selected :: Dependencies(s, selected, t)
  }

  /** What the order of a job is: a Kahn order as far as `placed`, and whatever is left over by name. */
  ghost predicate ResolvedOrder(g: map<string, set<string>>, order: seq<string>, placed: nat) {
    && NoDup(order) && Elems(order) == g.Keys && placed <= |order|
    && IsKahnOrder(g, NameLeq, order[..placed]) && SortedBy(NameLeq, order[placed..])
  }

  datatype OrderResult = Order(tables: seq<string>) | TablesInCycle(tables: seq<string>)

  /** `placed` tells how much of the result the queue produced; the rest are the leftovers, by name. */
  method ResolveTableOrder(s: Setting, selected: seq<string>, allowCycles: bool)
    returns (r: OrderResult, ghost placed: nat)
    requires NoDup(selected) && forall t :: t in selected ==> s.Knows(t)
    ensures r.Order? <==> allowCycles || Acyclic(TableGraph(s, selected))
    ensures r.Order? ==> ResolvedOrder(TableGraph(s, selected), r.tables, placed) && Elems(r.tables) == Elems(selected)
    ensures r.Order? && Acyclic(TableGraph(s, selected)) ==> placed == |r.tables|
    ensures r.TablesInCycle? ==> SortedBy(NameLeq, r.tables) && forall t :: t in r.tables <==>
      t in selected && ReachesCycle(TableGraph(s, selected), t)
  {
    hide NameLeq, IsKahnOrder, Acyclic, ReachesCycle, Dependencies;
    var g := TableGraph(s, selected);
    assert g.Keys == Elems(selected);
    var ordered := OrderNames(g);
    placed := |ordered|;
    CompleteIffAcyclic(g, NameLeq, ordered);
    NoDupCardinality(selected);
    assert |g| == |g.Keys|;
    assert ordered[..placed] == ordered;
    if |ordered| == |selected| {
      return Order(ordered), placed;
    }
    var leftOver := SortNames(Elems(selected) - Elems(ordered));
    LeftOver(g, ordered, leftOver);
    if !allowCycles {
      return TablesInCycle(leftOver), placed;
    }
    NoDupAppend(ordered, leftOver);
    assert (ordered + leftOver)[..placed] == ordered && (ordered + leftOver)[placed..] == leftOver;
    r := Order(ordered + leftOver);
  }

  method OrderNames(g: map<string, set<string>>) returns (names: seq<string>)
    requires Closed(g)
    ensures IsKahnOrder(g, NameLeq, names)
  {
    NameLeqIsTotal();
    names := TopologicalOrder(g, NameLeq);
  }

  method SortNames(names: set<string>) returns (r: seq<string>)
    ensures Elems(r) == names && NoDup(r) && SortedBy(NameLeq, r)
  {
    NameLeqIsTotal();
    r := Sorted(names, NameLeq);
  }

  lemma LeftOver(g: map<string, set<string>>, ordered: seq<string>, leftOver: seq<string>)
    requires Closed(g) && IsKahnOrder(g, NameLeq, ordered) && Elems(leftOver) == g.Keys - Elems(ordered)
    ensures forall t :: t in leftOver <==> t in g && ReachesCycle(g, t)
    ensures forall t :: t in leftOver ==> t !in ordered
    ensures Elems(ordered + leftOver) == g.Keys
  {
    KahnOrderIsExact(g, NameLeq, ordered);
    assert forall t :: t in leftOver <==> t in Elems(leftOver);
    assert forall t :: t in ordered ==> t in g;
  }

  // ---- the job ----

  datatype Verification = Verification(table: string, sourceRows: nat, filteredRows: nat, targetRows: nat) {
    predicate Matches() { sourceRows - filteredRows == targetRows }
  }

  datatype JobResult =
    | Completed(copied: map<string, nat>, verification: seq<Verification>, rowCountsMatch: bool)
    | NothingSelected
    | CyclicTables(tables: seq<string>)
    | Failed(outcome: Outcome)
    | SequenceRefused

  function Emptied(content: Content, tables: set<string>): Content {
    map t | t in content :: if t in tables then [] else content[t]
  }

  /** Every state recorded since the trace was `from` is consistent, and so is the state now. */
  ghost predicate ConsistentSince(schema: Schema, from: seq<Content>, trace: seq<Content>, now: Content) {
    && from <= trace
    && Consistent(schema, now)
    && forall i :: |from| <= i < |trace| ==> Consistent(schema, trace[i])
  }

  method ResetTarget(db: Database, order: seq<string>) returns (ok: bool)
    requires forall t :: t in order ==> t in db.content
    modifies db`content, db`trace
    ensures !db.enforcing ==> ok
    ensures ok ==> db.content == Emptied(old(db.content), Elems(order))
    ensures ResetSafe(db.schema, old(db.content), order) && Consistent(db.schema, old(db.content)) ==>
      ok && ConsistentSince(db.schema, old(db.trace), db.trace, db.content)
  {
    ok := true;
    var i := |order|;
    ghost var before, trace := db.content, db.trace;
    ghost var safe := ResetSafe(db.schema, before, order) && Consistent(db.schema, before);
    assert Emptied(before, Elems(order[i..])) == before;
    while i > 0
      invariant 0 <= i <= |order|
      invariant db.content == Emptied(before, Elems(order[i..]))
      invariant safe ==> ConsistentSince(db.schema, trace, db.trace, db.content)
    {
      i := i - 1;
      EmptiedStep(before, order, i);
      if safe {
        DeleteIsSafe(db.schema, before, order, i);
      }
      ok := db.DeleteAll(order[i]);
      if !ok {
        return;
      }
    }
  }

  lemma EmptiedStep(content: Content, order: seq<string>, i: nat)
    requires i < |order| && order[i] in content
    ensures Emptied(content, Elems(order[i..])) == Emptied(content, Elems(order[i + 1..]))[order[i] := []]
  {
  }

  /** No row outlives what it refers to: referring tables come later in the order and are emptied first. */
  ghost predicate ResetSafe(schema: Schema, content: Content, order: seq<string>) {
    && NoDup(order)
    && (forall i, fk :: 0 <= i < |order| && order[i] in schema && fk in schema[order[i]].foreignKeys ==>
          fk.table in order[..i + 1])
    && (forall u, fk :: u in schema && u in content && u !in order && fk in schema[u].foreignKeys ==>
          fk.table !in order)
  }

  /** Whatever still has rows then does not refer to the table to be emptied. */
  lemma NothingRefersTo(schema: Schema, content: Content, order: seq<string>, i: nat, u: string, row: Row,
                        fk: ForeignKey)
    requires i < |order| && ResetSafe(schema, content, order) && u in schema && fk in schema[u].foreignKeys
    requires var after := Emptied(content, Elems(order[i + 1..]))[order[i] := []]; u in after && row in after[u]
    ensures fk.table != order[i]
  {
    assert NoDup(order);
    LaterIsInTail(order, i);
    hide NoDup, Elems;
    if u in order {
      var j :| 0 <= j < |order| && order[j] == u;
      assert fk.table in order[..j + 1];
      assert u !in Elems(order[i + 1..]) && j != i;
      NotEarlier(order, i, j);
    }
  }

  lemma LaterIsInTail(order: seq<string>, i: nat)
    requires i < |order|
    ensures forall j :: i < j < |order| ==> order[j] in Elems(order[i + 1..])
  {
    forall j | i < j < |order| ensures order[j] in Elems(order[i + 1..]) {
      assert order[i + 1..][j - i - 1] == order[j];
    }
  }

  lemma NotEarlier(order: seq<string>, i: nat, j: nat)
    requires j < i < |order| && NoDup(order)
    ensures order[i] !in order[..j + 1]
  {
  }

  lemma DeleteIsSafe(schema: Schema, content: Content, order: seq<string>, i: nat)
    requires i < |order| && ResetSafe(schema, content, order)
    ensures var c := Emptied(content, Elems(order[i + 1..]));
            Deletable(schema, c, order[i])
            && (Consistent(schema, c) ==> Consistent(schema, c[order[i] := []]))
  {
    var c := Emptied(content, Elems(order[i + 1..]));
    var t := order[i];
    var after := c[t := []];
    forall u, row, fk | u in after && u in schema && row in after[u] && fk in schema[u].foreignKeys
      ensures fk.table != t
    {
      NothingRefersTo(schema, content, order, i, u, row, fk);
    }
    hide ResetSafe, Emptied, Elems, Satisfied;
    if Consistent(schema, c) {
      forall u, row, fk | u in after && row in after[u] && u in schema && fk in schema[u].foreignKeys
        ensures Satisfied(after, row, fk)
      {
        assert row in c[u];
        assert RowSatisfied(schema, c, u, row);
        assert fk.table != t;
      }
    }
  }

  // ---- copying ----

  /** A SELECT on a table returns all of its columns. */
  predicate HasColumns(t: Table, rows: seq<Row>) {
    forall row :: row in rows ==> row.Keys == ColumnNames(t)
  }

  /** The order puts the items before the history that is filtered by them (or leaves them alone altogether). */
  ghost predicate ItemsFirst(order: seq<string>) {
    forall h, p :: 0 <= h < |order| && 0 <= p < |order| && order[h] == HISTORY && order[p] == ITEMS ==> p < h
  }

  /** The item keys the filter goes by: those it finds in the target when the history's turn comes. */
  ghost function ItemsSeen(order: seq<string>, base: Content, now: Content): set<Key> {
    KeyValues(RowsOf(if ItemsFirst(order) then now else base, ITEMS), [ID])
  }

  /** Table t went from `before` to `after`: its rows, in copy order, filtered by the items seen, were added. */
  ghost predicate TableCopied(s: Setting, t: string, rows: seq<Row>, before: seq<Row>, after: seq<Row>,
                              seen: set<Key>, ordered: seq<Row>, skipped: map<string, nat>)
    requires s.Knows(t)
  {
    if s.Transferable(t) == [] then after == before
    else
      && InCopyOrder(s, t, rows, ordered)
      && after == before + s.Transfer(t, seen, ordered)
      && t in skipped && skipped[t] == |rows| - |s.Transfer(t, seen, ordered)|
  }

  /** What copying the tables of `done` has made of the target, `copies` being the rows of each in copy order. */
  ghost predicate CopiedSoFar(s: Setting, source: Content, base: Content, now: Content, done: seq<string>,
                              seen: set<Key>, copies: map<string, seq<Row>>, skipped: map<string, nat>) {
    && now.Keys == base.Keys
    && (forall t :: t in base && t !in done ==> now[t] == base[t])
    && (forall t :: t in done ==> t in base && t in source && s.Knows(t) && t in copies)
    && (forall t :: t in done ==> TableCopied(s, t, source[t], base[t], now[t], seen, copies[t], skipped))
  }

  /** When a job's tables, rows and target meet what the script relies on. */
  ghost predicate Migratable(s: Setting, source: Content, selected: set<string>, order: seq<string>) {
    && SchemasCovered(s, selected)
    && SourceSound(s, source, selected)
    && (forall t :: t in selected ==>
          t in source && s.Transferable(t) != [] && Sortable(s, t, source[t]) && SelfInOrder(s, t, source[t]))
    && Elems(order) == selected
    && (forall i, fk :: 0 <= i < |order| && s.Knows(order[i]) && fk in s.target[order[i]].foreignKeys ==>
          fk.table in order[..i + 1])
    && (HISTORY in selected ==> ITEMS in selected && ItemsFirst(order))
  }

  lemma StaysCopied(s: Setting, t: string, rows: seq<Row>, before: seq<Row>, after: seq<Row>, seen: set<Key>,
                    seenNow: set<Key>, ordered: seq<Row>, skipped: map<string, nat>, skippedNow: map<string, nat>)
    requires s.Knows(t) && (t == HISTORY ==> seen == seenNow)
    requires t in skipped ==> t in skippedNow && skippedNow[t] == skipped[t]
    requires TableCopied(s, t, rows, before, after, seen, ordered, skipped)
    ensures TableCopied(s, t, rows, before, after, seenNow, ordered, skippedNow)
  {
    OnlyHistoryLooksAtItems(s, t, seen, seenNow, ordered);
  }

  lemma NextCopied(s: Setting, source: Content, base: Content, before: Content, now: Content, order: seq<string>,
                   i: nat, seen: set<Key>, existing: set<Key>, copies: map<string, seq<Row>>, ordered: seq<Row>,
                   skipped: map<string, nat>, skippedNow: map<string, nat>)
    requires NoDup(order) && i < |order| && order[i] in base && order[i] in source && s.Knows(order[i])
    requires CopiedSoFar(s, source, base, before, order[..i], seen, copies, skipped)
    requires now.Keys == before.Keys && forall u :: u in now && u != order[i] ==> now[u] == before[u]
    requires forall u :: u in skipped && u != order[i] ==> u in skippedNow && skippedNow[u] == skipped[u]
    requires TableCopied(s, order[i], source[order[i]], before[order[i]], now[order[i]], existing, ordered, skippedNow)
    ensures CopiedSoFar(s, source, base, now, order[..i + 1], if order[i] == HISTORY then existing else seen,
                        copies[order[i] := ordered], skippedNow)
  {
    hide TableCopied;
    var t, done := order[i], order[..i];
    var seenNow := if t == HISTORY then existing else seen;
    assert order[..i + 1] == done + [t];
    assert t !in done;
    forall u | u in done
      ensures TableCopied(s, u, source[u], base[u], now[u], seenNow, copies[u], skippedNow)
    {
      assert TableCopied(s, u, source[u], base[u], before[u], seen, copies[u], skipped);
      StaysCopied(s, u, source[u], base[u], before[u], seen, seenNow, copies[u], skipped, skippedNow);
    }
    StaysCopied(s, t, source[t], base[t], now[t], existing, seenNow, ordered, skippedNow, skippedNow);
  }

  /** A table other than the history that has been copied has arrived in full. */
  lemma CopiedHasLanded(s: Setting, source: Content, base: Content, now: Content, done: seq<string>, seen: set<Key>,
                        copies: map<string, seq<Row>>, skipped: map<string, nat>, t: string)
    requires CopiedSoFar(s, source, base, now, done, seen, copies, skipped)
    requires t in done && t != HISTORY && s.Transferable(t) != []
    ensures Landed(s, source, now, t)
  {
    assert TableCopied(s, t, source[t], base[t], now[t], seen, copies[t], skipped);
    CopyOrderIsParentsFirst(s, t, source[t], copies[t]);
    forall row | row in source[t] ensures s.Adapt(t, row) in now[t] {
      assert row in multiset(copies[t]);
      var j :| 0 <= j < |copies[t]| && copies[t][j] == row;
      UnfilteredIsTransferred(s, t, seen, copies[t], j);
    }
  }

  lemma NextIsReady(s: Setting, source: Content, base: Content, now: Content, order: seq<string>, i: nat,
                    seen: set<Key>, copies: map<string, seq<Row>>, skipped: map<string, nat>)
    requires Migratable(s, source, Elems(order), order) && i < |order| && order[i] in base
    requires CopiedSoFar(s, source, base, now, order[..i], seen, copies, skipped)
    ensures ReadyFor(s, source, Elems(order), now, order[i])
  {
    var t := order[i];
    forall fk | fk in s.target[t].foreignKeys && fk.table != t ensures Landed(s, source, now, fk.table) {
      assert KeyCovered(s, Elems(order), t, fk);
      assert fk.table in order[..i + 1];
      assert fk.table in order[..i];
      CopiedHasLanded(s, source, base, now, order[..i], seen, copies, skipped, fk.table);
    }
  }

  lemma InsertedConsistently(schema: Schema, from: seq<Content>, trace: seq<Content>, before: Content, t: string,
                             rows: seq<Row>, now: Content, longer: seq<Content>, enforcing: bool)
    requires ConsistentSince(schema, from, trace, before) && t in before
    requires Written(schema, enforcing, t, before, trace, rows, now, longer) && Insertable(schema, before, t, rows)
    ensures ConsistentSince(schema, from, longer, now)
  {
    forall k | 0 <= k <= |rows| ensures Consistent(schema, Append(before, t, rows[..k])) {
      InsertKeepsConsistent(schema, before, t, rows, k);
    }
    assert rows[..|rows|] == rows;
    forall i | |from| <= i < |longer| ensures Consistent(schema, longer[i]) {
      if i >= |trace| {
        assert longer[i] == States(before, t, rows)[i - |trace|];
      }
    }
  }

  /** On a target that does not check foreign keys this is all a table needs. */
  ghost predicate Copyable(s: Setting, source: Content, content: Content, t: string)
    requires s.Knows(t) && t in source
  {
    (s.Transferable(t) == [] || Sortable(s, t, source[t])) && (t == HISTORY ==> ITEMS in content)
  }

  lemma SameCopyable(s: Setting, source: Content, base: Content, now: Content, t: string)
    requires s.Knows(t) && t in source && now.Keys == base.Keys
    ensures Copyable(s, source, base, t) <==> Copyable(s, source, now, t)
  {
  }

  /** One call of CopyTable on the target, with what it promises about the state kept together. */
  method CopyNext(db: Database, ctx: SharedContext, s: Setting, source: Content, order: seq<string>, i: nat,
                  chunkSize: nat, ghost sound: bool, ghost base: Content, ghost from: seq<Content>,
                  ghost seen: set<Key>, ghost copies: map<string, seq<Row>>)
    returns (r: Outcome, ghost existing: set<Key>, ghost ordered: seq<Row>)
    requires chunkSize >= 1 && NoDup(order) && db.schema == s.target && i < |order|
    requires s.Knows(order[i]) && order[i] in source && forall t :: t in order ==> t in db.content
    requires HasColumns(s.source[order[i]], source[order[i]])
    requires CopiedSoFar(s, source, base, db.content, order[..i], seen, copies, ctx.skipped)
    requires sound ==> Migratable(s, source, Elems(order), order)
    requires sound ==> ConsistentSince(db.schema, from, db.trace, db.content)
    requires order[i] == HISTORY ==> ctx.keyValues == map[]
    modifies db`content, db`trace, ctx
    ensures r.Copied? ==> CopiedSoFar(s, source, base, db.content, order[..i + 1],
      if order[i] == HISTORY then existing else seen, copies[order[i] := ordered], ctx.skipped)
    ensures r.Copied? ==> db.content.Keys == old(db.content.Keys)
    ensures r.Copied? ==> forall u :: u in db.content && u != order[i] ==> db.content[u] == old(db.content)[u]
    ensures order[i] == HISTORY ==> existing == KeyValues(RowsOf(old(db.content), ITEMS), [ID])
    ensures order[i] != HISTORY ==> ctx.keyValues == old(ctx.keyValues)
    ensures sound ==> r.Copied? && ConsistentSince(db.schema, from, db.trace, db.content)
    ensures !db.enforcing && Copyable(s, source, old(db.content), order[i]) ==> r.Copied?
  {
    hide InCopyOrder, Consistent, Insertable, Migratable, Sortable, ConsistentSince, TableCopied, Written;
    var t := order[i];
    ghost var before, trace, skipped := db.content, db.trace, ctx.skipped;
    existing := ctx.ExistingItems(db.content);
    r, ordered := CopyTable(db, ctx, s, t, source[t], chunkSize);
    if sound && s.Transferable(t) != [] {
      NextIsReady(s, source, base, before, order, i, seen, copies, skipped);
      NextFits(s, source, before, order, i, existing, ordered);
    }
    if r.Copied? {
      if s.Transferable(t) != [] {
        CopiedAsStated(s, t, source[t], before, db.content, existing, ordered, ctx.skipped, db.enforcing, trace,
                       db.trace);
        if sound {
          InsertedConsistently(db.schema, from, trace, before, t, s.Transfer(t, existing, ordered), db.content,
                               db.trace, db.enforcing);
        }
      } else {
        NotCopied(s, t, source[t], before[t], existing, ordered, ctx.skipped);
      }
      NextCopied(s, source, base, before, db.content, order, i, seen, existing, copies, ordered, skipped, ctx.skipped);
    }
  }

  lemma CopiedAsStated(s: Setting, t: string, rows: seq<Row>, before: Content, now: Content, existing: set<Key>,
                       ordered: seq<Row>, skipped: map<string, nat>, enforcing: bool, trace: seq<Content>,
                       longer: seq<Content>)
    requires s.Knows(t) && t in before && InCopyOrder(s, t, rows, ordered) && s.Transferable(t) != []
    requires Written(s.target, enforcing, t, before, trace, s.Transfer(t, existing, ordered), now, longer)
    requires t in skipped && skipped[t] == |ordered| - |s.Transfer(t, existing, ordered)|
    ensures now.Keys == before.Keys && forall u :: u in now && u != t ==> now[u] == before[u]
    ensures TableCopied(s, t, rows, before[t], now[t], existing, ordered, skipped)
  {
    CopyOrderIsParentsFirst(s, t, rows, ordered);
    hide InCopyOrder, Insertable, States;
  }

  lemma NotCopied(s: Setting, t: string, rows: seq<Row>, before: seq<Row>, existing: set<Key>, ordered: seq<Row>,
                  skipped: map<string, nat>)
    requires s.Knows(t) && s.Transferable(t) == []
    ensures TableCopied(s, t, rows, before, before, existing, ordered, skipped)
  {
  }

  /** Once its turn comes, nothing stands in the way of a table's rows. */
  lemma NextFits(s: Setting, source: Content, content: Content, order: seq<string>, i: nat, existing: set<Key>,
                 ordered: seq<Row>)
    requires Migratable(s, source, Elems(order), order) && i < |order|
    requires ReadyFor(s, source, Elems(order), content, order[i])
    requires Sortable(s, order[i], source[order[i]]) ==> InCopyOrder(s, order[i], source[order[i]], ordered)
    requires order[i] == HISTORY ==> existing == KeyValues(RowsOf(content, ITEMS), [ID])
    ensures Sortable(s, order[i], source[order[i]])
    ensures order[i] == HISTORY ==> ITEMS in order
    ensures Insertable(s.target, content, order[i], s.Transfer(order[i], existing, ordered))
  {
    assert ITEMS in Elems(order) ==> ITEMS in order;
    TableLands(s, source, Elems(order), content, order[i], existing, ordered);
  }

  lemma SeenStep(order: seq<string>, i: nat, base: Content, before: Content, now: Content, existing: set<Key>,
                 seen: set<Key>)
    requires NoDup(order) && i < |order|
    requires now.Keys == before.Keys == base.Keys && forall u :: u in now && u != order[i] ==> now[u] == before[u]
    requires ITEMS in base && ITEMS !in order[..i] ==> before[ITEMS] == base[ITEMS]
    requires HISTORY in order[..i] ==> seen == ItemsSeen(order, base, before)
    requires order[i] == HISTORY ==> existing == KeyValues(RowsOf(before, ITEMS), [ID])
    ensures HISTORY in order[..i + 1] ==>
      (if order[i] == HISTORY then existing else seen) == ItemsSeen(order, base, now)
  {
  }

  lemma NotBefore(order: seq<string>, i: nat)
    requires NoDup(order) && i < |order|
    ensures order[i] !in order[..i] && order[..i + 1] == order[..i] + [order[i]]
  {
  }

  // ---- widening text columns, which commits on MySQL ----

  /** Before a table is copied its text columns may have to be widened: by an ALTER, which commits and may then fail. */
  datatype Widening = NotNeeded | Widened | TooLarge | AlterFailed

  predicate Commits(w: Widening) { w.Widened? || w.AlterFailed? }

  predicate Works(w: Widening) { w.NotNeeded? || w.Widened? }

  method EnsureTextCapacity(db: Database, w: Widening) returns (ok: bool)
    modifies db`committed
    ensures ok == Works(w) && db.committed == if Commits(w) then db.content else old(db.committed)
  {
    if Commits(w) {
      db.Commit();
    }
    ok := Works(w);
  }

  /**
   * What was committed last once the first n tables were reached: the start, or what lay before the last widened table.
   */
  ghost predicate LastCommit(s: Setting, source: Content, start: Content, base: Content, committed: Content,
                             order: seq<string>, n: nat, widen: string -> Widening) {
    && n <= |order|
    && if forall k :: 0 <= k < n ==> !Commits(widen(order[k])) then committed == start
       else exists k, seen, copies, skipped ::
         0 <= k < n && LastAt(order, n, widen, k)
         && CopiedSoFar(s, source, base, committed, order[..k], seen, copies, skipped)
  }

  predicate LastAt(order: seq<string>, n: nat, widen: string -> Widening, k: nat)
    requires k < n <= |order|
  {
    Commits(widen(order[k])) && forall j :: k < j < n ==> !Commits(widen(order[j]))
  }

  lemma LastCommitStep(s: Setting, source: Content, start: Content, base: Content, before: Content, now: Content,
                       order: seq<string>, n: nat, widen: string -> Widening, content: Content, seen: set<Key>,
                       copies: map<string, seq<Row>>, skipped: map<string, nat>)
    requires LastCommit(s, source, start, base, before, order, n, widen) && n < |order|
    requires CopiedSoFar(s, source, base, content, order[..n], seen, copies, skipped)
    requires now == if Commits(widen(order[n])) then content else before
    ensures LastCommit(s, source, start, base, now, order, n + 1, widen)
  {
    hide CopiedSoFar;
    if Commits(widen(order[n])) {
      assert LastAt(order, n + 1, widen, n);
    } else if exists k :: 0 <= k < n && Commits(widen(order[k])) {
      var k, seen', copies', skipped' :| 0 <= k < n && LastAt(order, n, widen, k)
        && CopiedSoFar(s, source, base, before, order[..k], seen', copies', skipped');
      assert LastAt(order, n + 1, widen, k);
    }
  }

  /** What holds before table i is copied. */
  ghost predicate Copying(s: Setting, source: Content, base: Content, order: seq<string>, i: nat, now: Content,
                          seen: set<Key>, copies: map<string, seq<Row>>, skipped: map<string, nat>, cached: bool) {
    && i <= |order| && now.Keys == base.Keys
    && CopiedSoFar(s, source, base, now, order[..i], seen, copies, skipped)
    && (HISTORY !in order[..i] ==> !cached)
    && (HISTORY in order[..i] ==> seen == ItemsSeen(order, base, now))
  }

  /** The loop body: widen a table's columns if need be, then copy it. */
  method CopyStep(db: Database, ctx: SharedContext, s: Setting, source: Content, order: seq<string>, i: nat,
                  chunkSize: nat, widen: string -> Widening, ghost start: Content, ghost base: Content,
                  ghost from: seq<Content>, ghost sound: bool, ghost seen: set<Key>,
                  ghost copies: map<string, seq<Row>>)
    returns (r: Outcome, ghost seenNow: set<Key>, ghost ordered: seq<Row>)
    requires chunkSize >= 1 && NoDup(order) && db.schema == s.target && i < |order|
    requires forall t :: t in order ==> t in db.content
    requires s.Knows(order[i]) && order[i] in source && HasColumns(s.source[order[i]], source[order[i]])
    requires Copying(s, source, base, order, i, db.content, seen, copies, ctx.skipped, ctx.keyValues != map[])
    requires LastCommit(s, source, start, base, db.committed, order, i, widen)
    requires sound ==> Migratable(s, source, Elems(order), order)
    requires sound ==> ConsistentSince(db.schema, from, db.trace, db.content) && Consistent(s.target, db.committed)
    modifies db, ctx
    ensures r.Copied? ==>
      Copying(s, source, base, order, i + 1, db.content, seenNow, copies[order[i] := ordered], ctx.skipped,
              ctx.keyValues != map[])
    ensures r.Copied? ==> forall t :: t in order ==> t in db.content
    ensures LastCommit(s, source, start, base, db.committed, order, i + 1, widen)
    ensures sound ==> ConsistentSince(db.schema, from, db.trace, db.content) && Consistent(s.target, db.committed)
    ensures sound && Works(widen(order[i])) ==> r.Copied?
    ensures r.Copied? ==> Works(widen(order[i]))
    ensures !db.enforcing && Works(widen(order[i])) && Copyable(s, source, base, order[i]) ==> r.Copied?
  {
    hide Migratable, CopiedSoFar, Consistent, ConsistentSince, ItemsSeen, KeyValues, RowsOf, HasColumns, LastCommit;
    hide Copyable, NoDup;
    var t := order[i];
    NotBefore(order, i);
    ghost var existing;
    ghost var before, saved, skipped := db.content, db.committed, ctx.skipped;
    seenNow, ordered := seen, [];
    ConsistentNow(s.target, from, db.trace, before);
    SameCopyable(s, source, base, before, t);
    var wide := EnsureTextCapacity(db, widen(t));
    LastCommitStep(s, source, start, base, saved, db.committed, order, i, widen, before, seen, copies, skipped);
    if !wide {
      r := DatabaseError;
      return;
    }
    r, existing, ordered := CopyNext(db, ctx, s, source, order, i, chunkSize, sound, base, from, seen, copies);
    if r.Copied? {
      UntouchedSoFar(s, source, base, before, order[..i], seen, copies, skipped);
      SeenStep(order, i, base, before, db.content, existing, seen);
      seenNow := if t == HISTORY then existing else seen;
    }
  }

  method CopyTables(db: Database, ctx: SharedContext, s: Setting, source: Content, order: seq<string>, chunkSize: nat,
                    widen: string -> Widening)
    returns (r: Outcome, copied: map<string, nat>, ghost seen: set<Key>, ghost copies: map<string, seq<Row>>,
             ghost reached: nat)
    requires chunkSize >= 1 && NoDup(order) && db.schema == s.target
    requires forall t :: t in order ==>
      s.Knows(t) && t in source && t in db.content && HasColumns(s.source[t], source[t])
    requires ctx.keyValues == map[] && ctx.skipped == map[]
    modifies db, ctx
    ensures r.Copied? ==> CopiedSoFar(s, source, old(db.content), db.content, order, seen, copies, ctx.skipped)
    ensures r.Copied? && HISTORY in order ==> seen == ItemsSeen(order, old(db.content), db.content)
    ensures LastCommit(s, source, old(db.committed), old(db.content), db.committed, order, reached, widen)
    ensures Migratable(s, source, Elems(order), order)
            && Consistent(s.target, old(db.content)) && Consistent(s.target, old(db.committed)) ==>
      && (r.Copied? <==> forall t :: t in order ==> Works(widen(t)))
      && ConsistentSince(db.schema, old(db.trace), db.trace, db.content) && Consistent(s.target, db.committed)
    ensures r.Copied? ==> forall t :: t in order ==> Works(widen(t))
    ensures !db.enforcing && (forall t :: t in order ==> Works(widen(t)) && Copyable(s, source, old(db.content), t)) ==>
      r.Copied?
  {
    hide *;
    r, copied, copies := Copied(0), map[], map[];
    ghost var base, start, trace := db.content, db.committed, db.trace;
    ghost var sound :=
      Migratable(s, source, Elems(order), order) && Consistent(s.target, base) && Consistent(s.target, start);
    seen, reached := {}, 0;
    NothingCommitted(s, source, start, base, order, widen);
    NothingCopiedYet(s, source, base, order, copies);
    AsBefore(s.target, trace, base);
    var i := 0;
    while i < |order|
      invariant i <= |order| && r.Copied? && reached == i && forall t :: t in order ==> t in db.content
      invariant Copying(s, source, base, order, i, db.content, seen, copies, ctx.skipped, ctx.keyValues != map[])
      invariant LastCommit(s, source, start, base, db.committed, order, i, widen)
      invariant sound ==> ConsistentSince(db.schema, trace, db.trace, db.content) && Consistent(s.target, db.committed)
      invariant forall k :: 0 <= k < i ==> Works(widen(order[k]))
    {
      ghost var ordered;
      r, seen, ordered := CopyStep(db, ctx, s, source, order, i, chunkSize, widen, start, base, trace, sound, seen,
                                   copies);
      reached := i + 1;
      assert order[i] in order;
      if !r.Copied? {
        return;
      }
      copied := copied[order[i] := r.rows];
      copies := copies[order[i] := ordered];
      i := i + 1;
    }
    AllCopied(s, source, base, order, db.content, seen, copies, ctx.skipped, ctx.keyValues != map[]);
  }

  lemma NothingCopiedYet(s: Setting, source: Content, base: Content, order: seq<string>, copies: map<string, seq<Row>>)
    ensures Copying(s, source, base, order, 0, base, {}, copies, map[], false)
  {
    assert order[..0] == [];
    NothingCopied(s, source, base, copies);
  }

  lemma AllCopied(s: Setting, source: Content, base: Content, order: seq<string>, now: Content, seen: set<Key>,
                  copies: map<string, seq<Row>>, skipped: map<string, nat>, cached: bool)
    requires Copying(s, source, base, order, |order|, now, seen, copies, skipped, cached)
    ensures CopiedSoFar(s, source, base, now, order, seen, copies, skipped)
    ensures HISTORY in order ==> seen == ItemsSeen(order, base, now)
  {
    assert order[..|order|] == order;
  }

  lemma ConsistentNow(schema: Schema, from: seq<Content>, trace: seq<Content>, now: Content)
    ensures ConsistentSince(schema, from, trace, now) ==> Consistent(schema, now)
  {
  }

  lemma NothingCopied(s: Setting, source: Content, base: Content, copies: map<string, seq<Row>>)
    ensures CopiedSoFar(s, source, base, base, [], {}, copies, map[])
  {
  }

  lemma AsBefore(schema: Schema, trace: seq<Content>, content: Content)
    ensures Consistent(schema, content) ==> ConsistentSince(schema, trace, trace, content)
  {
  }

  lemma UntouchedSoFar(s: Setting, source: Content, base: Content, now: Content, done: seq<string>, seen: set<Key>,
                       copies: map<string, seq<Row>>, skipped: map<string, nat>)
    requires CopiedSoFar(s, source, base, now, done, seen, copies, skipped)
    ensures now.Keys == base.Keys && forall t :: t in base && t !in done ==> now[t] == base[t]
  {
  }

  lemma NothingCommitted(s: Setting, source: Content, start: Content, base: Content, order: seq<string>,
                         widen: string -> Widening)
    ensures LastCommit(s, source, start, base, start, order, 0, widen)
  {
  }

  // ---- the whole job ----

  function FilteredRows(skipped: map<string, nat>, t: string): nat {
    if t in skipped then skipped[t] else 0
  }

  method VerifyCounts(content: Content, source: Content, skipped: map<string, nat>, order: seq<string>)
    returns (v: seq<Verification>, agree: bool)
    requires forall t :: t in order ==> t in content && t in source
    ensures |v| == |order|
    ensures forall i :: 0 <= i < |order| ==>
      v[i] == Verification(order[i], |source[order[i]]|, FilteredRows(skipped, order[i]), |content[order[i]]|)
    ensures agree <==> forall i :: 0 <= i < |v| ==> v[i].Matches()
  {
    v := [];
    for i := 0 to |order|
      invariant |v| == i
      invariant forall j :: 0 <= j < i ==>
        v[j] == Verification(order[j], |source[order[j]]|, FilteredRows(skipped, order[j]), |content[order[j]]|)
    {
      var t := order[i];
      v := v + [Verification(t, |source[t]|, FilteredRows(skipped, t), |content[t]|)];
    }
    agree := forall i :: 0 <= i < |v| ==> v[i].Matches();
  }

  /** What a caller can check beforehand for a job to go through without a dangling row. */
  ghost predicate JobCovered(s: Setting, source: Content, selected: seq<string>) {
    && SchemasCovered(s, Elems(selected))
    && Acyclic(TableGraph(s, selected))
    && SourceSound(s, source, Elems(selected))
    && (forall t :: t in selected ==>
          t in source && s.Transferable(t) != [] && Sortable(s, t, source[t]) && SelfInOrder(s, t, source[t]))
    && (HISTORY in selected ==> ITEMS in Dependencies(s, selected, HISTORY))
  }

  /** No table outside the job refers to one that the job empties. */
  predicate OutsideClear(schema: Schema, target: Content, selected: seq<string>) {
    forall u :: u in schema && u in target && u !in selected ==>
      forall fk :: fk in schema[u].foreignKeys ==> fk.table !in selected
  }

  lemma CoveredJobOrder(s: Setting, source: Content, target: Content, selected: seq<string>, order: seq<string>)
    requires JobCovered(s, source, selected) && NoDup(order) && Elems(order) == Elems(selected)
    requires IsKahnOrder(TableGraph(s, selected), NameLeq, order)
    ensures Migratable(s, source, Elems(order), order)
    ensures OutsideClear(s.target, target, selected) ==> ResetSafe(s.target, target, order)
    ensures HISTORY in selected ==> ItemsFirst(order)
  {
    hide Acyclic, Sortable, SourceSound, KeyCovered, IsKahnOrder, Dependencies;
    KahnPutsDependenciesFirst(TableGraph(s, selected), order);
    assert forall t :: t in order <==> t in Elems(order);
    assert forall t :: t in selected <==> t in Elems(selected);
    ReferredComeFirst(s, source, target, selected, order);
    if HISTORY in selected {
      DependencyComesFirst(s, selected, order, HISTORY, ITEMS);
    }
  }

  lemma KahnPutsDependenciesFirst(g: map<string, set<string>>, order: seq<string>)
    requires IsKahnOrder(g, NameLeq, order)
    ensures DependenciesFirst(g, order)
  {
  }

  lemma DependencyComesFirst(s: Setting, selected: seq<string>, order: seq<string>, t: string, d: string)
    requires forall t :: t in selected ==> s.Knows(t)
    requires NoDup(order) && DependenciesFirst(TableGraph(s, selected), order)
    requires t in selected && d in Dependencies(s, selected, t)
    ensures forall i, j :: 0 <= i < |order| && 0 <= j < |order| && order[i] == t && order[j] == d ==> j < i
  {
  }

  lemma ReferredComeFirst(s: Setting, source: Content, target: Content, selected: seq<string>, order: seq<string>)
    requires SchemasCovered(s, Elems(selected)) && Elems(order) == Elems(selected)
    requires forall t :: t in selected ==> s.Knows(t)
    requires DependenciesFirst(TableGraph(s, selected), order)
    ensures forall i, fk :: 0 <= i < |order| && order[i] in s.target && fk in s.target[order[i]].foreignKeys ==>
      fk.table in order[..i + 1]
  {
    forall i, fk | 0 <= i < |order| && order[i] in s.target && fk in s.target[order[i]].foreignKeys
      ensures fk.table in order[..i + 1]
    {
      var t := order[i];
      assert t in Elems(order);
      assert KeyCovered(s, Elems(selected), t, fk);
      assert order[..i + 1] == order[..i] + [t];
      if fk.table != t {
        assert fk.table in TableGraph(s, selected)[t];
        assert fk.table in Elems(order[..i]);
      }
    }
  }

  /** With every table sharing a column, the counts agree exactly when every table was empty as its copy began. */
  lemma CountsTell(s: Setting, source: Content, base: Content, now: Content, order: seq<string>, seen: set<Key>,
                   copies: map<string, seq<Row>>, skipped: map<string, nat>, v: seq<Verification>)
    requires CopiedSoFar(s, source, base, now, order, seen, copies, skipped)
    requires |v| == |order| && forall i :: 0 <= i < |order| ==>
      order[i] in now && order[i] in source &&
      v[i] == Verification(order[i], |source[order[i]]|, FilteredRows(skipped, order[i]), |now[order[i]]|)
    requires forall t :: t in order ==> s.Transferable(t) != []
    ensures (forall i :: 0 <= i < |v| ==> v[i].Matches()) <==> forall t :: t in order ==> base[t] == []
  {
    forall i | 0 <= i < |order| ensures v[i].Matches() <==> base[order[i]] == [] {
      assert TableCopied(s, order[i], source[order[i]], base[order[i]], now[order[i]], seen, copies[order[i]], skipped);
    }
    if forall i :: 0 <= i < |v| ==> v[i].Matches() {
      forall t | t in order ensures base[t] == [] {
        var i :| 0 <= i < |order| && order[i] == t;
        assert v[i].Matches();
      }
    }
  }

  /** What loading the tables of `order` made of the target. */
  ghost predicate JobLoaded(s: Setting, source: Content, base: Content, loaded: Content, order: seq<string>,
                            seen: set<Key>, copies: map<string, seq<Row>>, skipped: map<string, nat>) {
    && CopiedSoFar(s, source, base, loaded, order, seen, copies, skipped)
    && (HISTORY in order ==> seen == ItemsSeen(order, base, loaded))
  }

  /** What a completed run over the tables of `order` left behind. */
  ghost predicate JobDone(s: Setting, source: Content, base: Content, now: Content, order: seq<string>, seen: set<Key>,
                          copies: map<string, seq<Row>>, skipped: map<string, nat>, rowCountsMatch: bool) {
    && JobLoaded(s, source, base, now, order, seen, copies, skipped)
    && ((forall t :: t in order ==> s.Transferable(t) != []) ==>
         (rowCountsMatch <==> forall t :: t in order ==> base[t] == []))
  }

  ghost function Base(reset: bool, content: Content, order: seq<string>): Content {
    if reset then Emptied(content, Elems(order)) else content
  }

  /** Empty the tables if asked to, and copy them. */
  method LoadTables(db: Database, s: Setting, source: Content, order: seq<string>, chunkSize: nat, reset: bool,
                    widen: string -> Widening)
    returns (r: Outcome, copied: map<string, nat>, skipped: map<string, nat>, ghost seen: set<Key>,
             ghost copies: map<string, seq<Row>>, ghost reached: nat)
    requires chunkSize >= 1 && NoDup(order) && db.schema == s.target && db.committed == db.content
    requires forall t :: t in order ==>
      s.Knows(t) && t in source && t in db.content && HasColumns(s.source[t], source[t])
    modifies db
    ensures r.Copied? ==>
      JobLoaded(s, source, Base(reset, old(db.content), order), db.content, order, seen, copies, skipped)
    ensures LastCommit(s, source, old(db.content), Base(reset, old(db.content), order), db.committed, order, reached,
                       widen)
    ensures Migratable(s, source, Elems(order), order) && (reset ==> ResetSafe(s.target, old(db.content), order))
            && Consistent(s.target, old(db.content)) ==>
      && (r.Copied? <==> forall t :: t in order ==> Works(widen(t)))
      && ConsistentSince(s.target, old(db.trace), db.trace, db.content) && Consistent(s.target, db.committed)
    ensures r.Copied? ==> forall t :: t in order ==> Works(widen(t))
    ensures !db.enforcing && (forall t :: t in order ==> Works(widen(t)) && Copyable(s, source, old(db.content), t)) ==>
      r.Copied?
  {
    hide Consistent, ResetSafe, NoDup, Migratable, Sortable, ItemsSeen, LastCommit, CopiedSoFar, HasColumns;
    r, copied, skipped, seen, copies, reached := DatabaseError, map[], map[], {}, map[], 0;
    ghost var start := db.content;
    NothingCommitted(s, source, start, Base(reset, start, order), order, widen);
    AsBefore(s.target, db.trace, start);
    if reset {
      var ok := ResetTarget(db, order);
      if !ok {
        return;
      }
    }
    var ctx := new SharedContext();
    ghost var between := db.trace;
    r, copied, seen, copies, reached := CopyTables(db, ctx, s, source, order, chunkSize, widen);
    skipped := ctx.skipped;
    ConsistentOn(s.target, old(db.trace), between, db.trace, db.content);
  }

  /** How far the reset of sequences came, and on what it went by. */
  datatype Resets = NotReached | Reached(loaded: Content, done: nat)

  /** Where the sequences stand: reset as far as it came, or untouched. */
  ghost predicate SequencesMoved(before: Positions, now: Positions, schema: Schema, order: seq<string>,
                                 resets: Resets) {
    if resets.NotReached? then now == before
    else MovedTo(before, resets.loaded, SerialColumns(schema, order), resets.done, now)
  }

  /** The tables in the order given: empty them if asked to, copy, move the sequences, count. */
  method RunTables(db: Database, catalog: Catalog, s: Setting, source: Content, order: seq<string>, chunkSize: nat,
                   reset: bool, widen: string -> Widening)
    returns (r: JobResult, ghost seen: set<Key>, ghost copies: map<string, seq<Row>>, ghost skipped: map<string, nat>,
             ghost reached: nat, ghost resets: Resets)
    requires chunkSize >= 1 && NoDup(order) && db.schema == s.target && db.committed == db.content
    requires forall t :: t in order ==>
      s.Knows(t) && t in source && t in db.content && HasColumns(s.source[t], source[t])
    modifies db, catalog
    ensures r.Completed? || r.SequenceRefused? || r.Failed?
    ensures r.Failed? <==> resets.NotReached?
    ensures r.Completed? <==> resets.Reached? && resets.done == |SerialColumns(s.target, order)|
    ensures SequencesMoved(old(catalog.sequences), catalog.sequences, s.target, order, resets)
    ensures resets.Reached? ==> resets.loaded == db.content
    ensures resets.Reached? ==>
      JobLoaded(s, source, Base(reset, old(db.content), order), db.content, order, seen, copies, skipped)
    ensures r.Completed? ==>
      JobDone(s, source, Base(reset, old(db.content), order), db.content, order, seen, copies, skipped,
              r.rowCountsMatch)
    ensures LastCommit(s, source, old(db.content), Base(reset, old(db.content), order), db.committed, order, reached,
                       widen)
    ensures Migratable(s, source, Elems(order), order) && (reset ==> ResetSafe(s.target, old(db.content), order))
            && Consistent(s.target, old(db.content)) ==>
      && (resets.Reached? <==> forall t :: t in order ==> Works(widen(t)))
      && ConsistentSince(s.target, old(db.trace), db.trace, db.content) && Consistent(s.target, db.committed)
    ensures resets.Reached? ==> forall t :: t in order ==> Works(widen(t))
    ensures !db.enforcing && (forall t :: t in order ==> Works(widen(t)) && Copyable(s, source, old(db.content), t)) ==>
      resets.Reached?
  {
    hide *;
    resets := NotReached;
    ghost var base := Base(reset, db.content, order);
    var outcome, copied, filtered;
    outcome, copied, filtered, seen, copies, reached := LoadTables(db, s, source, order, chunkSize, reset, widen);
    skipped := filtered;
    NotMoved(catalog.sequences, s.target, order);
    if !outcome.Copied? {
      r := Failed(outcome);
      return;
    }
    var ok;
    ghost var done, before := 0, catalog.sequences;
    ok, done := catalog.ResetSequences(db.content, db.schema, order);
    resets := Reached(db.content, done);
    MovedThen(before, catalog.sequences, s.target, order, db.content, done);
    if !ok {
      r := SequenceRefused;
      return;
    }
    TablesThere(s, source, base, db.content, order, seen, copies, skipped);
    var v, agree := VerifyCounts(db.content, source, filtered, order);
    CountsAreTold(s, source, base, db.content, order, seen, copies, skipped, v, agree);
    r := Completed(copied, v, agree);
  }

  lemma NotMoved(before: Positions, schema: Schema, order: seq<string>)
    ensures SequencesMoved(before, before, schema, order, NotReached)
  {
  }

  lemma MovedThen(before: Positions, now: Positions, schema: Schema, order: seq<string>, loaded: Content, done: nat)
    requires MovedTo(before, loaded, SerialColumns(schema, order), done, now)
    ensures SequencesMoved(before, now, schema, order, Reached(loaded, done))
  {
  }

  lemma TablesThere(s: Setting, source: Content, base: Content, now: Content, order: seq<string>, seen: set<Key>,
                    copies: map<string, seq<Row>>, skipped: map<string, nat>)
    requires JobLoaded(s, source, base, now, order, seen, copies, skipped)
    ensures forall t :: t in order ==> t in now && t in source
  {
  }

  lemma CountsAreTold(s: Setting, source: Content, base: Content, now: Content, order: seq<string>, seen: set<Key>,
                      copies: map<string, seq<Row>>, skipped: map<string, nat>, v: seq<Verification>, agree: bool)
    requires JobLoaded(s, source, base, now, order, seen, copies, skipped)
    requires |v| == |order| && forall i :: 0 <= i < |order| ==>
      order[i] in now && order[i] in source &&
      v[i] == Verification(order[i], |source[order[i]]|, FilteredRows(skipped, order[i]), |now[order[i]]|)
    requires agree <==> forall i :: 0 <= i < |v| ==> v[i].Matches()
    ensures JobDone(s, source, base, now, order, seen, copies, skipped, agree)
  {
    hide TableCopied, ItemsSeen;
    if forall t :: t in order ==> s.Transferable(t) != [] {
      CountsTell(s, source, base, now, order, seen, copies, skipped, v);
    }
  }

  lemma ConsistentOn(schema: Schema, from: seq<Content>, between: seq<Content>, trace: seq<Content>, now: Content)
    ensures (exists c :: ConsistentSince(schema, from, between, c)) && ConsistentSince(schema, between, trace, now) ==>
      ConsistentSince(schema, from, trace, now)
  {
    if ConsistentSince(schema, between, trace, now) {
      if c :| ConsistentSince(schema, from, between, c) {
        forall i | |from| <= i < |trace| ensures Consistent(schema, trace[i]) {
          assert i < |between| ==> trace[i] == between[i];
        }
      }
    }
  }

  // ---- sequences after a job, told beforehand ----

  /** The item keys the filter will see once the items have arrived. */
  ghost function WillSee(s: Setting, source: Content, base: Content): set<Key> {
    KeyValues(RowsOf(base, ITEMS) + if s.Knows(ITEMS) then s.Transfer(ITEMS, {}, RowsOf(source, ITEMS)) else [], [ID])
  }

  /** The rows a table will hold, not necessarily in this order. */
  ghost function WillHold(s: Setting, source: Content, base: Content, t: string): seq<Row>
    requires s.Knows(t)
  {
    RowsOf(base, t) + s.Transfer(t, WillSee(s, source, base), RowsOf(source, t))
  }

  /** Every key column with a sequence will be empty or have a positive key. */
  ghost predicate SequencesWillDo(s: Setting, source: Content, base: Content, sequences: Positions, tables: seq<string>)
    requires forall t :: t in tables ==> s.Knows(t)
  {
    forall t :: t in tables && s.Knows(t) ==>
      forall c :: c in s.target[t].primaryKey && (t, c) in sequences ==>
        Settable(KeysIn(map[t := WillHold(s, source, base, t)], (t, c)))
  }

  /** That is exactly what the reset asks for, in a job with items first. */
  lemma WillDoIsSettable(s: Setting, source: Content, base: Content, loaded: Content, order: seq<string>,
                         seen: set<Key>, copies: map<string, seq<Row>>, skipped: map<string, nat>, sequences: Positions)
    requires JobLoaded(s, source, base, loaded, order, seen, copies, skipped)
    requires forall t :: t in order ==> s.Knows(t) && s.Transferable(t) != []
    requires HISTORY in order ==> ITEMS in order && ItemsFirst(order)
    ensures AllSettable(sequences, loaded, SerialColumns(s.target, order))
      <==> SequencesWillDo(s, source, base, sequences, order)
  {
    SerialColumnsAre(s.target, order);
    hide JobLoaded, ItemsFirst;
    forall t, c | t in order && c in s.target[t].primaryKey
      ensures KeysIn(loaded, (t, c)) == KeysIn(map[t := WillHold(s, source, base, t)], (t, c))
    {
      SameKeys(s, source, base, loaded, order, seen, copies, skipped, t, c);
    }
    hide KeysIn, WillHold, SerialColumns;
    forall e | e in SerialColumns(s.target, order) ensures e == (e.0, e.1) {
    }
    if AllSettable(sequences, loaded, SerialColumns(s.target, order)) {
      forall t, c | t in order && c in s.target[t].primaryKey && (t, c) in sequences
        ensures Settable(KeysIn(map[t := WillHold(s, source, base, t)], (t, c)))
      {
        assert (t, c) in SerialColumns(s.target, order);
      }
    }
  }

  lemma SameKeys(s: Setting, source: Content, base: Content, loaded: Content, order: seq<string>, seen: set<Key>,
                 copies: map<string, seq<Row>>, skipped: map<string, nat>, t: string, c: string)
    requires JobLoaded(s, source, base, loaded, order, seen, copies, skipped)
    requires forall t :: t in order ==> s.Knows(t) && s.Transferable(t) != []
    requires HISTORY in order ==> ITEMS in order && ItemsFirst(order)
    requires t in order
    ensures KeysIn(loaded, (t, c)) == KeysIn(map[t := WillHold(s, source, base, t)], (t, c))
  {
    SameRows(s, source, base, loaded, order, seen, copies, skipped, t);
  }

  lemma SameRows(s: Setting, source: Content, base: Content, loaded: Content, order: seq<string>, seen: set<Key>,
                 copies: map<string, seq<Row>>, skipped: map<string, nat>, t: string)
    requires JobLoaded(s, source, base, loaded, order, seen, copies, skipped)
    requires forall t :: t in order ==> s.Knows(t) && s.Transferable(t) != []
    requires HISTORY in order ==> ITEMS in order && ItemsFirst(order)
    requires t in order
    ensures t in loaded && forall p :: p in loaded[t] <==> p in WillHold(s, source, base, t)
  {
    LoadedIs(s, source, base, loaded, order, seen, copies, skipped, t);
    if t == HISTORY {
      LoadedIs(s, source, base, loaded, order, seen, copies, skipped, ITEMS);
      SameTransfer(s, ITEMS, seen, {}, copies[ITEMS], source[ITEMS]);
      assert loaded[ITEMS] == base[ITEMS] + s.Transfer(ITEMS, seen, copies[ITEMS]);
      SeenIs(s, source, base, loaded, seen);
    }
    hide WillSee;
    SameTransfer(s, t, seen, WillSee(s, source, base), copies[t], source[t]);
  }

  lemma LoadedIs(s: Setting, source: Content, base: Content, loaded: Content, order: seq<string>, seen: set<Key>,
                 copies: map<string, seq<Row>>, skipped: map<string, nat>, t: string)
    requires JobLoaded(s, source, base, loaded, order, seen, copies, skipped) && t in order
    requires s.Knows(t) && s.Transferable(t) != []
    ensures t in loaded && t in base && t in source && t in copies
    ensures loaded[t] == base[t] + s.Transfer(t, seen, copies[t])
    ensures forall row :: row in copies[t] <==> row in source[t]
    ensures HISTORY in order && ItemsFirst(order) ==> seen == KeyValues(RowsOf(loaded, ITEMS), [ID])
  {
    hide ItemsFirst, InCopyOrder;
    assert TableCopied(s, t, source[t], base[t], loaded[t], seen, copies[t], skipped);
    CopyOrderIsParentsFirst(s, t, source[t], copies[t]);
    assert forall row :: row in copies[t] <==> row in multiset(copies[t]);
    assert forall row :: row in source[t] <==> row in multiset(source[t]);
  }

  /** Only the history asks which items there are. */
  lemma SameTransfer(s: Setting, t: string, seen: set<Key>, existing: set<Key>, a: seq<Row>, b: seq<Row>)
    requires s.Knows(t) && (t == HISTORY ==> seen == existing) && forall row :: row in a <==> row in b
    ensures forall p :: p in s.Transfer(t, seen, a) <==> p in s.Transfer(t, existing, b)
  {
    forall p ensures p in s.Transfer(t, seen, a) <==> p in s.Transfer(t, existing, b) {
      TransferMembers(s, t, seen, a, p);
      TransferMembers(s, t, existing, b, p);
      hide Setting.Transfer, Setting.Adapt;
      assert forall row :: s.Kept(t, seen, row) <==> s.Kept(t, existing, row);
    }
  }

  lemma SeenIs(s: Setting, source: Content, base: Content, loaded: Content, seen: set<Key>)
    requires s.Knows(ITEMS) && ITEMS in loaded && ITEMS in base && ITEMS in source
    requires seen == KeyValues(RowsOf(loaded, ITEMS), [ID])
    requires forall p :: p in loaded[ITEMS] <==> p in base[ITEMS] || p in s.Transfer(ITEMS, {}, source[ITEMS])
    ensures seen == WillSee(s, source, base)
  {
    var all := RowsOf(base, ITEMS) + s.Transfer(ITEMS, {}, RowsOf(source, ITEMS));
    assert forall p :: p in loaded[ITEMS] <==> p in all;
  }

  /**
   * One job in a transaction on the target. Switching constraints off allows cycles, but a target may also not check
   * its foreign keys without that. The ghost results tell the order taken and how much of it the queue placed, the item
   * keys the filter saw, the rows of each table in copy order, how many tables were reached, and how far sequences were
   * reset.
   */
  method RunJob(db: Database, catalog: Catalog, s: Setting, source: Content, selected: seq<string>, chunkSize: nat,
                reset: bool, allowCycles: bool, widen: string -> Widening)
    returns (r: JobResult, ghost order: seq<string>, ghost placed: nat, ghost seen: set<Key>,
             ghost copies: map<string, seq<Row>>, ghost skipped: map<string, nat>, ghost reached: nat,
             ghost resets: Resets)
    requires chunkSize >= 1 && NoDup(selected) && db.schema == s.target && db.committed == db.content
    requires forall t :: t in selected ==>
      s.Knows(t) && t in source && t in db.content && HasColumns(s.source[t], source[t])
    modifies db, catalog
    ensures db.committed == db.content
    ensures r.NothingSelected? <==> selected == []
    ensures r.CyclicTables? <==> selected != [] && !allowCycles && !Acyclic(TableGraph(s, selected))
    ensures r.NothingSelected? || r.CyclicTables? ==> db.content == old(db.content) && resets == NotReached
    ensures r.Completed? || r.SequenceRefused? || r.Failed? ==> ResolvedOrder(TableGraph(s, selected), order, placed)
    ensures r.Completed? <==> resets.Reached? && resets.done == |SerialColumns(s.target, order)|
    ensures r.SequenceRefused? ==> resets.Reached?
    ensures SequencesMoved(old(catalog.sequences), catalog.sequences, s.target, order, resets)
    ensures resets.Reached? ==>
      JobLoaded(s, source, Base(reset, old(db.content), order), resets.loaded, order, seen, copies, skipped)
    ensures r.Completed? ==> db.content == resets.loaded
    ensures r.Completed? ==>
      JobDone(s, source, Base(reset, old(db.content), order), db.content, order, seen, copies, skipped,
              r.rowCountsMatch)
    ensures r.Completed? ==> forall c :: c in SerialColumns(s.target, order) && c in catalog.sequences ==>
      NeverCollides(KeysIn(db.content, c), catalog.sequences[c])
    ensures resets.Reached? ==> forall t :: t in selected ==> Works(widen(t))
    ensures r.SequenceRefused? || r.Failed? ==>
      LastCommit(s, source, old(db.content), Base(reset, old(db.content), order), db.content, order, reached, widen)
    ensures !r.Completed? && (forall t :: t in selected ==> !Commits(widen(t))) ==> db.content == old(db.content)
    ensures JobCovered(s, source, selected) && (reset ==> OutsideClear(s.target, old(db.content), selected))
            && Consistent(s.target, old(db.content)) && selected != [] ==>
      && (resets.Reached? <==> forall t :: t in selected ==> Works(widen(t)))
      && (r.Completed? <==>
           (forall t :: t in selected ==> Works(widen(t)))
           && SequencesWillDo(s, source, Base(reset, old(db.content), selected), old(catalog.sequences), selected))
      && (r.Completed? && reset ==> r.rowCountsMatch)
      && ConsistentSince(s.target, old(db.trace), db.trace, db.content)
      && (HISTORY in selected ==> ItemsFirst(order))
    ensures selected != [] && !db.enforcing && (allowCycles || Acyclic(TableGraph(s, selected)))
            && (forall t :: t in selected ==> Works(widen(t)) && Copyable(s, source, old(db.content), t)) ==>
      resets.Reached?
  {
    hide *;
    order, placed, seen, copies, skipped, reached, resets := [], 0, {}, map[], map[], 0, NotReached;
    NotMoved(catalog.sequences, s.target, []);
    ConsistentBack(s.target, db.trace, db.trace, db.content, db.content);
    if selected == [] {
      r := NothingSelected;
      return;
    }
    ghost var before, positions := db.content, catalog.sequences;
    ghost var covered := JobCovered(s, source, selected);
    if covered {
      CoveredIsAcyclic(s, source, selected);
    }
    var resolved;
    resolved, placed := ResolveTableOrder(s, selected, allowCycles);
    if resolved.TablesInCycle? {
      r := CyclicTables(resolved.tables);
      return;
    }
    var tables := resolved.tables;
    order := tables;
    ResolvedTables(s, selected, tables, placed);
    if covered {
      assert tables[..placed] == tables;
      CoveredJobOrder(s, source, before, selected, tables);
    }
    r, seen, copies, skipped, reached, resets :=
      RunTables(db, catalog, s, source, tables, chunkSize, reset, widen);
    if covered && resets.Reached? {
      CoveredSequences(s, source, before, reset, db.content, selected, tables, seen, copies, skipped, positions,
                       catalog.sequences, resets.done);
    }
    if r.Completed? {
      CompletedMoves(s.target, tables, positions, catalog.sequences, resets);
      db.Commit();
      CountsMatchAfterReset(s, source, before, reset, selected, tables, db.content, seen, copies, skipped,
                            r.rowCountsMatch);
    } else {
      NothingKept(s, source, before, Base(reset, before, tables), db.committed, tables, reached, widen);
      ConsistentBack(s.target, old(db.trace), db.trace, db.content, db.committed);
      db.Rollback();
    }
  }

  lemma CountsMatchAfterReset(s: Setting, source: Content, before: Content, reset: bool, selected: seq<string>,
                              tables: seq<string>, now: Content, seen: set<Key>, copies: map<string, seq<Row>>,
                              skipped: map<string, nat>, agree: bool)
    requires forall t :: t in selected ==> s.Knows(t)
    requires JobDone(s, source, Base(reset, before, tables), now, tables, seen, copies, skipped, agree)
    requires Elems(tables) == Elems(selected)
    ensures JobCovered(s, source, selected) && reset ==> agree
  {
    if JobCovered(s, source, selected) && reset {
      CoveredTables(s, source, selected, tables);
      hide JobCovered, TableCopied, ItemsSeen, Setting.Transferable;
    }
  }

  lemma ResolvedTables(s: Setting, selected: seq<string>, tables: seq<string>, placed: nat)
    requires forall t :: t in selected ==> s.Knows(t)
    requires ResolvedOrder(TableGraph(s, selected), tables, placed) && Elems(tables) == Elems(selected)
    ensures NoDup(tables) && placed <= |tables| && IsKahnOrder(TableGraph(s, selected), NameLeq, tables[..placed])
    ensures forall t :: t in tables <==> t in selected
  {
    hide IsKahnOrder, TableGraph;
    assert forall t :: t in tables <==> t in Elems(tables);
    assert forall t :: t in selected <==> t in Elems(selected);
  }

  /** In a covered job the reset goes through exactly if it can be told beforehand that it will. */
  lemma CoveredSequences(s: Setting, source: Content, before: Content, reset: bool, loaded: Content,
                         selected: seq<string>, tables: seq<string>, seen: set<Key>, copies: map<string, seq<Row>>,
                         skipped: map<string, nat>, positions: Positions, now: Positions, done: nat)
    requires (forall t :: t in selected ==> s.Knows(t)) && JobCovered(s, source, selected)
    requires Elems(tables) == Elems(selected) && (HISTORY in selected ==> ItemsFirst(tables))
    requires JobLoaded(s, source, Base(reset, before, tables), loaded, tables, seen, copies, skipped)
    requires SequencesMoved(positions, now, s.target, tables, Reached(loaded, done))
    ensures done == |SerialColumns(s.target, tables)|
      <==> SequencesWillDo(s, source, Base(reset, before, selected), positions, selected)
  {
    var base := Base(reset, before, tables);
    SameBase(before, reset, tables, selected);
    CoveredTables(s, source, selected, tables);
    AllOrStoppedIn(positions, s.target, tables, loaded, done, now);
    hide *;
    WillDoIsSettable(s, source, base, loaded, tables, seen, copies, skipped, positions);
    SameWillDo(s, source, base, positions, tables, selected);
  }

  lemma AllOrStoppedIn(positions: Positions, schema: Schema, tables: seq<string>, loaded: Content, done: nat,
                       now: Positions)
    requires SequencesMoved(positions, now, schema, tables, Reached(loaded, done))
    ensures done == |SerialColumns(schema, tables)| <==> AllSettable(positions, loaded, SerialColumns(schema, tables))
  {
    AllOrStopped(positions, loaded, SerialColumns(schema, tables), done, now);
  }

  lemma SameBase(before: Content, reset: bool, tables: seq<string>, selected: seq<string>)
    requires Elems(tables) == Elems(selected)
    ensures Base(reset, before, tables) == Base(reset, before, selected)
  {
  }

  lemma CoveredTables(s: Setting, source: Content, selected: seq<string>, tables: seq<string>)
    requires (forall t :: t in selected ==> s.Knows(t)) && JobCovered(s, source, selected)
    requires Elems(tables) == Elems(selected)
    ensures forall t :: t in tables <==> t in selected
    ensures forall t :: t in tables ==> s.Knows(t) && s.Transferable(t) != []
    ensures HISTORY in tables ==> ITEMS in tables
  {
    hide SchemasCovered, SourceSound, Sortable, SelfInOrder, Acyclic, TableGraph, Setting.Transferable;
    assert forall t :: t in tables <==> t in Elems(tables);
    assert forall t :: t in selected <==> t in Elems(selected);
  }

  lemma SameWillDo(s: Setting, source: Content, base: Content, positions: Positions, a: seq<string>, b: seq<string>)
    requires (forall t :: t in a <==> t in b) && forall t :: t in a ==> s.Knows(t)
    ensures SequencesWillDo(s, source, base, positions, a) <==> SequencesWillDo(s, source, base, positions, b)
  {
    hide WillHold, KeysIn, Settable;
  }

  lemma CompletedMoves(schema: Schema, tables: seq<string>, positions: Positions, now: Positions, resets: Resets)
    requires SequencesMoved(positions, now, schema, tables, resets)
    requires resets.Reached? && resets.done == |SerialColumns(schema, tables)|
    ensures forall c :: c in SerialColumns(schema, tables) && c in now ==>
      NeverCollides(KeysIn(resets.loaded, c), now[c])
  {
    MovedNeverCollides(positions, resets.loaded, SerialColumns(schema, tables), now);
  }

  lemma NothingKept(s: Setting, source: Content, start: Content, base: Content, committed: Content, order: seq<string>,
                    reached: nat, widen: string -> Widening)
    requires LastCommit(s, source, start, base, committed, order, reached, widen)
    ensures (forall t :: t in order ==> !Commits(widen(t))) ==> committed == start
  {
  }

  lemma ConsistentBack(schema: Schema, from: seq<Content>, trace: seq<Content>, now: Content, back: Content)
    ensures ConsistentSince(schema, from, trace, now) && Consistent(schema, back) ==>
      ConsistentSince(schema, from, trace, back)
    ensures Consistent(schema, now) ==> ConsistentSince(schema, trace, trace, now)
  {
  }

  lemma CoveredIsAcyclic(s: Setting, source: Content, selected: seq<string>)
    requires JobCovered(s, source, selected)
    ensures Acyclic(TableGraph(s, selected))
  {
  }
}
