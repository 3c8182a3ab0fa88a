/** Copying one table, chunk by chunk, through the orphan filter of the result history. */
module TableCopy {
  import opened Ordering
  import opened Relational
  import opened Kahn
  import opened RowOrder

  const HISTORY := "test_run_item_result_history"
  const ITEMS := "test_run_items"
  const ITEM_ID := "item_id"
  const ID := "id"

  /** The two schemas, and how a structured value is written into a text column. */
  datatype Setting = Setting(source: Schema, target: Schema, dumps: Value -> string) {
    predicate Knows(name: string) { name in source && name in target }

    /** The target's columns that the source has too, in the target's order. */
    function Transferable(name: string): seq<string>
      requires Knows(name)
    {
      SharedColumns(source[name], target[name].columns)
    }

    function Coerce(name: string, column: string, v: Value): Value
      requires Knows(name)
    {
      var from, to := KindOf(source[name].columns, column), KindOf(target[name].columns, column);
      if v == Null || to == JsonKind then v
      else if to == StringKind && (from == JsonKind || v.Document?) then Text(dumps(v))
      else v
    }

    function Project(name: string, row: Row): Row
      requires Knows(name)
    {
      map c | c in Transferable(name) :: Cell(row, c)
    }

    function Adapt(name: string, row: Row): Row
      requires Knows(name)
    {
      map c | c in Transferable(name) :: Coerce(name, c, Cell(row, c))
    }

    /** Only the result history is filtered: a row whose item is not in the target is dropped. */
    predicate Kept(name: string, existing: set<Key>, row: Row)
      requires Knows(name)
    {
      name == HISTORY ==> KeepsItem(existing, Project(name, row))
    }

    /** What the whole of a table turns into, in one go. */
    function Transfer(name: string, existing: set<Key>, rows: seq<Row>): (r: seq<Row>)
      requires Knows(name)
      ensures |r| <= |rows|
    {
      if rows == [] then []
      else
        var n := |rows| - 1;
        Transfer(name, existing, rows[..n]) + if Kept(name, existing, rows[n]) then [Adapt(name, rows[n])] else []
    }

    function ProjectAll(name: string, rows: seq<Row>): seq<Row>
      requires Knows(name)
    {
      seq(|rows|, i requires 0 <= i < |rows| => Project(name, rows[i]))
    }

    function AdaptAll(name: string, rows: seq<Row>): seq<Row>
      requires Knows(name)
    {
      seq(|rows|, i requires 0 <= i < |rows| => Adapt(name, rows[i]))
    }

    function Repair(name: string, existing: set<Key>, payload: seq<Row>): seq<Row> {
      if name == HISTORY then Filtered(existing, payload) else payload
    }

    function Specs(name: string): set<Spec>
      requires Knows(name)
    {
      OwnSpecs(name, source[name]) + OwnSpecs(name, target[name])
    }
  }

  function Filtered(existing: set<Key>, payload: seq<Row>): (r: seq<Row>)
    ensures |r| <= |payload|
  {
    if payload == [] then []
    else
      var n := |payload| - 1;
      Filtered(existing, payload[..n]) + if KeepsItem(existing, payload[n]) then [payload[n]] else []
  }

  function SharedColumns(source: Table, columns: seq<Column>): (r: seq<string>)
    ensures forall c :: c in r <==> c in ColumnNames(source) && exists k :: k in columns && k.name == c
  {
    if columns == [] then []
    else
      var n := |columns| - 1;
      assert columns == columns[..n] + [columns[n]];
      SharedColumns(source, columns[..n]) + if columns[n].name in ColumnNames(source) then [columns[n].name] else []
  }

  function KindOf(columns: seq<Column>, name: string): Kind {
    if columns == [] then OtherKind
    else if columns[0].name == name then columns[0].kind
    else KindOf(columns[1..], name)
  }

  predicate KeepsItem(existing: set<Key>, row: Row) {
    Cell(row, ITEM_ID) == Null || [Cell(row, ITEM_ID)] in existing
  }

  function KeyValues(rows: seq<Row>, columns: seq<string>): set<Key> {
    set r | r in rows :: KeyOf(r, columns)
  }

  /** What one job remembers between tables. */
  class SharedContext {
    var keyValues: map<(string, seq<string>), set<Key>>
    var skipped: map<string, nat>

    constructor ()
      ensures keyValues == map[] && skipped == map[]
    {
      keyValues, skipped := map[], map[];
    }

    /** The cached item keys, or those the target holds now. */
    function ExistingItems(content: Content): set<Key>
      reads this
    {
      if (ITEMS, [ID]) in keyValues then keyValues[(ITEMS, [ID])] else KeyValues(RowsOf(content, ITEMS), [ID])
    }
  }

  method LoadPrimaryKeyValues(db: Database, ctx: SharedContext, table: string, columns: seq<string>)
    returns (ok: bool, values: set<Key>)
    modifies ctx`keyValues
    ensures ok <==> (table, columns) in old(ctx.keyValues) || table in db.content
    ensures ok && (table, columns) in old(ctx.keyValues) ==> values == old(ctx.keyValues)[(table, columns)]
    ensures ok && (table, columns) !in old(ctx.keyValues) ==> values == KeyValues(db.content[table], columns)
    ensures ctx.keyValues == if ok then old(ctx.keyValues)[(table, columns) := values] else old(ctx.keyValues)
  {
    values := {};
    if (table, columns) in ctx.keyValues {
      values := ctx.keyValues[(table, columns)];
      assert ctx.keyValues == ctx.keyValues[(table, columns) := values];
      return true, values;
    }
    if table !in db.content {
      return false, values;
    }
    values := set r | r in db.content[table] :: KeyOf(r, columns);
    ctx.keyValues := ctx.keyValues[(table, columns) := values];
    ok := true;
  }

  method FilterHistory(payload: seq<Row>, existing: set<Key>) returns (kept: seq<Row>, orphans: nat)
    ensures kept == Filtered(existing, payload) && orphans == |payload| - |kept|
  {
    kept, orphans := [], 0;
    for k := 0 to |payload|
      invariant kept == Filtered(existing, payload[..k]) && orphans == k - |kept|
    {
      assert payload[..k + 1][..k] == payload[..k];
      var row := payload[k];
      var item := Cell(row, ITEM_ID);
      if item != Null && [item] !in existing {
        orphans := orphans + 1;
        continue;
      }
      kept := kept + [row];
    }
    assert payload[..|payload|] == payload;
  }

  /** Projects, repairs and adapts one chunk; `dropped` counts what the repair removed. */
  method BuildPayload(db: Database, ctx: SharedContext, s: Setting, name: string, rows: seq<Row>)
    returns (ok: bool, payload: seq<Row>, dropped: nat)
    requires s.Knows(name)
    modifies ctx`keyValues
    ensures ok <==> name != HISTORY || (ITEMS, [ID]) in old(ctx.keyValues) || ITEMS in db.content
    ensures ok ==>
      payload == s.Transfer(name, old(ctx.ExistingItems(db.content)), rows) && dropped == |rows| - |payload|
    ensures ok ==> ctx.ExistingItems(db.content) == old(ctx.ExistingItems(db.content))
    ensures ctx.keyValues == old(ctx.keyValues)
         || (ok && name == HISTORY
             && ctx.keyValues == old(ctx.keyValues)[(ITEMS, [ID]) := old(ctx.ExistingItems(db.content))])
  {
    payload, dropped := [], 0;
    var raw := s.ProjectAll(name, rows);
    var repaired := raw;
    ghost var existing := ctx.ExistingItems(db.content);
    ok := true;
    if name == HISTORY {
      var values;
      ok, values := LoadPrimaryKeyValues(db, ctx, ITEMS, [ID]);
      if !ok {
        return;
      }
      assert values == existing;
      repaired, dropped := FilterHistory(raw, values);
    }
    payload := s.AdaptAll(name, repaired);
    StagesAreTransfer(s, name, existing, rows);
  }

  /** Project, then filter, then adapt: the three passes of one chunk are one pass of Transfer. */
  lemma {:induction false} StagesAreTransfer(s: Setting, name: string, existing: set<Key>, rows: seq<Row>)
    requires s.Knows(name)
    ensures s.AdaptAll(name, s.Repair(name, existing, s.ProjectAll(name, rows))) == s.Transfer(name, existing, rows)
  {
    hide *;
    if rows == [] {
      NoStages(s, name, existing);
    } else {
      var n := |rows| - 1;
      StagesAreTransfer(s, name, existing, rows[..n]);
      AdaptProjected(s, name, rows[n]);
      RepairNext(s, name, existing, rows[..n], rows[n]);
      assert rows == rows[..n] + [rows[n]];
      TransferNext(s, name, existing, rows[..n], rows[n]);
      AdaptNext(s, name, s.Repair(name, existing, s.ProjectAll(name, rows[..n])), s.Project(name, rows[n]));
    }
  }

  lemma NoStages(s: Setting, name: string, existing: set<Key>)
    requires s.Knows(name)
    ensures s.AdaptAll(name, s.Repair(name, existing, s.ProjectAll(name, []))) == s.Transfer(name, existing, [])
  {
  }

  lemma RepairNext(s: Setting, name: string, existing: set<Key>, rows: seq<Row>, row: Row)
    requires s.Knows(name)
    ensures s.Repair(name, existing, s.ProjectAll(name, rows + [row]))
         == s.Repair(name, existing, s.ProjectAll(name, rows))
            + if s.Kept(name, existing, row) then [s.Project(name, row)] else []
  {
    var raw, front := s.ProjectAll(name, rows + [row]), s.ProjectAll(name, rows);
    assert raw == front + [s.Project(name, row)] && raw[..|rows|] == front;
  }

  lemma AdaptNext(s: Setting, name: string, rows: seq<Row>, row: Row)
    requires s.Knows(name)
    ensures s.AdaptAll(name, rows + [row]) == s.AdaptAll(name, rows) + [s.Adapt(name, row)]
    ensures s.AdaptAll(name, rows + []) == s.AdaptAll(name, rows)
  {
    assert rows + [] == rows;
  }

  lemma AdaptProjected(s: Setting, name: string, row: Row)
    requires s.Knows(name)
    ensures s.Adapt(name, s.Project(name, row)) == s.Adapt(name, row)
  {
  }

  lemma {:induction false} TransferInBatches(s: Setting, name: string, existing: set<Key>, a: seq<Row>, b: seq<Row>)
    requires s.Knows(name)
    ensures s.Transfer(name, existing, a + b) == s.Transfer(name, existing, a) + s.Transfer(name, existing, b)
    decreases |b|
  {
    hide *;
    if b == [] {
      assert a + b == a;
      TransferNone(s, name, existing);
    } else {
      var front, row := b[..|b| - 1], b[|b| - 1];
      TransferInBatches(s, name, existing, a, front);
      TransferNext(s, name, existing, a + front, row);
      TransferNext(s, name, existing, front, row);
      assert b == front + [row] && a + b == a + front + [row];
    }
  }

  lemma TransferNone(s: Setting, name: string, existing: set<Key>)
    requires s.Knows(name)
    ensures s.Transfer(name, existing, []) == []
  {
  }

  lemma TransferNext(s: Setting, name: string, existing: set<Key>, rows: seq<Row>, row: Row)
    requires s.Knows(name)
    ensures s.Transfer(name, existing, rows + [row])
         == s.Transfer(name, existing, rows) + if s.Kept(name, existing, row) then [s.Adapt(name, row)] else []
  {
    assert (rows + [row])[..|rows|] == rows;
  }

  /** What arrives is what is kept, adapted; in whatever order the rows come. */
  lemma {:induction false} TransferMembers(s: Setting, name: string, existing: set<Key>, rows: seq<Row>, p: Row)
    requires s.Knows(name)
    ensures p in s.Transfer(name, existing, rows) <==>
      exists row :: row in rows && s.Kept(name, existing, row) && p == s.Adapt(name, row)
  {
    hide *;
    if rows == [] {
      TransferNone(s, name, existing);
    } else {
      var n := |rows| - 1;
      assert rows == rows[..n] + [rows[n]];
      TransferMembers(s, name, existing, rows[..n], p);
      TransferNext(s, name, existing, rows[..n], rows[n]);
    }
  }

  /** The item keys are at hand whenever the filter asks for them. */
  ghost predicate ItemsReadable(ctx: SharedContext, content: Content, name: string)
    reads ctx
  {
    name == HISTORY ==> (ITEMS, [ID]) in ctx.keyValues || ITEMS in content
  }

  /** What writing a payload to a table does to the database. */
  ghost predicate Written(schema: Schema, enforcing: bool, name: string, before: Content, trace: seq<Content>,
                          payload: seq<Row>, after: Content, longer: seq<Content>) {
    && after == Append(before, name, payload)
    && longer == trace + States(before, name, payload)
    && (enforcing ==> Insertable(schema, before, name, payload))
  }

  /** When the rows can be written: the filter finds its item keys and no row dangles as it goes in. */
  ghost predicate Fits(schema: Schema, enforcing: bool, readable: bool, content: Content, s: Setting, name: string,
                       existing: set<Key>, rows: seq<Row>)
    requires s.Knows(name)
  {
    && (rows != [] ==> readable)
    && (enforcing ==> Insertable(schema, content, name, s.Transfer(name, existing, rows)))
  }

  method CopyBatch(db: Database, ctx: SharedContext, s: Setting, name: string, batch: seq<Row>,
                   ghost existing: set<Key>)
    returns (ok: bool, inserted: nat, dropped: nat)
    requires s.Knows(name) && name in db.content
    requires name == HISTORY ==> existing == ctx.ExistingItems(db.content)
    modifies db`content, db`trace, ctx`keyValues
    ensures var payload := s.Transfer(name, existing, batch);
      && (ok <==> old(ItemsReadable(ctx, db.content, name))
                  && (db.enforcing ==> Insertable(db.schema, old(db.content), name, payload)))
      && (ok ==> Written(db.schema, db.enforcing, name, old(db.content), old(db.trace), payload, db.content, db.trace)
                 && inserted == |payload| && dropped == |batch| - |payload|)
    ensures ok && name == HISTORY ==> existing == ctx.ExistingItems(db.content)
    ensures ok ==> ItemsReadable(ctx, db.content, name)
    ensures name != HISTORY ==> ctx.keyValues == old(ctx.keyValues)
  {
    var payload;
    inserted := 0;
    ok, payload, dropped := BuildPayload(db, ctx, s, name, batch);
    OnlyHistoryLooksAtItems(s, name, existing, old(ctx.ExistingItems(db.content)), batch);
    if ok && payload != [] {
      ok := db.Insert(name, payload);
      inserted := |payload|;
    } else {
      AppendNothing(db.content, name);
    }
  }

  lemma {:induction false} OnlyHistoryLooksAtItems(s: Setting, name: string, a: set<Key>, b: set<Key>, rows: seq<Row>)
    requires s.Knows(name) && (name == HISTORY ==> a == b)
    ensures s.Transfer(name, a, rows) == s.Transfer(name, b, rows)
  {
    if rows != [] {
      OnlyHistoryLooksAtItems(s, name, a, b, rows[..|rows| - 1]);
    }
  }

  /**
   * Both loops of the script: successive chunks of the rows, whether slices of a sorted list or fetches from a cursor.
   * The chunk size does not show in the result.
   */
  method CopyChunks(db: Database, ctx: SharedContext, s: Setting, name: string, rows: seq<Row>, chunkSize: nat,
                    ghost existing: set<Key>)
    returns (ok: bool, copied: nat)
    requires s.Knows(name) && name in db.content && chunkSize >= 1
    requires existing == ctx.ExistingItems(db.content)
    modifies db`content, db`trace, ctx
    ensures ok <==>
      Fits(db.schema, db.enforcing, old(ItemsReadable(ctx, db.content, name)), old(db.content), s, name, existing, rows)
    ensures ok ==>
      var payload := s.Transfer(name, existing, rows);
      && Written(db.schema, db.enforcing, name, old(db.content), old(db.trace), payload, db.content, db.trace)
      && copied == |payload| && ctx.skipped == old(ctx.skipped)[name := |rows| - |payload|]
    ensures ok && name == HISTORY ==> existing == ctx.ExistingItems(db.content)
    ensures name != HISTORY ==> ctx.keyValues == old(ctx.keyValues)
  {
    hide Setting.Transfer, Written, Fits, Insertable, ItemsReadable, ChunksWritten, Append;
    ghost var before, trace := db.content, db.trace;
    ghost var readable := ItemsReadable(ctx, db.content, name);
    ok, copied := true, 0;
    var dropped := 0;
    var offset := 0;
    NoChunkYet(db.schema, db.enforcing, s, name, existing, rows, before, trace);
    while offset < |rows|
      invariant offset <= |rows| && name in db.content && ctx.skipped == old(ctx.skipped)
      invariant ChunksWritten(db.schema, db.enforcing, s, name, existing, rows, offset, before, trace, db.content,
                              db.trace, copied, dropped)
      invariant name == HISTORY ==> existing == ctx.ExistingItems(db.content)
      invariant name != HISTORY ==> ctx.keyValues == old(ctx.keyValues)
      invariant if offset == 0 then ItemsReadable(ctx, db.content, name) == readable
                else ItemsReadable(ctx, db.content, name) && readable
    {
      var next := if offset + chunkSize < |rows| then offset + chunkSize else |rows|;
      ghost var middle, middleTrace, soFar := db.content, db.trace, copied;
      var fits, inserted, orphans := CopyBatch(db, ctx, s, name, rows[offset..next], existing);
      if !fits {
        ChunkStops(db.schema, db.enforcing, s, name, existing, rows, offset, next, before, trace, middle, middleTrace,
                   copied, dropped, readable);
        return false, 0;
      }
      OneMoreChunk(db.schema, db.enforcing, s, name, existing, rows, offset, next, before, trace, middle, middleTrace,
                   copied, dropped, db.content, db.trace);
      copied, dropped, offset := copied + inserted, dropped + orphans, next;
    }
    AllChunks(db.schema, db.enforcing, s, name, existing, rows, before, trace, db.content, db.trace, copied, dropped,
              readable);
    ctx.skipped := ctx.skipped[name := dropped];
  }

  /** The rows up to `offset` have been dealt with. */
  ghost predicate ChunksWritten(schema: Schema, enforcing: bool, s: Setting, name: string, existing: set<Key>,
                                rows: seq<Row>, offset: nat, before: Content, trace: seq<Content>, now: Content,
                                longer: seq<Content>, copied: nat, dropped: int)
    requires s.Knows(name) && offset <= |rows|
  {
    && copied == |s.Transfer(name, existing, rows[..offset])| && dropped == offset - copied
    && Written(schema, enforcing, name, before, trace, s.Transfer(name, existing, rows[..offset]), now, longer)
  }

  lemma NoChunkYet(schema: Schema, enforcing: bool, s: Setting, name: string, existing: set<Key>, rows: seq<Row>,
                   before: Content, trace: seq<Content>)
    requires s.Knows(name) && name in before
    ensures ChunksWritten(schema, enforcing, s, name, existing, rows, 0, before, trace, before, trace, 0, 0)
  {
    assert rows[..0] == [];
    TransferNone(s, name, existing);
    AppendNothing(before, name);
  }

  lemma OneMoreChunk(schema: Schema, enforcing: bool, s: Setting, name: string, existing: set<Key>, rows: seq<Row>,
                     offset: nat, next: nat, before: Content, trace: seq<Content>, middle: Content,
                     middleTrace: seq<Content>, copied: nat, dropped: int, after: Content, longer: seq<Content>)
    requires s.Knows(name) && offset <= next <= |rows|
    requires ChunksWritten(schema, enforcing, s, name, existing, rows, offset, before, trace, middle, middleTrace,
                           copied, dropped)
    requires var payload := s.Transfer(name, existing, rows[offset..next]);
      Written(schema, enforcing, name, middle, middleTrace, payload, after, longer)
    ensures var payload := s.Transfer(name, existing, rows[offset..next]);
      ChunksWritten(schema, enforcing, s, name, existing, rows, next, before, trace, after, longer, copied + |payload|,
                    dropped + |rows[offset..next]| - |payload|)
    ensures dropped >= 0 && name in after
  {
    hide Setting.Transfer, Insertable, States;
    BatchExtends(schema, s, name, existing, rows, offset, next, before);
    WrittenTwice(schema, enforcing, name, before, trace, s.Transfer(name, existing, rows[..offset]), middle,
                 middleTrace, s.Transfer(name, existing, rows[offset..next]), after, longer);
  }

  /** A batch that cannot be written means that the rows cannot. */
  lemma ChunkStops(schema: Schema, enforcing: bool, s: Setting, name: string, existing: set<Key>, rows: seq<Row>,
                   offset: nat, next: nat, before: Content, trace: seq<Content>, middle: Content,
                   middleTrace: seq<Content>, copied: nat, dropped: int, readable: bool)
    requires s.Knows(name) && offset < next <= |rows|
    requires ChunksWritten(schema, enforcing, s, name, existing, rows, offset, before, trace, middle, middleTrace,
                           copied, dropped)
    requires !readable
      || (enforcing && !Insertable(schema, middle, name, s.Transfer(name, existing, rows[offset..next])))
    ensures !Fits(schema, enforcing, readable, before, s, name, existing, rows)
  {
    hide Setting.Transfer, Insertable, States;
    BatchExtends(schema, s, name, existing, rows, offset, next, before);
    RestExtends(schema, before, s, name, existing, rows, next);
  }

  lemma AllChunks(schema: Schema, enforcing: bool, s: Setting, name: string, existing: set<Key>, rows: seq<Row>,
                  before: Content, trace: seq<Content>, now: Content, longer: seq<Content>, copied: nat, dropped: int,
                  readable: bool)
    requires s.Knows(name) && (rows != [] ==> readable)
    requires ChunksWritten(schema, enforcing, s, name, existing, rows, |rows|, before, trace, now, longer, copied,
                           dropped)
    ensures Fits(schema, enforcing, readable, before, s, name, existing, rows)
    ensures var payload := s.Transfer(name, existing, rows);
      && Written(schema, enforcing, name, before, trace, payload, now, longer)
      && copied == |payload| && dropped == |rows| - |payload| >= 0
  {
    assert rows[..|rows|] == rows;
  }

  lemma WrittenTwice(schema: Schema, enforcing: bool, name: string, before: Content, trace: seq<Content>, a: seq<Row>,
                     middle: Content, middleTrace: seq<Content>, b: seq<Row>, after: Content, longer: seq<Content>)
    requires Written(schema, enforcing, name, before, trace, a, middle, middleTrace)
    requires Written(schema, enforcing, name, middle, middleTrace, b, after, longer)
    ensures Written(schema, enforcing, name, before, trace, a + b, after, longer)
  {
    AppendTwice(before, name, a, b);
    StatesInBatches(before, name, a, b);
    assert longer == trace + (States(before, name, a) + States(middle, name, b));
    if enforcing {
      InsertableInBatches(schema, before, name, a, b);
    }
  }

  /** Transferring the rows up to `next` is transferring those up to `offset` and then the batch. */
  lemma BatchExtends(schema: Schema, s: Setting, name: string, existing: set<Key>, rows: seq<Row>,
                     offset: nat, next: nat, before: Content)
    requires s.Knows(name) && offset <= next <= |rows|
    ensures var a, b := s.Transfer(name, existing, rows[..offset]), s.Transfer(name, existing, rows[offset..next]);
      && s.Transfer(name, existing, rows[..next]) == a + b
      && (Insertable(schema, before, name, a + b) ==> Insertable(schema, Append(before, name, a), name, b))
  {
    assert rows[..next] == rows[..offset] + rows[offset..next];
    TransferInBatches(s, name, existing, rows[..offset], rows[offset..next]);
    InsertableInBatches(schema, before, name,
      s.Transfer(name, existing, rows[..offset]), s.Transfer(name, existing, rows[offset..next]));
  }

  lemma RestExtends(schema: Schema, content: Content, s: Setting, name: string, existing: set<Key>, rows: seq<Row>,
                    next: nat)
    requires s.Knows(name) && next <= |rows|
    ensures Insertable(schema, content, name, s.Transfer(name, existing, rows)) ==>
            Insertable(schema, content, name, s.Transfer(name, existing, rows[..next]))
  {
    assert rows == rows[..next] + rows[next..];
    TransferInBatches(s, name, existing, rows[..next], rows[next..]);
    InsertableInBatches(schema, content, name, s.Transfer(name, existing, rows[..next]),
                        s.Transfer(name, existing, rows[next..]));
  }

  // ---- one table ----

  datatype Outcome = Copied(rows: nat) | RowsInCycle | MissingColumn | DatabaseError

  /** When the rows of a table can be put in order at all. */
  ghost predicate Sortable(s: Setting, name: string, rows: seq<Row>)
    requires s.Knows(name)
  {
    rows == [] || s.Specs(name) == {} ||
    var pk := s.source[name].primaryKey;
    && ColumnsKnown(ColumnNames(s.source[name]), pk, s.Specs(name))
    && NoDup(Keys(rows, pk))
    && Acyclic(RowGraph(ByKey(rows, pk), s.Specs(name)))
  }

  ghost predicate InCopyOrder(s: Setting, name: string, rows: seq<Row>, ordered: seq<Row>)
    requires s.Knows(name)
  {
    if rows == [] || s.Specs(name) == {} then ordered == rows
    else
      var pk := s.source[name].primaryKey;
      NoDup(Keys(rows, pk)) && exists order :: IsSorting(rows, pk, s.Specs(name), order, ordered)
  }

  /** The copy order holds the same rows, each as often, parents first. */
  lemma CopyOrderIsParentsFirst(s: Setting, name: string, rows: seq<Row>, ordered: seq<Row>)
    requires s.Knows(name) && InCopyOrder(s, name, rows, ordered)
    ensures multiset(ordered) == multiset(rows) && |ordered| == |rows|
    ensures rows != [] ==> ParentsFirst(rows, s.source[name].primaryKey, s.Specs(name), ordered)
  {
    var pk := s.source[name].primaryKey;
    if rows != [] && s.Specs(name) != {} {
      var order :| IsSorting(rows, pk, s.Specs(name), order, ordered);
      SortingIsParentsFirst(rows, pk, s.Specs(name), order, ordered);
    }
    assert |multiset(ordered)| == |ordered| && |multiset(rows)| == |rows|;
  }

  /** The rows that the SELECT returns determine the order they are copied in. */
  lemma CopyOrderIsUnique(s: Setting, name: string, rows: seq<Row>, a: seq<Row>, b: seq<Row>)
    requires s.Knows(name) && InCopyOrder(s, name, rows, a) && InCopyOrder(s, name, rows, b)
    ensures a == b
  {
    if rows != [] && s.Specs(name) != {} {
      var pk, specs := s.source[name].primaryKey, s.Specs(name);
      var orderA :| IsSorting(rows, pk, specs, orderA, a);
      var orderB :| IsSorting(rows, pk, specs, orderB, b);
      KeyLeqIsTotal();
      KahnOrderIsUnique(RowGraph(ByKey(rows, pk), specs), KeyLeq, orderA, orderB);
    }
  }

  /** A table without self-references keeps the order of the SELECT. */
  method OrderRows(s: Setting, name: string, rows: seq<Row>) returns (r: SortResult)
    requires s.Knows(name) && forall row :: row in rows ==> row.Keys == ColumnNames(s.source[name])
    ensures r.Ordered? <==> Sortable(s, name, rows)
    ensures r.Ordered? ==> InCopyOrder(s, name, rows, r.rows) && (r.rows == [] <==> rows == [])
  {
    var source, target := s.source[name], s.target[name];
    var specs := SelfReferentialSpecs(name, [source, target]);
    assert Elems(specs) == s.Specs(name);
    if specs == [] {
      return Ordered(rows);
    }
    assert specs[0] in s.Specs(name);
    ghost var order;
    r, order := SortRows(rows, ColumnNames(source), source.primaryKey, specs);
    if r.Ordered? {
      assert InCopyOrder(s, name, rows, r.rows);
      CopyOrderIsParentsFirst(s, name, rows, r.rows);
    }
  }

  /**
   * Appends the source rows of one table to the target's. `rows` is what the ordered SELECT on the source returns;
   * `ordered` is the order the rows were written in.
   */
  method CopyTable(db: Database, ctx: SharedContext, s: Setting, name: string, rows: seq<Row>, chunkSize: nat)
    returns (outcome: Outcome, ghost ordered: seq<Row>)
    requires s.Knows(name) && name in db.content && chunkSize >= 1
    requires forall row :: row in rows ==> row.Keys == ColumnNames(s.source[name])
    modifies db`content, db`trace, ctx
    ensures s.Transferable(name) == [] ==>
      outcome == Copied(0) && db.content == old(db.content) && db.trace == old(db.trace)
      && ctx.skipped == old(ctx.skipped)
      && ctx.keyValues == old(ctx.keyValues)
    ensures s.Transferable(name) != [] ==>
      var payload := s.Transfer(name, old(ctx.ExistingItems(db.content)), ordered);
      && (Sortable(s, name, rows) ==> InCopyOrder(s, name, rows, ordered))
      && (outcome.Copied? ==>
          && outcome.rows == |payload|
          && ctx.skipped == old(ctx.skipped)[name := |ordered| - |payload|]
          && Written(db.schema, db.enforcing, name, old(db.content), old(db.trace), payload, db.content, db.trace))
      && (outcome.Copied? <==>
          && Sortable(s, name, rows)
          && Fits(db.schema, db.enforcing, old(ItemsReadable(ctx, db.content, name)), old(db.content), s, name,
                  old(ctx.ExistingItems(db.content)), ordered))
    ensures outcome.Copied? && name == HISTORY ==> ctx.ExistingItems(db.content) == old(ctx.ExistingItems(db.content))
    ensures name != HISTORY ==> ctx.keyValues == old(ctx.keyValues)
  {
    hide Sortable, InCopyOrder, Written, Fits, ItemsReadable, SharedContext.ExistingItems, SharedColumns;
    hide Setting.Transfer, ColumnNames;
    ordered := rows;
    ghost var before, existing := db.content, ctx.ExistingItems(db.content);
    ghost var readable := ItemsReadable(ctx, db.content, name);
    if s.Transferable(name) == [] {
      return Copied(0), rows;
    }
    var sorted := OrderRows(s, name, rows);
    match sorted
    case RowCycle => outcome := RowsInCycle;
    case UnknownColumn => outcome := MissingColumn;
    case Ordered(toCopy) =>
      ordered := toCopy;
      var ok, copied := CopyChunks(db, ctx, s, name, toCopy, chunkSize, existing);
      assert ok <==> Fits(db.schema, db.enforcing, readable, before, s, name, existing, ordered);
      outcome := if ok then Copied(copied) else DatabaseError;
  }
}
