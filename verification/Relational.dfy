/** Tables, rows and foreign keys: what the migrator reads, and the database it writes to. */
module Relational {
  import opened Ordering

  /** A column value. A document stands for what a JSON column holds (a dict, a list, a set or a tuple). */
  datatype Value = Null | Number(n: int) | Text(s: string) | Document(d: int)

  datatype Kind = JsonKind | StringKind | OtherKind
  datatype Column = Column(name: string, kind: Kind)
  datatype ForeignKey = ForeignKey(columns: seq<string>, table: string, referred: seq<string>)
  datatype Table = Table(columns: seq<Column>, primaryKey: seq<string>, foreignKeys: seq<ForeignKey>)

  type Schema = map<string, Table>
  type Row = map<string, Value>
  type Content = map<string, seq<Row>>
  type Key = seq<Value>

  function Cell(row: Row, column: string): Value {
    if column in row then row[column] else Null
  }

  function KeyOf(row: Row, columns: seq<string>): (k: Key)
    ensures |k| == |columns|
  {
    seq(|columns|, i requires 0 <= i < |columns| => Cell(row, columns[i]))
  }

  function ColumnNames(t: Table): set<string> {
    set c | c in t.columns :: c.name
  }

  /** MATCH SIMPLE: a key with a NULL in it refers to nothing. */
  predicate Satisfied(content: Content, row: Row, fk: ForeignKey) {
    || Null in KeyOf(row, fk.columns)
    || (fk.table in content && exists p :: p in content[fk.table] && KeyOf(p, fk.referred) == KeyOf(row, fk.columns))
  }

  predicate RowSatisfied(schema: Schema, content: Content, t: string, row: Row) {
    t in schema ==> forall fk :: fk in schema[t].foreignKeys ==> Satisfied(content, row, fk)
  }

  /** No row of any table refers to a row that is not there. */
  ghost predicate Consistent(schema: Schema, content: Content) {
    forall t, row :: t in content && row in content[t] ==> RowSatisfied(schema, content, t, row)
  }

  function RowsOf(content: Content, t: string): seq<Row> {
    if t in content then content[t] else []
  }

  function Append(content: Content, t: string, rows: seq<Row>): Content {
    content[t := RowsOf(content, t) + rows]
  }

  /** The states a table passes through while rows are added one by one. */
  ghost function States(content: Content, t: string, rows: seq<Row>): (s: seq<Content>)
    ensures |s| == |rows|
  {
    seq(|rows|, k requires 0 <= k < |rows| => Append(content, t, rows[..k + 1]))
  }

  lemma AppendNothing(content: Content, t: string)
    requires t in content
    ensures Append(content, t, []) == content
  {
    assert content[t] + [] == content[t];
  }

  lemma AppendTwice(content: Content, t: string, a: seq<Row>, b: seq<Row>)
    ensures Append(Append(content, t, a), t, b) == Append(content, t, a + b)
  {
    assert RowsOf(content, t) + (a + b) == (RowsOf(content, t) + a) + b;
  }

  /** Adding rows in two batches passes through the same states as adding them in one. */
  lemma StatesInBatches(content: Content, t: string, a: seq<Row>, b: seq<Row>)
    ensures States(content, t, a + b) == States(content, t, a) + States(Append(content, t, a), t, b)
  {
    forall k | 0 <= k < |a + b|
      ensures States(content, t, a + b)[k] == (States(content, t, a) + States(Append(content, t, a), t, b))[k]
    {
      if k < |a| {
        assert (a + b)[..k + 1] == a[..k + 1];
      } else {
        assert (a + b)[..k + 1] == a + b[..k - |a| + 1];
        AppendTwice(content, t, a, b[..k - |a| + 1]);
      }
    }
  }

  lemma InsertableInBatches(schema: Schema, content: Content, t: string, a: seq<Row>, b: seq<Row>)
    ensures Insertable(schema, content, t, a + b) <==>
            Insertable(schema, content, t, a) && Insertable(schema, Append(content, t, a), t, b)
  {
    forall k | 0 <= k < |a| ensures (a + b)[..k + 1] == a[..k + 1] && (a + b)[k] == a[k] {}
    forall k | 0 <= k < |b|
      ensures Append(content, t, (a + b)[..|a| + k + 1]) == Append(Append(content, t, a), t, b[..k + 1])
      ensures (a + b)[|a| + k] == b[k]
    {
      assert (a + b)[..|a| + k + 1] == a + b[..k + 1];
      AppendTwice(content, t, a, b[..k + 1]);
    }
    if Insertable(schema, content, t, a + b) {
      forall k | 0 <= k < |a| ensures RowSatisfied(schema, Append(content, t, a[..k + 1]), t, a[k]) {
        assert RowSatisfied(schema, Append(content, t, (a + b)[..k + 1]), t, (a + b)[k]);
      }
      forall k | 0 <= k < |b|
        ensures RowSatisfied(schema, Append(Append(content, t, a), t, b[..k + 1]), t, b[k])
      {
        assert RowSatisfied(schema, Append(content, t, (a + b)[..|a| + k + 1]), t, (a + b)[|a| + k]);
      }
    }
    if Insertable(schema, content, t, a) && Insertable(schema, Append(content, t, a), t, b) {
      forall k | 0 <= k < |a + b| ensures RowSatisfied(schema, Append(content, t, (a + b)[..k + 1]), t, (a + b)[k]) {
        if k >= |a| {
          assert RowSatisfied(schema, Append(Append(content, t, a), t, b[..k - |a| + 1]), t, b[k - |a|]);
        }
      }
    }
  }

  /** Rows go in one at a time and each may refer to those before it and to itself. */
  predicate Insertable(schema: Schema, content: Content, t: string, rows: seq<Row>) {
    forall k :: 0 <= k < |rows| ==> RowSatisfied(schema, Append(content, t, rows[..k + 1]), t, rows[k])
  }

  /** The state once every row of t is deleted leaves no other row without its parent. */
  predicate Deletable(schema: Schema, content: Content, t: string) {
    var after := content[t := []];
    forall u :: u in after && u in schema ==>
      forall row :: row in after[u] ==>
        forall fk :: fk in schema[u].foreignKeys && fk.table == t ==> Satisfied(after, row, fk)
  }

  /**
   * The target database inside a transaction, and what a rollback returns to. `trace` records the state after every row
   * written or table emptied.
   */
  class Database {
    const schema: Schema
    const enforcing: bool
    var content: Content
    var committed: Content
    ghost var trace: seq<Content>

    constructor (schema: Schema, enforcing: bool, content: Content)
      ensures this.schema == schema && this.enforcing == enforcing && this.content == committed == content
        && trace == []
    {
      this.schema, this.enforcing, this.content, committed, trace := schema, enforcing, content, content, [];
    }

    method Commit()
      modifies `committed
      ensures committed == content
    {
      committed := content;
    }

    method Rollback()
      modifies `content
      ensures content == committed
    {
      content := committed;
    }

    method DeleteAll(t: string) returns (ok: bool)
      requires t in content
      modifies `content, `trace
      ensures ok <==> !enforcing || Deletable(schema, old(content), t)
      ensures ok ==> content == old(content)[t := []] && trace == old(trace) + [content]
      ensures !ok ==> content == old(content) && trace == old(trace)
    {
      ok := !enforcing || Deletable(schema, content, t);
      if ok {
        content := content[t := []];
        trace := trace + [content];
      }
    }

    method Insert(t: string, rows: seq<Row>) returns (ok: bool)
      requires t in content
      modifies `content, `trace
      ensures ok <==> !enforcing || Insertable(schema, old(content), t, rows)
      ensures ok ==> content == Append(old(content), t, rows)
      ensures ok ==> trace == old(trace) + States(old(content), t, rows)
      ensures !ok ==> content == old(content) && trace == old(trace)
    {
      var before := content;
      ghost var states: seq<Content> := [];
      assert RowsOf(content, t) + rows[..0] == RowsOf(content, t);
      var k := 0;
      while k < |rows|
        invariant k <= |rows| && before == old(content)
        invariant content == Append(before, t, rows[..k]) && trace == old(trace)
        invariant enforcing ==> forall i :: 0 <= i < k ==>
          RowSatisfied(schema, Append(before, t, rows[..i + 1]), t, rows[i])
        invariant states == States(before, t, rows)[..k]
      {
        assert rows[..k + 1] == rows[..k] + [rows[k]];
        content := content[t := content[t] + [rows[k]]];
        assert (before[t] + rows[..k]) + [rows[k]] == before[t] + rows[..k + 1];
        if enforcing && !RowSatisfied(schema, content, t, rows[k]) {
          content := before;
          return false;
        }
        states := states + [content];
        k := k + 1;
      }
      assert rows[..k] == rows;
      trace := trace + states;
      ok := true;
    }
  }

  // ---- the orders Python sorts names and key tuples by ----

  function KindRank(v: Value): int {
    match v case Null => 0 case Number(_) => 1 case Text(_) => 2 case Document(_) => 3
  }

  /** Values of one key column have one type and compare by it; across types any fixed order will do. */
  predicate ValueLeq(a: Value, b: Value) {
    if KindRank(a) != KindRank(b) then KindRank(a) < KindRank(b)
    else match a
      case Null => true
      case Number(n) => n <= b.n
      case Text(s) => NameLeq(s, b.s)
      case Document(d) => d <= b.d
  }

  predicate KeyLeq(a: Key, b: Key) { LexLeq(ValueLeq, a, b) }

  lemma KeyLeqIsTotal()
    ensures TotalOrder(KeyLeq)
  {
    NameLeqIsTotal();
    assert TotalOrder(ValueLeq);
    forall a, b ensures (KeyLeq(a, b) || KeyLeq(b, a)) && (KeyLeq(a, b) && KeyLeq(b, a) ==> a == b) {
      LexTotal(ValueLeq, a, b);
    }
    forall a, b, c | KeyLeq(a, b) && KeyLeq(b, c) ensures KeyLeq(a, c) {
      LexTransitive(ValueLeq, a, b, c);
    }
  }
}
