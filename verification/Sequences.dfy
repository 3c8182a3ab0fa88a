/** Sequences behind serial key columns, after rows with explicit keys have been copied in. */
module Sequences {
  import opened Ordering
  import opened Relational

  /** A table and one of its columns. */
  type Serial = (string, string)

  /** The last value given out, or the first one if none has been. */
  datatype Sequence = Sequence(last: int, called: bool)

  type Positions = map<Serial, Sequence>

  /** The numbers in a column. */
  function KeysIn(content: Content, c: Serial): set<int> {
    set row | row in RowsOf(content, c.0) && Cell(row, c.1).Number? :: Cell(row, c.1).n
  }

  function NextOf(s: Sequence): int {
    if s.called then s.last + 1 else s.last
  }

  /** The n-th key the sequence will give out. */
  function Drawn(s: Sequence, n: nat): int {
    NextOf(s) + n
  }

  /** The sequence is past every key. */
  ghost predicate Ahead(keys: set<int>, s: Sequence) {
    forall k :: k in keys ==> k < NextOf(s)
  }

  /** Inserts without a key, as many as there may be, all get keys that are not in use. */
  ghost predicate NeverCollides(keys: set<int>, s: Sequence) {
    forall n: nat :: Drawn(s, n) !in keys
  }

  lemma AheadNeverCollides(keys: set<int>, s: Sequence)
    ensures Ahead(keys, s) <==> NeverCollides(keys, s)
  {
    if NeverCollides(keys, s) {
      forall k | k in keys ensures k < NextOf(s) {
        assert k < NextOf(s) || Drawn(s, k - NextOf(s)) == k;
      }
    }
  }

  /** Copying keys without moving the sequence: the next insert takes a key that is there already. */
  lemma CopiedKeysCollide()
    ensures !NeverCollides({1, 2, 3}, Sequence(1, false))
  {
    AheadNeverCollides({1, 2, 3}, Sequence(1, false));
    assert 1 in {1, 2, 3};
  }

  // ---- the reset ----

  /** A sequence cannot be set below one, which is what the greatest key has to reach if there is a key. */
  predicate Settable(keys: set<int>) {
    keys == {} || exists k :: k in keys && k >= 1
  }

  function Greatest(keys: set<int>): (max: int)
    requires keys != {}
    ensures max in keys && forall k :: k in keys ==> k <= max
  {
    GreatestExists(keys);
    var max :| max in keys && forall k :: k in keys ==> k <= max;
    max
  }

  lemma Member<T>(s: set<T>) returns (x: T)
    requires s != {}
    ensures x in s
  {
    x :| x in s;
  }

  lemma {:induction false} GreatestExists(keys: set<int>)
    requires keys != {}
    ensures exists max :: max in keys && forall k :: k in keys ==> k <= max
  {
    var x := Member(keys);
    if keys - {x} == {} {
      assert forall k :: k in keys ==> k == x || k in keys - {x};
    } else {
      GreatestExists(keys - {x});
      var m :| m in keys - {x} && forall k :: k in keys - {x} ==> k <= m;
      var max := if m < x then x else m;
      forall k | k in keys ensures k <= max {
        assert k == x || k in keys - {x};
      }
      assert max in keys;
    }
  }

  /** Set to the greatest key, or to one, not yet given out, if there is none. */
  function Reset(keys: set<int>): Sequence {
    if keys == {} then Sequence(1, false) else Sequence(Greatest(keys), true)
  }

  lemma ResetNeverCollides(keys: set<int>)
    ensures NeverCollides(keys, Reset(keys))
  {
    AheadNeverCollides(keys, Reset(keys));
  }

  function KeyColumns(schema: Schema, t: string): seq<Serial> {
    if t !in schema then []
    else seq(|schema[t].primaryKey|, i requires 0 <= i < |schema[t].primaryKey| => (t, schema[t].primaryKey[i]))
  }

  /** The columns the reset goes through: the key columns of the tables in their order. */
  function SerialColumns(schema: Schema, order: seq<string>): seq<Serial> {
    if order == [] then []
    else SerialColumns(schema, order[..|order| - 1]) + KeyColumns(schema, order[|order| - 1])
  }

  lemma {:induction false} SerialColumnsAre(schema: Schema, order: seq<string>)
    ensures forall t, c :: (t, c) in SerialColumns(schema, order) <==>
      t in order && t in schema && c in schema[t].primaryKey
  {
    if order != [] {
      var n := |order| - 1;
      SerialColumnsAre(schema, order[..n]);
      assert order == order[..n] + [order[n]];
      forall t, c
        ensures (t, c) in KeyColumns(schema, order[n])
           <==> t == order[n] && t in schema && c in schema[t].primaryKey
      {
        if t == order[n] && t in schema && c in schema[t].primaryKey {
          var i :| 0 <= i < |schema[t].primaryKey| && schema[t].primaryKey[i] == c;
          assert KeyColumns(schema, t)[i] == (t, c);
        }
      }
    }
  }

  /** The sequences once those of the given columns have been reset. */
  function Moved(before: Positions, content: Content, columns: seq<Serial>): Positions {
    map c | c in before :: if c in columns then Reset(KeysIn(content, c)) else before[c]
  }

  ghost predicate AllSettable(before: Positions, content: Content, columns: seq<Serial>) {
    forall c :: c in columns && c in before ==> Settable(KeysIn(content, c))
  }

  /** The reset came as far as `done` columns: all that are settable up to the first that is not. */
  ghost predicate MovedTo(before: Positions, content: Content, columns: seq<Serial>, done: nat, now: Positions) {
    && done <= |columns| && now == Moved(before, content, columns[..done])
    && AllSettable(before, content, columns[..done])
    && (done < |columns| ==> columns[done] in before && !Settable(KeysIn(content, columns[done])))
  }

  lemma AllOrStopped(before: Positions, content: Content, columns: seq<Serial>, done: nat, now: Positions)
    requires MovedTo(before, content, columns, done, now)
    ensures done == |columns| <==> AllSettable(before, content, columns)
  {
    if done == |columns| {
      assert columns[..done] == columns;
    } else {
      assert columns[done] in columns;
    }
  }

  /** After a complete reset no default insert into any of the columns ever collides. */
  lemma MovedNeverCollides(before: Positions, content: Content, columns: seq<Serial>, now: Positions)
    requires MovedTo(before, content, columns, |columns|, now)
    ensures forall c :: c in columns && c in now ==> NeverCollides(KeysIn(content, c), now[c])
  {
    assert columns[..|columns|] == columns;
    forall c | c in columns && c in now ensures NeverCollides(KeysIn(content, c), now[c]) {
      ResetNeverCollides(KeysIn(content, c));
    }
  }

  /**
   * A sequence is not set back when a refused reset undoes the job. It then collides with what the table held before if
   * and only if that has a key beyond all that were loaded, and beyond zero.
   */
  lemma AfterRefusal(before: Positions, start: Content, loaded: Content, columns: seq<Serial>, done: nat,
                     now: Positions, c: Serial)
    requires MovedTo(before, loaded, columns, done, now) && c in columns[..done] && c in now
    ensures NeverCollides(KeysIn(start, c), now[c]) <==>
      forall k :: k in KeysIn(start, c) ==> k <= 0 || exists l :: l in KeysIn(loaded, c) && k <= l
  {
    var held, new' := KeysIn(start, c), KeysIn(loaded, c);
    assert now[c] == Reset(new') && Settable(new');
    AheadNeverCollides(held, now[c]);
    hide KeysIn, MovedTo;
    if new' != {} {
      assert Greatest(new') >= 1;
    }
  }

  /** The sequences of a PostgreSQL database; other databases have none. They take no part in transactions. */
  class Catalog {
    var sequences: Positions

    constructor (sequences: Positions)
      ensures this.sequences == sequences
    {
      this.sequences := sequences;
    }

    /** Refused below the least value of a sequence, which is one. */
    method SetVal(c: Serial, value: int, called: bool) returns (ok: bool)
      requires c in sequences
      modifies this
      ensures ok <==> value >= 1
      ensures sequences == if ok then old(sequences)[c := Sequence(value, called)] else old(sequences)
    {
      ok := value >= 1;
      if ok {
        sequences := sequences[c := Sequence(value, called)];
      }
    }

    method NextVal(c: Serial) returns (key: int)
      requires c in sequences
      modifies this
      ensures key == NextOf(old(sequences)[c]) && sequences == old(sequences)[c := Sequence(key, true)]
    {
      key := NextOf(sequences[c]);
      sequences := sequences[c := Sequence(key, true)];
    }

    /** Table after table, key column after key column; stops where a sequence cannot be set. */
    method ResetSequences(content: Content, schema: Schema, order: seq<string>) returns (ok: bool, ghost done: nat)
      modifies this
      ensures MovedTo(old(sequences), content, SerialColumns(schema, order), done, sequences)
      ensures ok <==> done == |SerialColumns(schema, order)|
    {
      hide *;
      ghost var before := sequences;
      ok, done := true, 0;
      NothingMovedYet(before, content, schema, order);
      for i := 0 to |order|
        invariant ok && done == |SerialColumns(schema, order[..i])|
        invariant MovedTo(before, content, SerialColumns(schema, order[..i]), done, sequences)
      {
        ghost var middle, here := sequences, 0;
        ok, here := ResetTable(content, KeyColumns(schema, order[i]));
        TableDone(before, content, schema, order, i, middle, here, sequences);
        done := done + here;
        if !ok {
          StoppedEarly(schema, order, i, before, content, done, sequences);
          return;
        }
      }
      assert order[..|order|] == order;
    }

    /** The key columns of one table. */
    method ResetTable(content: Content, columns: seq<Serial>) returns (ok: bool, ghost done: nat)
      modifies this
      ensures MovedTo(old(sequences), content, columns, done, sequences) && (ok <==> done == |columns|)
    {
      ghost var before := sequences;
      ok, done := true, 0;
      NothingMoved(before, content);
      assert columns[..0] == [];
      for i := 0 to |columns|
        invariant ok && done == i && MovedTo(before, content, columns[..i], i, sequences)
      {
        var c := columns[i];
        var keys := KeysIn(content, c);
        OneMoved(before, content, columns, i, sequences);
        if c in sequences {
          ok := SetVal(c, if keys == {} then 1 else Greatest(keys), keys != {});
          if !ok {
            return;
          }
        }
        done := i + 1;
      }
      assert columns[..|columns|] == columns;
    }

    /** After the reset, any number of inserts without a key get consecutive new keys. */
    method InsertDefaults(c: Serial, keys: set<int>, count: nat) returns (drawn: seq<int>)
      requires c in sequences && NeverCollides(keys, sequences[c])
      modifies this
      ensures |drawn| == count && NoDup(drawn) && forall k :: k in drawn ==> k !in keys
      ensures sequences.Keys == old(sequences).Keys && NeverCollides(keys + Elems(drawn), sequences[c])
      ensures forall d :: d in sequences && d != c ==> sequences[d] == old(sequences)[d]
    {
      AheadNeverCollides(keys, sequences[c]);
      drawn := [];
      ghost var first := NextOf(sequences[c]);
      while |drawn| < count
        invariant |drawn| <= count && sequences.Keys == old(sequences).Keys && NextOf(sequences[c]) == first + |drawn|
        invariant forall j :: 0 <= j < |drawn| ==> drawn[j] == first + j
        invariant forall d :: d in sequences && d != c ==> sequences[d] == old(sequences)[d]
      {
        var key := NextVal(c);
        drawn := drawn + [key];
      }
      AheadNeverCollides(keys + Elems(drawn), sequences[c]);
    }
  }

  lemma NextTable(schema: Schema, order: seq<string>, i: nat)
    requires i < |order|
    ensures SerialColumns(schema, order[..i + 1]) == SerialColumns(schema, order[..i]) + KeyColumns(schema, order[i])
  {
    assert order[..i + 1][..i] == order[..i];
  }

  lemma NothingMoved(before: Positions, content: Content)
    ensures MovedTo(before, content, [], 0, before)
  {
  }

  /** What the next column makes of it. */
  lemma OneMoved(before: Positions, content: Content, columns: seq<Serial>, i: nat, now: Positions)
    requires i < |columns| && MovedTo(before, content, columns[..i], i, now)
    ensures now.Keys == before.Keys
    ensures var c := columns[i]; var keys := KeysIn(content, c);
      if c !in now then MovedTo(before, content, columns[..i + 1], i + 1, now)
      else if keys == {} then MovedTo(before, content, columns[..i + 1], i + 1, now[c := Sequence(1, false)])
      else if Greatest(keys) >= 1
      then MovedTo(before, content, columns[..i + 1], i + 1, now[c := Sequence(Greatest(keys), true)])
      else MovedTo(before, content, columns, i, now)
  {
    assert columns[..i][..i] == columns[..i] && columns[..i + 1][..i + 1] == columns[..i + 1];
    assert columns[..i + 1] == columns[..i] + [columns[i]];
  }

  /** One table after those before it. */
  lemma Resumed(before: Positions, content: Content, first: seq<Serial>, then': seq<Serial>, middle: Positions,
                done: nat, now: Positions)
    requires MovedTo(before, content, first, |first|, middle) && MovedTo(middle, content, then', done, now)
    ensures MovedTo(before, content, first + then', |first| + done, now) && done <= |then'|
  {
    assert first[..|first|] == first;
    assert (first + then')[..|first| + done] == first + then'[..done];
  }

  lemma NothingMovedYet(before: Positions, content: Content, schema: Schema, order: seq<string>)
    ensures MovedTo(before, content, SerialColumns(schema, order[..0]), 0, before)
      && SerialColumns(schema, order[..0]) == []
  {
    assert order[..0] == [];
  }

  lemma TableDone(before: Positions, content: Content, schema: Schema, order: seq<string>, i: nat, middle: Positions,
                  here: nat, now: Positions)
    requires i < |order|
    requires MovedTo(before, content, SerialColumns(schema, order[..i]), |SerialColumns(schema, order[..i])|, middle)
    requires MovedTo(middle, content, KeyColumns(schema, order[i]), here, now)
    ensures var done := |SerialColumns(schema, order[..i])| + here;
      && MovedTo(before, content, SerialColumns(schema, order[..i + 1]), done, now)
      && done <= |SerialColumns(schema, order[..i + 1])|
      && (done == |SerialColumns(schema, order[..i + 1])| <==> here == |KeyColumns(schema, order[i])|)
  {
    NextTable(schema, order, i);
    hide *;
    Resumed(before, content, SerialColumns(schema, order[..i]), KeyColumns(schema, order[i]), middle, here, now);
  }

  lemma {:induction false} SerialPrefix(schema: Schema, order: seq<string>, i: nat)
    requires i <= |order|
    ensures SerialColumns(schema, order[..i]) <= SerialColumns(schema, order)
    decreases |order|
  {
    if i < |order| {
      var n := |order| - 1;
      SerialPrefix(schema, order[..n], i);
      assert order[..n][..i] == order[..i];
    } else {
      assert order[..i] == order;
    }
  }

  lemma StoppedEarly(schema: Schema, order: seq<string>, i: nat, before: Positions, content: Content, done: nat,
                     now: Positions)
    requires i < |order| && MovedTo(before, content, SerialColumns(schema, order[..i + 1]), done, now)
    requires done < |SerialColumns(schema, order[..i + 1])|
    ensures MovedTo(before, content, SerialColumns(schema, order), done, now)
    ensures done < |SerialColumns(schema, order)|
  {
    SerialPrefix(schema, order, i + 1);
    var short, long := SerialColumns(schema, order[..i + 1]), SerialColumns(schema, order);
    assert long[..done] == short[..done] && long[done] == short[done];
  }
}
