/**
 * A Qdrant server as the cutover script uses it: collections and aliases in one namespace, and calls that may fail.
 * A call made `calm` fails only for a reason the server has; any other may also fail for no reason, with or without
 * having taken effect.
 */
module QdrantServer {
  import opened Ordering
  import opened PayloadChecksum

  datatype Point = Point(vector: int, payload: Json)
  type Points = map<int, Point>
  datatype Collection = Collection(dimensions: nat, indexes: set<string>, points: Points)

  datatype Offset = Start | From(id: int) | End

  predicate FromOffset(offset: Offset, id: int) {
    offset == Start || (offset.From? && offset.id <= id)
  }

  /** The points from one offset on and before another. */
  function Between(points: Points, offset: Offset, next: Offset): Points {
    map id | id in points && FromOffset(offset, id) && !FromOffset(next, id) :: points[id]
  }

  /** The points a list of records stands for. */
  function ToPoints(records: seq<(int, Point)>): Points {
    if records == [] then map[]
    else
      var n := |records| - 1;
      ToPoints(records[..n])[records[n].0 := records[n].1]
  }

  predicate DistinctIds(records: seq<(int, Point)>) {
    forall i, j :: 0 <= i < j < |records| ==> records[i].0 != records[j].0
  }

  /** One page: exactly the points up to the next offset, of which there is one unless the scroll is over. */
  ghost predicate Page(points: Points, offset: Offset, records: seq<(int, Point)>, next: Offset) {
    && DistinctIds(records)
    && ToPoints(records) == Between(points, offset, next) && |records| == |Between(points, offset, next)|
    && next != Start && (next.From? ==> records != [] && next.id in points && FromOffset(offset, next.id))
  }

  datatype Fate = Done | ReplyLost | NotDone

  method Toss(calm: bool) returns (fate: Fate)
    ensures calm ==> fate == Done
  {
    fate := Done;
    if !calm {
      if * {
        fate := ReplyLost;
      } else if * {
        fate := NotDone;
      }
    }
  }

  class Server {
    var collections: map<string, Collection>
    var aliases: map<string, string>

    constructor (collections: map<string, Collection>, aliases: map<string, string>)
      ensures this.collections == collections && this.aliases == aliases
    {
      this.collections, this.aliases := collections, aliases;
    }

    /** No name is both an alias and a collection, and aliases lead to collections. */
    ghost predicate Valid()
      reads this
    {
      && collections.Keys !! aliases.Keys
      && forall a :: a in aliases ==> aliases[a] in collections
    }

    predicate Exists(name: string)
      reads this
    {
      name in collections || (name in aliases && aliases[name] in collections)
    }

    /** The collection a name stands for, directly or through an alias. */
    function Root(name: string): (root: string)
      requires Exists(name)
      reads this
      ensures root in collections
    {
      if name in collections then name else aliases[name]
    }

    function Resolve(name: string): Collection
      requires Exists(name)
      reads this
    {
      collections[Root(name)]
    }

    method Create(name: string, dimensions: nat, calm: bool) returns (ok: bool)
      requires Valid()
      modifies `collections
      ensures Valid()
      ensures ok ==>
        name !in old(collections) && collections == old(collections)[name := Collection(dimensions, {}, map[])]
      ensures !ok ==> collections - {name} == old(collections) - {name}
      ensures !ok ==>
        old(collections.Keys) <= collections.Keys && (name in old(collections) ==> collections == old(collections))
      ensures calm && name !in old(collections) && name !in aliases ==> ok
    {
      var fate := Toss(calm);
      if name in collections || name in aliases || fate == NotDone {
        return false;
      }
      collections := collections[name := Collection(dimensions, {}, map[])];
      ok := fate == Done;
    }

    method CreateIndex(name: string, index: string, calm: bool) returns (ok: bool)
      requires Valid() && name in collections
      modifies `collections
      ensures Valid() && name in collections && collections - {name} == old(collections) - {name}
      ensures ok ==> collections[name] == old(collections)[name].(indexes := old(collections)[name].indexes + {index})
      ensures calm ==> ok
    {
      var fate := Toss(calm);
      if fate != NotDone {
        collections := collections[name := collections[name].(indexes := collections[name].indexes + {index})];
      }
      ok := fate == Done;
    }

    method Upsert(name: string, records: seq<(int, Point)>, calm: bool) returns (ok: bool)
      requires Valid() && name in collections
      modifies `collections
      ensures Valid() && name in collections && collections - {name} == old(collections) - {name}
      ensures ok ==>
        collections[name] == old(collections)[name].(points := old(collections)[name].points + ToPoints(records))
      ensures calm ==> ok
    {
      var fate := Toss(calm);
      if fate != NotDone {
        collections := collections[name := collections[name].(points := collections[name].points + ToPoints(records))];
      }
      ok := fate == Done;
    }

    /** Deleting a collection takes its aliases with it. */
    method Delete(name: string, calm: bool) returns (ok: bool)
      requires Valid()
      modifies this
      ensures Valid() && collections - {name} == old(collections) - {name}
      ensures aliases == old(aliases) || aliases == map a |
        a in old(aliases) && old(aliases)[a] != name :: old(aliases)[a]
      ensures ok ==> name !in collections
      ensures calm ==> ok
    {
      var fate := Toss(calm);
      if fate != NotDone {
        collections := collections - {name};
        aliases := map a | a in aliases && aliases[a] != name :: aliases[a];
      }
      ok := fate == Done;
    }

    method DropAlias(alias: string, calm: bool) returns (ok: bool)
      requires Valid()
      modifies `aliases
      ensures Valid() && aliases - {alias} == old(aliases) - {alias}
      ensures ok ==> alias !in aliases
      ensures calm ==> ok
    {
      var fate := Toss(calm);
      if fate != NotDone {
        aliases := aliases - {alias};
      }
      ok := fate == Done;
    }

    /** Replaces or creates an alias; refused for the name of a collection, or when the collection is not there. */
    method SetAlias(alias: string, name: string, calm: bool) returns (ok: bool)
      requires Valid()
      modifies `aliases
      ensures Valid() && aliases - {alias} == old(aliases) - {alias}
      ensures ok ==> alias in aliases && aliases[alias] == name
      ensures calm && alias !in collections && name in collections ==> ok
    {
      var fate := Toss(calm);
      if alias in collections || name !in collections || fate == NotDone {
        return false;
      }
      aliases := aliases[alias := name];
      ok := fate == Done;
    }

    method Scroll(name: string, limit: nat, offset: Offset, calm: bool)
      returns (ok: bool, records: seq<(int, Point)>, next: Offset)
      requires Exists(name) && limit >= 1
      ensures ok ==> Page(Resolve(name).points, offset, records, next)
      ensures calm ==> ok
    {
      records, next := [], End;
      var fate := Toss(calm);
      if fate != Done {
        return false, records, next;
      }
      ok := true;
      var points := Resolve(name).points;
      var ids := Sorted((set id | id in points && FromOffset(offset, id)), IntLeq);
      assert forall i :: 0 <= i < |ids| ==> ids[i] in Elems(ids);
      var cut := if |ids| <= limit then |ids| else limit;
      records := seq(cut, i requires 0 <= i < cut => assert ids[i] in points; (ids[i], points[ids[i]]));
      if cut < |ids| {
        next := From(ids[cut]);
      }
      CutIsPage(points, offset, ids, cut, records, next);
    }
  }

  lemma {:induction false} ToPointsLists(records: seq<(int, Point)>)
    requires DistinctIds(records)
    ensures |ToPoints(records)| == |records|
    ensures forall id :: id in ToPoints(records) <==> exists i :: 0 <= i < |records| && records[i].0 == id
    ensures forall i :: 0 <= i < |records| ==>
      records[i].0 in ToPoints(records) && ToPoints(records)[records[i].0] == records[i].1
  {
    if records != [] {
      var n := |records| - 1;
      var front := ToPoints(records[..n]);
      assert DistinctIds(records[..n]);
      ToPointsLists(records[..n]);
      assert ToPoints(records) == front[records[n].0 := records[n].1];
      hide ToPoints;
      assert records[n].0 !in front;
      assert ToPoints(records).Keys == front.Keys + {records[n].0};
      assert |ToPoints(records)| == |ToPoints(records).Keys| && |front| == |front.Keys|;
      forall i | 0 <= i < |records|
        ensures records[i].0 in ToPoints(records) && ToPoints(records)[records[i].0] == records[i].1
      {
        assert i < n ==> records[..n][i] == records[i];
      }
    }
  }

  lemma CutIsPage(points: Points, offset: Offset, ids: seq<int>, cut: nat, records: seq<(int, Point)>, next: Offset)
    requires NoDup(ids) && SortedBy(IntLeq, ids) && Elems(ids) == set id | id in points && FromOffset(offset, id)
    requires cut <= |ids| && (|ids| > 0 ==> cut > 0) && next == if cut < |ids| then From(ids[cut]) else End
    requires |records| == cut && forall i :: 0 <= i < cut ==> ids[i] in points && records[i] == (ids[i], points[ids[i]])
    ensures Page(points, offset, records, next)
  {
    forall i | 0 <= i < |ids| ensures ids[i] in points && FromOffset(offset, ids[i]) {
      assert ids[i] in Elems(ids);
    }
    ToPointsLists(records);
    CutIds(ids, cut, next);
    var page := Between(points, offset, next);
    forall id ensures id in ToPoints(records) <==> id in page {
      if id in page {
        assert id in Elems(ids);
        var i :| 0 <= i < |ids| && ids[i] == id;
        assert records[i].0 == id;
      }
    }
  }

  /** In a sorted list, cutting at a position is cutting at the value found there. */
  lemma CutIds(ids: seq<int>, cut: nat, next: Offset)
    requires NoDup(ids) && SortedBy(IntLeq, ids) && cut <= |ids| && next == if cut < |ids| then From(ids[cut]) else End
    ensures forall i :: 0 <= i < |ids| ==> (FromOffset(next, ids[i]) <==> cut <= i)
  {
  }
}
