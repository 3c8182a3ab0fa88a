/** The steps of the two-target cutover, on one target each. */
module Cutover {
  import opened Ordering
  import opened PayloadChecksum
  import opened QdrantServer

  const INDEXES: seq<string> := ["entity_key", "node_id", "node_type", "map_id", "team_id", "updated_at",
                                 "last_synced_at"]
  const PAGE_SIZE := 256

  /** The points of p that a scroll from `offset` on has passed already. */
  function Passed(p: Points, offset: Offset): Points {
    map id | id in p && !FromOffset(offset, id) :: p[id]
  }

  lemma PassedMore(p: Points, offset: Offset, next: Offset)
    requires offset != End && next != Start && (next.From? ==> FromOffset(offset, next.id))
    ensures Passed(p, next) == Passed(p, offset) + Between(p, offset, next)
    ensures Passed(p, offset).Keys !! Between(p, offset, next).Keys
    ensures |Passed(p, next)| == |Passed(p, offset)| + |Between(p, offset, next)|
  {
    var a, b := Passed(p, offset), Between(p, offset, next);
    assert Passed(p, next).Keys == a.Keys + b.Keys;
    assert |Passed(p, next)| == |Passed(p, next).Keys| && |a| == |a.Keys| && |b| == |b.Keys|;
  }

  lemma PassedEnds(p: Points)
    ensures Passed(p, Start) == map[] && Passed(p, End) == p
  {
  }

  lemma PlusAssociates(a: Points, b: Points, c: Points)
    ensures a + (b + c) == (a + b) + c
  {
  }

  lemma SameElsewhere(others: map<string, Collection>, now: map<string, Collection>, name: string, root: string)
    requires now - {name} == others && root in others
    ensures root in now && now[root] == others[root]
  {
  }

  /** How much of a scroll lies ahead. */
  ghost function Remaining(p: Points, offset: Offset): nat {
    PassedWithin(p, offset);
    if offset == End then 0 else 1 + |p| - |Passed(p, offset)|
  }

  lemma PassedWithin(p: Points, offset: Offset)
    ensures |Passed(p, offset)| <= |p|
  {
    SubsetCardinality(Passed(p, offset).Keys, p.Keys);
    assert |Passed(p, offset)| == |Passed(p, offset).Keys| && |p| == |p.Keys|;
  }

  /** One round: read a page of the source and write it to the destination. */
  method CopyPage(server: Server, source: string, destination: string, offset: Offset, calm: bool)
    returns (ok: bool, next: Offset, count: nat)
    requires server.Valid() && server.Exists(source) && destination in server.collections
      && server.Root(source) != destination
    requires offset != End
    modifies server`collections
    ensures server.Valid() && destination in server.collections
    ensures server.collections - {destination} == old(server.collections) - {destination}
    ensures server.Exists(source) && server.Root(source) == old(server.Root(source))
    ensures server.Resolve(source) == old(server.Resolve(source))
    ensures ok ==>
      var page, to := Between(old(server.Resolve(source)).points, offset, next), old(server.collections)[destination];
      && count == |page| && server.collections[destination] == to.(points := to.points + page)
      && next != Start && (next.From? ==> FromOffset(offset, next.id) && page != map[])
    ensures calm ==> ok
  {
    hide FromOffset, Between, DistinctIds;
    count := 0;
    var records;
    ghost var others := server.collections - {destination};
    assert others[server.Root(source)] == server.Resolve(source);
    ok, records, next := server.Scroll(source, PAGE_SIZE, offset, calm);
    if ok && records != [] {
      ok := server.Upsert(destination, records, calm);
      count := |records|;
      SameElsewhere(others, server.collections, destination, old(server.Root(source)));
    }
  }

  /** Page by page; the destination gains every point of the source and loses none. */
  method CopyCollectionPoints(server: Server, source: string, destination: string, calm: bool)
    returns (ok: bool, copied: nat)
    requires server.Valid() && server.Exists(source) && destination in server.collections
      && server.Root(source) != destination
    modifies server`collections
    ensures server.Valid() && destination in server.collections
    ensures server.collections - {destination} == old(server.collections) - {destination}
    ensures ok ==>
      var from, to := old(server.Resolve(source)), old(server.collections)[destination];
      copied == |from.points| && server.collections[destination] == to.(points := to.points + from.points)
    ensures calm ==> ok
  {
    hide FromOffset, Passed, Between;
    var offset := Start;
    copied, ok := 0, true;
    ghost var from, to := server.Resolve(source), server.collections[destination];
    PassedEnds(from.points);
    while offset != End
      invariant server.Valid() && destination in server.collections
      invariant server.collections - {destination} == old(server.collections) - {destination}
      invariant server.Exists(source) && server.Root(source) == old(server.Root(source))
        && server.Resolve(source) == from
      invariant server.collections[destination] == to.(points := to.points + Passed(from.points, offset))
      invariant copied == |Passed(from.points, offset)|
      decreases Remaining(from.points, offset)
    {
      var next, count;
      ok, next, count := CopyPage(server, source, destination, offset, calm);
      if !ok {
        return;
      }
      PassedMore(from.points, offset, next);
      PassedWithin(from.points, next);
      PlusAssociates(to.points, Passed(from.points, offset), Between(from.points, offset, next));
      copied, offset := copied + count, next;
    }
  }

  /** An empty collection with the canonical payload indexes. */
  method CreateCanonical(server: Server, name: string, dimensions: nat, calm: bool) returns (ok: bool)
    requires server.Valid()
    modifies server`collections
    ensures server.Valid() && server.collections - {name} == old(server.collections) - {name}
    ensures ok ==> name !in old(server.collections) && name in server.collections
    ensures ok ==> server.collections[name] == Collection(dimensions, Elems(INDEXES), map[])
    ensures !ok && name in old(server.collections) ==> server.collections == old(server.collections)
    ensures calm && name !in old(server.collections) && name !in server.aliases ==> ok
  {
    ok := server.Create(name, dimensions, calm);
    if !ok {
      return;
    }
    var k := 0;
    while k < |INDEXES|
      invariant 0 <= k <= |INDEXES| && server.Valid() && name in server.collections
      invariant server.collections - {name} == old(server.collections) - {name}
      invariant server.collections[name] == Collection(dimensions, Elems(INDEXES[..k]), map[])
    {
      ok := server.CreateIndex(name, INDEXES[k], calm);
      if !ok {
        return;
      }
      assert INDEXES[..k + 1] == INDEXES[..k] + [INDEXES[k]];
      k := k + 1;
    }
    assert INDEXES[..k] == INDEXES;
    ok := true;
  }

  // ---- validation ----

  /** The ids and payloads of a collection, as a scroll lists them. */
  ghost predicate Listing(points: Points, ids: seq<int>, payloads: seq<Json>) {
    && NoDup(ids) && Elems(ids) == points.Keys && |payloads| == |ids|
    && forall i :: 0 <= i < |ids| ==> ids[i] in points && payloads[i] == points[ids[i]].payload
  }

  function Ids(records: seq<(int, Point)>): seq<int> {
    seq(|records|, i requires 0 <= i < |records| => records[i].0)
  }

  function Payloads(records: seq<(int, Point)>): seq<Json> {
    seq(|records|, i requires 0 <= i < |records| => records[i].1.payload)
  }

  method ReadPayloads(server: Server, name: string, calm: bool) returns (ok: bool, ids: seq<int>, payloads: seq<Json>)
    requires server.Valid() && name in server.collections
    ensures ok ==> Listing(server.collections[name].points, ids, payloads)
    ensures calm ==> ok
  {
    var points := server.collections[name].points;
    var offset := Start;
    ok, ids, payloads := true, [], [];
    assert Passed(points, Start) == map[];
    while offset != End
      invariant Listing(Passed(points, offset), ids, payloads)
      decreases Remaining(points, offset)
    {
      var records, next;
      ok, records, next := server.Scroll(name, PAGE_SIZE, offset, calm);
      if !ok {
        return;
      }
      PassedMore(points, offset, next);
      PassedWithin(points, next);
      RecordsListing(records);
      ListingAppend(Passed(points, offset), ids, payloads, Between(points, offset, next), Ids(records),
                    Payloads(records));
      ids := ids + Ids(records);
      payloads := payloads + Payloads(records);
      offset := next;
    }
    assert Passed(points, End) == points;
  }

  lemma RecordsListing(records: seq<(int, Point)>)
    requires DistinctIds(records)
    ensures Listing(ToPoints(records), Ids(records), Payloads(records))
  {
    ToPointsLists(records);
    forall id ensures id in Elems(Ids(records)) <==> id in ToPoints(records).Keys {
      if id in ToPoints(records) {
        var i :| 0 <= i < |records| && records[i].0 == id;
        assert Ids(records)[i] == id;
      }
    }
  }

  lemma ListingAppend(a: Points, idsA: seq<int>, payloadsA: seq<Json>, b: Points, idsB: seq<int>, payloadsB: seq<Json>)
    requires Listing(a, idsA, payloadsA) && Listing(b, idsB, payloadsB) && a.Keys !! b.Keys
    ensures Listing(a + b, idsA + idsB, payloadsA + payloadsB)
  {
    assert NoDup(idsA + idsB) by {
      forall id | id in idsB ensures id !in idsA {
        assert id in Elems(idsB);
        assert id !in Elems(idsA);
      }
      NoDupAppend(idsA, idsB);
    }
    hide NoDup;
    var ids, payloads := idsA + idsB, payloadsA + payloadsB;
    assert Elems(ids) == Elems(idsA) + Elems(idsB);
    forall i | 0 <= i < |ids| ensures ids[i] in a + b && payloads[i] == (a + b)[ids[i]].payload {
      if i < |idsA| {
        assert idsA[i] in Elems(idsA);
        assert ids[i] == idsA[i] && payloads[i] == payloadsA[i];
      } else {
        assert ids[i] == idsB[i - |idsA|] && payloads[i] == payloadsB[i - |idsA|];
      }
    }
  }

  const REQUIRED: seq<string> := [
    "schema_version", "resource_type", "source", "entity_key", "node_id", "title", "description", "node_type", "map_id",
    "map_name", "team_id", "team_name", "parent_id", "parent_key", "level", "children_ids", "children_keys",
    "related_node_ids", "related_node_keys", "as_a", "i_want", "so_that", "jira_tickets", "text", "updated_at",
    "last_synced_at"]

  /** A payload with every canonical field, of the current schema. */
  predicate Complete(p: Json) {
    && p.JObject?
    && (forall f :: f in REQUIRED ==> Lookup(p.fields, f) != [])
    && Lookup(p.fields, "schema_version") == [JString("usm_node_v2")]
  }

  /** What a collection is held against. */
  datatype Expected<D> = Expected(dimensions: nat, ids: set<int>, hash: string -> D, checksum: D)

  /** Some listing of the payloads, sorted by entity key, gives the checksum. */
  ghost predicate Checksummed<D>(points: Points, e: Expected<D>) {
    exists ids, payloads, sorted ::
      Listing(points, ids, payloads) && multiset(sorted) == multiset(payloads) && SortedByKey(sorted)
      && e.hash(Lines(sorted)) == e.checksum
  }

  ghost predicate Validated<D>(c: Collection, e: Expected<D>) {
    && c.dimensions == e.dimensions && Elems(INDEXES) <= c.indexes && c.points.Keys == e.ids
    && (forall id :: id in c.points ==> Complete(c.points[id].payload))
    && Checksummed(c.points, e)
  }

  /** The payloads are those of the source, and these have distinct entity keys. */
  ghost predicate HoldsSource<D>(points: Points, e: Expected<D>, source: seq<Json>) {
    && (exists ids, payloads :: Listing(points, ids, payloads) && multiset(payloads) == multiset(source))
    && DistinctKeys(source)
    && exists sorted ::
         multiset(sorted) == multiset(source) && SortedByKey(sorted) && e.checksum == e.hash(Lines(sorted))
  }

  ghost predicate IsCanonical<D>(c: Collection, e: Expected<D>, source: seq<Json>) {
    && c.dimensions == e.dimensions && Elems(INDEXES) <= c.indexes && c.points.Keys == e.ids
    && (forall id :: id in c.points ==> Complete(c.points[id].payload))
    && HoldsSource(c.points, e, source)
  }

  method ValidateCollection<D(==)>(server: Server, name: string, e: Expected<D>, ghost source: seq<Json>, calm: bool)
    returns (ok: bool)
    requires server.Valid() && name in server.collections
    ensures ok ==> Validated(server.collections[name], e)
    ensures calm && IsCanonical(server.collections[name], e, source) ==> ok
  {
    hide Complete, EntityKey, Lines, NoDup, SortedByKey, DistinctKeys;
    var fate := Toss(calm);
    var c := server.collections[name];
    if fate != Done || c.dimensions != e.dimensions || !(Elems(INDEXES) <= c.indexes) {
      return false;
    }
    var ids, payloads;
    ok, ids, payloads := ReadPayloads(server, name, calm);
    if !ok {
      return;
    }
    ListingIds(c.points, ids, payloads);
    if |ids| != |e.ids| || Elems(ids) != e.ids {
      return false;
    }
    var complete := forall p :: p in payloads ==> Complete(p);
    if !complete {
      return false;
    }
    var stream := ChecksumStream(payloads);
    ghost var sorted :| multiset(sorted) == multiset(payloads) && SortedByKey(sorted) && stream == Lines(sorted);
    ok := e.hash(stream) == e.checksum;
    if HoldsSource(c.points, e, source) {
      SameChecksum(c.points, e, source, ids, payloads, sorted);
    }
  }

  lemma ListingIds(points: Points, ids: seq<int>, payloads: seq<Json>)
    requires Listing(points, ids, payloads)
    ensures |ids| == |points.Keys|
    ensures forall id :: id in points ==> points[id].payload in payloads
    ensures forall p :: p in payloads ==> exists id :: id in points && points[id].payload == p
  {
    NoDupCardinality(ids);
    hide NoDup;
    forall id | id in points ensures points[id].payload in payloads {
      assert id in Elems(ids);
      var i :| 0 <= i < |ids| && ids[i] == id;
      assert payloads[i] == points[id].payload;
    }
    forall p | p in payloads ensures exists id :: id in points && points[id].payload == p {
      var i :| 0 <= i < |payloads| && payloads[i] == p;
      var id := ids[i];
      assert id in points && points[id].payload == p;
    }
  }

  /** All listings of the same points have the same payloads. */
  lemma {:induction false} ListingsAgree(points: Points, ids: seq<int>, payloads: seq<Json>, ids': seq<int>,
                                         payloads': seq<Json>)
    requires Listing(points, ids, payloads) && Listing(points, ids', payloads')
    ensures multiset(payloads) == multiset(payloads')
    decreases |ids|
  {
    NoDupCardinality(ids);
    NoDupCardinality(ids');
    hide NoDup;
    if ids != [] {
      var n := |ids| - 1;
      assert ids[n] in Elems(ids');
      var j :| 0 <= j < |ids'| && ids'[j] == ids[n];
      WithoutOne(points, ids, payloads, n);
      WithoutOne(points, ids', payloads', j);
      ListingsAgree(points - {ids[n]}, ids[..n] + ids[n + 1..], payloads[..n] + payloads[n + 1..],
                    ids'[..j] + ids'[j + 1..], payloads'[..j] + payloads'[j + 1..]);
      OneBack(payloads, n);
      OneBack(payloads', j);
    }
  }

  lemma OneBack(payloads: seq<Json>, j: nat)
    requires j < |payloads|
    ensures multiset(payloads) == multiset(payloads[..j] + payloads[j + 1..]) + multiset{payloads[j]}
  {
    assert payloads == payloads[..j] + [payloads[j]] + payloads[j + 1..];
  }

  lemma WithoutOne(points: Points, ids: seq<int>, payloads: seq<Json>, j: nat)
    requires Listing(points, ids, payloads) && j < |ids|
    ensures Listing(points - {ids[j]}, ids[..j] + ids[j + 1..], payloads[..j] + payloads[j + 1..])
  {
  }

  lemma SameChecksum<D>(points: Points, e: Expected<D>, source: seq<Json>, ids: seq<int>, payloads: seq<Json>,
                        sorted: seq<Json>)
    requires HoldsSource(points, e, source) && Listing(points, ids, payloads)
    requires multiset(sorted) == multiset(payloads) && SortedByKey(sorted)
    ensures e.hash(Lines(sorted)) == e.checksum
  {
    hide NoDup, SortedByKey, Lines;
    var ids', payloads' :| Listing(points, ids', payloads') && multiset(payloads') == multiset(source);
    ListingsAgree(points, ids, payloads, ids', payloads');
    var reference :|
      multiset(reference) == multiset(source) && SortedByKey(reference) && e.checksum == e.hash(Lines(reference));
    DistinctKeysPermute(source, reference);
    SortedOrderIsUnique(reference, sorted);
  }

  lemma DistinctKeysPermute(a: seq<Json>, b: seq<Json>)
    requires multiset(a) == multiset(b) && DistinctKeys(a)
    ensures DistinctKeys(b)
  {
    hide EntityKey;
    forall i, j | 0 <= i < j < |b| ensures EntityKey(b[i]) != EntityKey(b[j]) {
      assert b[i] in multiset(a) && b[j] in multiset(a);
      var k :| 0 <= k < |a| && a[k] == b[i];
      var l :| 0 <= l < |a| && a[l] == b[j];
      OnceInMultiset(a, k);
      TwiceInMultiset(b, i, j);
    }
  }

  lemma TwiceInMultiset(s: seq<Json>, i: nat, j: nat)
    requires i < j < |s|
    ensures s[i] == s[j] ==> multiset(s)[s[i]] >= 2
  {
    assert s == s[..i] + [s[i]] + s[i + 1..j] + [s[j]] + s[j + 1..];
  }

  lemma OnceInMultiset(s: seq<Json>, k: nat)
    requires k < |s| && DistinctKeys(s)
    ensures multiset(s)[s[k]] == 1
  {
    hide EntityKey;
    assert s == s[..k] + [s[k]] + s[k + 1..];
    assert forall m :: 0 <= m < k ==> s[..k][m] != s[k];
    var rest := s[k + 1..];
    forall x | x in rest ensures x != s[k] {
      var m :| 0 <= m < |rest| && rest[m] == x;
      assert s[k + 1 + m] == x;
    }
  }

  /**
   * Passing validation means: the payloads are the source's, each as often, if the digest does not collide on the two.
   */
  lemma ValidatedMeansSource<D>(c: Collection, e: Expected<D>, source: seq<Json>, sorted: seq<Json>, ids: seq<int>,
                                payloads: seq<Json>)
    requires Validated(c, e) && Listing(c.points, ids, payloads)
    requires multiset(sorted) == multiset(source) && e.checksum == e.hash(Lines(sorted))
    requires forall other: seq<Json> :: e.hash(Lines(other)) == e.hash(Lines(sorted)) ==> Lines(other) == Lines(sorted)
    ensures multiset(payloads) == multiset(source)
  {
    hide Complete, NoDup, SortedByKey, Lines;
    var ids', payloads', sorted' :| Listing(c.points, ids', payloads') && multiset(sorted') == multiset(payloads')
      && SortedByKey(sorted') && e.hash(Lines(sorted')) == e.checksum;
    ListingsAgree(c.points, ids, payloads, ids', payloads');
    assert Lines(sorted') == Lines(sorted);
    LinesInjective(sorted', sorted);
  }
}
