/** The two-target rebuild: back up, load a shadow, validate it, switch, and roll back on failure. */
module Rebuild {
  import opened Ordering
  import opened PayloadChecksum
  import opened QdrantServer
  import opened Cutover

  class TargetState {
    const server: Server
    const logical: string
    const backup: string
    const shadow: string
    var originalCount: nat
    var switched: bool
    ghost var original: Points

    constructor (server: Server, logical: string, runId: string)
      ensures this.server == server && this.logical == logical && !switched
      ensures Named()
    {
      this.server, this.logical, this.switched, originalCount := server, logical, false, 0;
      backup := logical + "__backup__" + runId;
      shadow := logical + "__v2__" + runId;
      original := map[];
      new;
      NamesDiffer(logical, runId);
    }

    ghost predicate Named() {
      backup != logical && shadow != logical && backup != shadow
    }

    /** The logical name stands for the original points, and not by way of a collection this run makes. */
    ghost predicate Intact()
      reads this, server
    {
      && Named() && server.Valid() && server.Exists(logical)
      && server.Resolve(logical).points == original
      && server.Root(logical) !in {backup, shadow}
    }

    ghost predicate BackedUp()
      reads this, server
    {
      server.Valid() && Named() && backup in server.collections && server.collections[backup].points == original
    }

    /** The names this run will make are free, and the points have been counted. */
    ghost predicate Inspected()
      reads this, server
    {
      && Intact() && originalCount == |original|
      && backup !in server.collections && backup !in server.aliases
      && shadow !in server.collections && shadow !in server.aliases
    }

    /** The shadow is canonical and holds exactly these points; the logical name has not been touched. */
    ghost predicate Shadowing(dimensions: nat, points: Points)
      reads this, server
    {
      Intact() && Prepared() && server.collections[shadow] == Collection(dimensions, Elems(INDEXES), points)
    }

    /** Ready to be switched, or being switched. */
    ghost predicate Prepared()
      reads this, server
    {
      BackedUp() && shadow in server.collections
    }

    /** The logical name stands for the original points. */
    ghost predicate Restored()
      reads this, server
    {
      server.Valid() && server.Exists(logical) && server.Resolve(logical).points == original
    }

    /** The logical name is a collection of its own with the shadow's points. */
    ghost predicate Switched(dimensions: nat)
      reads this, server
    {
      && Prepared() && logical in server.collections && logical !in server.aliases
      && server.collections[logical] == Collection(dimensions, Elems(INDEXES), server.collections[shadow].points)
    }

    /** Switched, with these points. */
    ghost predicate Exposes(dimensions: nat, points: Points)
      reads this, server
    {
      Switched(dimensions) && server.collections[shadow].points == points
    }

    /** There is something to replace, and the names a run makes are free. */
    ghost predicate Replaceable()
      reads server
    {
      server.Exists(logical) && forall n :: n in {backup, shadow} ==> n !in server.collections && n !in server.aliases
    }

    ghost predicate ShadowValidated<D>(e: Expected<D>)
      reads this, server
    {
      shadow in server.collections && Validated(server.collections[shadow], e)
    }

    ghost predicate ShadowCanonical<D>(e: Expected<D>, source: seq<Json>)
      reads this, server
    {
      shadow in server.collections && IsCanonical(server.collections[shadow], e, source)
    }

    ghost predicate LogicalValidated<D>(e: Expected<D>)
      reads this, server
    {
      logical in server.collections && Validated(server.collections[logical], e)
    }

    /** Reads only; the names this run will make must be free. */
    method Inspect(calm: bool) returns (ok: bool)
      requires server.Valid() && Named()
      modifies this
      ensures ok ==> Inspected() && original == server.Resolve(logical).points
      ensures calm && Replaceable() ==> ok
    {
      if server.Exists(logical) {
        original := server.Resolve(logical).points;
      }
      var fate := Toss(calm);
      if fate != Done || !server.Exists(logical) || backup in server.collections || backup in server.aliases
         || shadow in server.collections || shadow in server.aliases {
        return false;
      }
      originalCount := |server.Resolve(logical).points|;
      ok := true;
    }

    method Clone(calm: bool) returns (ok: bool)
      requires Inspected()
      modifies server`collections
      ensures Intact()
      ensures server.collections - {backup} == old(server.collections) - {backup}
      ensures ok ==> BackedUp() && shadow !in server.collections && shadow !in server.aliases
      ensures calm ==> ok
    {
      var source := server.Resolve(logical);
      ghost var others := server.collections - {backup};
      ghost var root := server.Root(logical);
      assert others[root] == source;
      ok := server.Create(backup, source.dimensions, calm);
      SameElsewhere(others, server.collections, backup, root);
      if !ok {
        return;
      }
      var copied;
      ok, copied := CopyCollectionPoints(server, logical, backup, calm);
      SameElsewhere(others, server.collections, backup, root);
      if !ok {
        return;
      }
      assert map[] + original == original;
      AbsentElsewhere(others, server.collections, backup, shadow);
      var fate := Toss(calm);
      ok := fate == Done && copied == originalCount && |server.collections[backup].points| == originalCount;
    }

    method CreateShadow(dimensions: nat, calm: bool) returns (ok: bool)
      requires Intact() && BackedUp() && shadow !in server.collections && shadow !in server.aliases
      modifies server`collections
      ensures Intact() && BackedUp()
      ensures ok ==> Shadowing(dimensions, map[])
      ensures calm ==> ok
    {
      ghost var others := server.collections - {shadow};
      ghost var root := server.Root(logical);
      assert others[root] == server.Resolve(logical) && others[backup] == server.collections[backup];
      ok := CreateCanonical(server, shadow, dimensions, calm);
      SameElsewhere(others, server.collections, shadow, root);
      SameElsewhere(others, server.collections, shadow, backup);
    }

    method LoadShadow(records: seq<(int, Point)>, dimensions: nat, ghost before: Points, calm: bool) returns (ok: bool)
      requires Shadowing(dimensions, before)
      modifies server`collections
      ensures Intact() && Prepared()
      ensures ok ==> Shadowing(dimensions, before + ToPoints(records))
      ensures calm ==> ok
    {
      hide ToPoints;
      ghost var others := server.collections - {shadow};
      ghost var root := server.Root(logical);
      assert others[root] == server.Resolve(logical) && others[backup] == server.collections[backup];
      ok := server.Upsert(shadow, records, calm);
      SameElsewhere(others, server.collections, shadow, root);
      SameElsewhere(others, server.collections, shadow, backup);
    }

    /** An alias is dropped; failing that, a collection of that name is deleted. */
    method RemoveLogicalName(calm: bool) returns (ok: bool)
      requires server.Valid() && Named()
      modifies server
      ensures server.Valid() && server.collections - {logical} == old(server.collections) - {logical}
      ensures ok ==> logical !in server.aliases && logical !in server.collections
      ensures calm ==> ok
    {
      ok := true;
      if logical in server.aliases {
        ok := server.DropAlias(logical, calm);
      } else if logical in server.collections {
        ok := server.Delete(logical, calm);
      }
    }

    method PointLogicalAlias(calm: bool) returns (ok: bool)
      requires Prepared() && logical !in server.collections
      modifies server`aliases
      ensures Prepared() && server.collections == old(server.collections)
      ensures ok ==> logical in server.aliases && server.aliases[logical] == backup
      ensures calm ==> ok
    {
      ok := server.SetAlias(logical, backup, calm);
    }

    /** Back to the backup, by alias. Its calls are taken not to fail a second time. */
    method Rollback()
      requires Prepared()
      modifies this, server
      ensures Prepared() && server.collections - {logical} == old(server.collections) - {logical}
      ensures Restored() && !switched && original == old(original)
    {
      ghost var others := server.collections - {logical};
      var ok := RemoveLogicalName(true);
      SameElsewhere(others, server.collections, logical, backup);
      SameElsewhere(others, server.collections, logical, shadow);
      ok := PointLogicalAlias(true);
      switched := false;
    }

    method Materialize(dimensions: nat, calm: bool) returns (ok: bool)
      requires Prepared()
      modifies server
      ensures Prepared() && server.collections - {logical} == old(server.collections) - {logical}
      ensures ok ==> Switched(dimensions)
      ensures calm ==> ok
    {
      ghost var others := server.collections - {logical};
      ok := RemoveLogicalName(calm);
      SameElsewhere(others, server.collections, logical, backup);
      SameElsewhere(others, server.collections, logical, shadow);
      if !ok {
        return;
      }
      ok := CreateCanonical(server, logical, dimensions, calm);
      SameElsewhere(others, server.collections, logical, backup);
      SameElsewhere(others, server.collections, logical, shadow);
      if !ok {
        return;
      }
      var copied;
      ok, copied := CopyCollectionPoints(server, shadow, logical, calm);
      SameElsewhere(others, server.collections, logical, backup);
      SameElsewhere(others, server.collections, logical, shadow);
      if !ok {
        return;
      }
      assert map[] + server.collections[shadow].points == server.collections[shadow].points;
      var fate := Toss(calm);
      ok := fate == Done && copied == |server.collections[shadow].points|;
    }

    /** Either the shadow's points stand under the logical name, or the original ones do again. */
    method Switch(dimensions: nat, calm: bool) returns (ok: bool)
      requires Prepared()
      modifies this, server
      ensures Prepared() && server.collections - {logical} == old(server.collections) - {logical}
        && original == old(original)
      ensures ok ==> switched && Switched(dimensions)
      ensures !ok ==> !switched && Restored()
      ensures calm ==> ok
    {
      ok := Materialize(dimensions, calm);
      if !ok {
        Rollback();
        return;
      }
      switched := true;
    }

    /** Switch, then check what stands under the logical name. */
    method SwitchAndCheck<D(==)>(dimensions: nat, e: Expected<D>, ghost source: seq<Json>, ghost points: Points,
                                 calm: bool)
      returns (ok: bool)
      requires Shadowing(dimensions, points)
      modifies this, server
      ensures Prepared() && original == old(original)
      ensures ok ==> Exposes(dimensions, points) && LogicalValidated(e)
      ensures !ok ==> switched || Restored()
      ensures calm && IsCanonical(Collection(dimensions, Elems(INDEXES), points), e, source) ==> ok
    {
      hide Validated, IsCanonical;
      ghost var others := server.collections - {logical};
      assert others[shadow] == server.collections[shadow];
      ok := Switch(dimensions, calm);
      if !ok {
        return;
      }
      SameElsewhere(others, server.collections, logical, shadow);
      ok := ValidateCollection(server, logical, e, source, calm);
      if !ok {
        return;
      }
      var physical := Toss(calm);
      ok := physical == Done && logical in server.collections && logical !in server.aliases;
    }
  }

  lemma AbsentElsewhere(others: map<string, Collection>, now: map<string, Collection>, name: string, other: string)
    requires now - {name} == others && other != name && other !in others
    ensures other !in now
  {
  }

  // ---- all targets ----

  /** The targets are different servers, and nothing else is shared. */
  ghost predicate Distinct(states: seq<TargetState>) {
    forall i, j :: 0 <= i < j < |states| ==> states[i] != states[j] && states[i].server != states[j].server
  }

  ghost function Servers(states: seq<TargetState>): set<Server> {
    set s | s in states :: s.server
  }

  method InspectAll(states: seq<TargetState>, calm: bool) returns (ok: bool)
    requires Distinct(states) && forall s :: s in states ==> s.server.Valid() && s.Named()
    modifies states
    ensures ok ==> forall s :: s in states ==> s.Inspected() && s.original == s.server.Resolve(s.logical).points
    ensures calm && (forall s :: s in states ==> s.Replaceable()) ==> ok
  {
    hide Server.Exists, TargetState.Replaceable;
    ok := true;
    for i := 0 to |states|
      invariant forall k :: 0 <= k < i ==>
        states[k].Inspected() && states[k].original == states[k].server.Resolve(states[k].logical).points
    {
      ok := states[i].Inspect(calm);
      if !ok {
        return;
      }
    }
  }

  /** `cloned` targets have their backups when it ends; at most the next one has been begun. */
  method BackUpAll(states: seq<TargetState>, dimensions: nat, calm: bool) returns (ok: bool, ghost cloned: nat)
    requires Distinct(states) && forall s :: s in states ==> s.Inspected()
    modifies Servers(states)
    ensures forall s :: s in states ==> s.Intact()
    ensures BackedUpTo(states, cloned)
    ensures ok ==> cloned == |states| && forall s :: s in states ==> s.Shadowing(dimensions, map[])
    ensures calm ==> ok
  {
    hide TargetState.Shadowing, TargetState.Inspected;
    ok, cloned := true, 0;
    for i := 0 to |states|
      invariant ok
      invariant forall k :: 0 <= k < i ==> states[k].Shadowing(dimensions, map[])
      invariant forall k :: i <= k < |states| ==> states[k].Inspected()
    {
      var s := states[i];
      assert s.server in Servers(states);
      cloned := i;
      ok := s.Clone(calm);
      if ok {
        cloned := i + 1;
        ok := s.CreateShadow(dimensions, calm);
      }
      if !ok {
        ShadowingIsIntact(states[..i], dimensions, map[]);
        InspectedIsIntact(states[i + 1..]);
        assert states == states[..i] + [s] + states[i + 1..];
        BackedUpSoFar(states, i, cloned, dimensions);
        return;
      }
    }
    cloned := |states|;
    ShadowingIsIntact(states, dimensions, map[]);
  }

  /** The first `cloned` targets have whole backups, and those after the next have none. */
  ghost predicate BackedUpTo(states: seq<TargetState>, cloned: nat)
    reads states, Servers(states)
  {
    && cloned <= |states|
    && (forall k :: 0 <= k < cloned ==> states[k].BackedUp())
    && (forall k :: cloned < k < |states| ==> states[k].backup !in states[k].server.collections)
  }

  lemma BackedUpSoFar(states: seq<TargetState>, i: nat, cloned: nat, dimensions: nat)
    requires i < |states| && (cloned == i || (cloned == i + 1 && states[i].BackedUp()))
    requires forall k :: 0 <= k < i ==> states[k].Shadowing(dimensions, map[])
    requires forall k :: i < k < |states| ==> states[k].Inspected()
    ensures BackedUpTo(states, cloned)
  {
  }

  lemma PreparedIsBackedUp(states: seq<TargetState>)
    requires forall s :: s in states ==> s.Prepared()
    ensures BackedUpTo(states, |states|)
  {
    forall s | s in states ensures s.BackedUp() {
      assert s.Prepared();
    }
  }

  lemma ShadowingIsIntact(states: seq<TargetState>, dimensions: nat, points: Points)
    requires forall s :: s in states ==> s.Shadowing(dimensions, points)
    ensures forall s :: s in states ==> s.Intact() && s.Prepared() && s.BackedUp()
  {
  }

  lemma InspectedIsIntact(states: seq<TargetState>)
    requires forall s :: s in states ==> s.Inspected()
    ensures forall s :: s in states ==> s.Intact() && s.backup !in s.server.collections
  {
  }

  /** The points a run of payloads becomes. */
  function Records(payloads: seq<Json>, pointId: Json -> int, embed: Json -> int): seq<(int, Point)> {
    seq(|payloads|, i requires 0 <= i < |payloads| => (pointId(payloads[i]), Point(embed(payloads[i]), payloads[i])))
  }

  lemma {:induction false} ToPointsAppend(a: seq<(int, Point)>, b: seq<(int, Point)>)
    ensures ToPoints(a + b) == ToPoints(a) + ToPoints(b)
    decreases |b|
  {
    if b == [] {
      assert a + b == a;
    } else {
      var n := |b| - 1;
      ToPointsAppend(a, b[..n]);
      assert (a + b)[..|a + b| - 1] == a + b[..n];
    }
  }

  lemma NextWindow(payloads: seq<Json>, pointId: Json -> int, embed: Json -> int, start: nat, end: nat)
    requires start <= end <= |payloads|
    ensures ToPoints(Records(payloads[..end], pointId, embed))
         == ToPoints(Records(payloads[..start], pointId, embed))
            + ToPoints(Records(payloads[start..end], pointId, embed))
  {
    assert Records(payloads[..end], pointId, embed)
        == Records(payloads[..start], pointId, embed) + Records(payloads[start..end], pointId, embed);
    ToPointsAppend(Records(payloads[..start], pointId, embed), Records(payloads[start..end], pointId, embed));
  }

  /** Window by window: embed, then write the same points to every shadow. */
  method LoadShadows(states: seq<TargetState>, payloads: seq<Json>, window: nat, pointId: Json -> int,
                     embed: Json -> int, dimensions: nat, calm: bool)
    returns (ok: bool)
    requires Distinct(states) && window >= 1 && forall s :: s in states ==> s.Shadowing(dimensions, map[])
    modifies Servers(states)
    ensures forall s :: s in states ==> s.Intact() && s.Prepared()
    ensures ok ==> forall s :: s in states ==> s.Shadowing(dimensions, ToPoints(Records(payloads, pointId, embed)))
    ensures calm ==> ok
  {
    hide ToPoints, Records;
    ok := true;
    var start := 0;
    NoRecords(pointId, embed);
    assert payloads[..0] == [];
    while start < |payloads|
      invariant start <= |payloads| && ok
      invariant forall s :: s in states ==>
        s.Shadowing(dimensions, ToPoints(Records(payloads[..start], pointId, embed)))
    {
      var end := if start + window < |payloads| then start + window else |payloads|;
      var embedded := Toss(calm);
      if embedded != Done {
        return false;
      }
      var records := Records(payloads[start..end], pointId, embed);
      NextWindow(payloads, pointId, embed, start, end);
      ok := WriteToAll(states, records, dimensions, ToPoints(Records(payloads[..start], pointId, embed)), calm);
      if !ok {
        return;
      }
      start := end;
    }
    assert payloads[..start] == payloads;
  }

  lemma NoRecords(pointId: Json -> int, embed: Json -> int)
    ensures ToPoints(Records([], pointId, embed)) == map[]
  {
  }

  method WriteToAll(states: seq<TargetState>, records: seq<(int, Point)>, dimensions: nat, ghost before: Points,
                    calm: bool)
    returns (ok: bool)
    requires Distinct(states) && forall s :: s in states ==> s.Shadowing(dimensions, before)
    modifies Servers(states)
    ensures forall s :: s in states ==> s.Intact() && s.Prepared()
    ensures ok ==> forall s :: s in states ==> s.Shadowing(dimensions, before + ToPoints(records))
    ensures calm ==> ok
  {
    hide ToPoints, TargetState.Shadowing;
    ok := true;
    for i := 0 to |states|
      invariant ok
      invariant forall k :: 0 <= k < i ==> states[k].Shadowing(dimensions, before + ToPoints(records))
      invariant forall k :: i <= k < |states| ==> states[k].Shadowing(dimensions, before)
    {
      var s := states[i];
      assert s.server in Servers(states);
      ok := s.LoadShadow(records, dimensions, before, calm);
      if !ok {
        ShadowingIsIntact(states[..i], dimensions, before + ToPoints(records));
        ShadowingIsIntact(states[i + 1..], dimensions, before);
        assert states == states[..i] + [s] + states[i + 1..];
        return;
      }
    }
    ShadowingIsIntact(states, dimensions, before + ToPoints(records));
  }

  method ValidateShadows<D(==)>(states: seq<TargetState>, e: Expected<D>, ghost source: seq<Json>, calm: bool)
    returns (ok: bool)
    requires forall s :: s in states ==> s.Prepared()
    ensures ok ==> forall s :: s in states ==> s.ShadowValidated(e)
    ensures calm && (forall s :: s in states ==> s.ShadowCanonical(e, source)) ==> ok
  {
    hide Validated, IsCanonical;
    ok := true;
    for i := 0 to |states|
      invariant ok
      invariant forall k :: 0 <= k < i ==> states[k].ShadowValidated(e)
    {
      var s := states[i];
      assert s in states;
      ok := ValidateCollection(s.server, s.shadow, e, source, calm);
      if !ok {
        assert !(calm && s.ShadowCanonical(e, source));
        return;
      }
    }
  }

  /** Undoes the switches made, last first. */
  method RollBackAll(states: seq<TargetState>, count: nat)
    requires Distinct(states) && count <= |states|
    requires forall k :: 0 <= k < |states| ==> states[k].Prepared()
    requires forall k :: count <= k < |states| ==> states[k].Restored()
    modifies states, Servers(states)
    ensures forall s :: s in states ==> s.Restored() && s.BackedUp() && s.original == old(s.original)
  {
    var i := count;
    while i > 0
      invariant 0 <= i <= count
      invariant forall k :: 0 <= k < |states| ==> states[k].Prepared()
      invariant forall k :: i <= k < |states| ==> states[k].Restored()
      invariant forall s :: s in states ==> s.original == old(s.original)
    {
      i := i - 1;
      assert states[i].server in Servers(states);
      states[i].Rollback();
    }
  }

  /** Switch and check one target after another; any failure puts all of them back. */
  method SwitchAll<D(==)>(states: seq<TargetState>, dimensions: nat, e: Expected<D>, ghost source: seq<Json>,
                          ghost points: Points, calm: bool)
    returns (ok: bool)
    requires Distinct(states) && forall s :: s in states ==> s.Shadowing(dimensions, points)
    modifies states, Servers(states)
    ensures forall s :: s in states ==> s.BackedUp() && s.original == old(s.original)
    ensures ok ==> forall s :: s in states ==> s.Exposes(dimensions, points) && s.LogicalValidated(e)
    ensures !ok ==> forall s :: s in states ==> s.Restored()
    ensures calm && IsCanonical(Collection(dimensions, Elems(INDEXES), points), e, source) ==> ok
  {
    hide Validated, IsCanonical, TargetState.LogicalValidated, TargetState.Exposes, TargetState.Shadowing;
    hide TargetState.Prepared, TargetState.Restored, TargetState.BackedUp;
    ok := true;
    var i := 0;
    while i < |states|
      invariant 0 <= i <= |states| && ok
      invariant forall k :: 0 <= k < i ==> states[k].Exposes(dimensions, points) && states[k].LogicalValidated(e)
      invariant forall k :: i <= k < |states| ==> states[k].Shadowing(dimensions, points)
      invariant forall s :: s in states ==> s.original == old(s.original)
    {
      var s := states[i];
      assert s.server in Servers(states);
      ok := s.SwitchAndCheck(dimensions, e, source, points, calm);
      if !ok {
        CanBePutBack(states, i, dimensions, points);
        RollBackAll(states, if s.switched then i + 1 else i);
        return;
      }
      i := i + 1;
    }
    CanBePutBack(states, i, dimensions, points);
  }

  lemma CanBePutBack(states: seq<TargetState>, i: nat, dimensions: nat, points: Points)
    requires i <= |states| && forall k :: 0 <= k < i ==> states[k].Exposes(dimensions, points)
    requires forall k :: i < k < |states| ==> states[k].Shadowing(dimensions, points)
    requires i < |states| ==> states[i].Prepared()
    ensures forall k :: 0 <= k < |states| ==> states[k].Prepared() && states[k].BackedUp()
    ensures forall k :: i < k < |states| ==> states[k].Restored()
  {
  }

  // ---- the run ----

  datatype Outcome = DryRun | Replaced | Failed

  /** What the source promises of its payloads: all canonical, no point or entity key twice. */
  ghost predicate Loadable(payloads: seq<Json>, pointId: Json -> int) {
    && (forall p :: p in payloads ==> Complete(p))
    && DistinctKeys(payloads)
    && forall i, j :: 0 <= i < j < |payloads| ==> pointId(payloads[i]) != pointId(payloads[j])
  }

  function PointIds(payloads: seq<Json>, pointId: Json -> int): seq<int> {
    seq(|payloads|, i requires 0 <= i < |payloads| => pointId(payloads[i]))
  }

  /** What the targets are held against is computed from the payloads: the id set and a checksum of them, sorted. */
  ghost predicate ExpectedOf<D>(e: Expected<D>, payloads: seq<Json>, pointId: Json -> int) {
    && e.ids == Elems(PointIds(payloads, pointId))
    && exists stream :: StreamOf(payloads, stream) && e.checksum == e.hash(stream)
  }

  /** What was loaded passes every check, and the checksum computed from it. */
  lemma LoadedIsCanonical<D>(payloads: seq<Json>, pointId: Json -> int, embed: Json -> int, e: Expected<D>)
    requires Loadable(payloads, pointId) && ExpectedOf(e, payloads, pointId)
    ensures |e.ids| == |payloads|
    ensures IsCanonical(Collection(e.dimensions, Elems(INDEXES), ToPoints(Records(payloads, pointId, embed))), e,
                        payloads)
  {
    hide Complete, EntityKey, Lines, SortedByKey;
    var records := Records(payloads, pointId, embed);
    var points := ToPoints(records);
    var ids := PointIds(payloads, pointId);
    assert DistinctIds(records);
    RecordsListing(records);
    assert Payloads(records) == payloads && Ids(records) == ids;
    assert Listing(points, ids, payloads);
    ListingIds(points, ids, payloads);
    hide ToPoints, Records, Listing;
    assert HoldsSource(points, e, payloads);
  }

  lemma ShadowsAreCanonical<D>(states: seq<TargetState>, dimensions: nat, points: Points, e: Expected<D>,
                               source: seq<Json>)
    requires forall s :: s in states ==> s.Shadowing(dimensions, points)
    requires IsCanonical(Collection(dimensions, Elems(INDEXES), points), e, source)
    ensures forall s :: s in states ==> s.ShadowCanonical(e, source)
  {
  }

  lemma IntactIsRestored(states: seq<TargetState>)
    requires forall s :: s in states ==> s.Intact()
    ensures forall s :: s in states ==> s.Restored()
  {
  }

  /** Back up, load, validate and switch the inspected targets. */
  method ReplaceAll<D(==)>(states: seq<TargetState>, payloads: seq<Json>, pointId: Json -> int, embed: Json -> int,
                           window: nat, e: Expected<D>, calm: bool)
    returns (ok: bool, ghost cloned: nat)
    requires Distinct(states) && window >= 1 && forall s :: s in states ==> s.Inspected()
    modifies states, Servers(states)
    ensures forall s :: s in states ==> s.original == old(s.original)
    ensures BackedUpTo(states, cloned)
    ensures ok ==> cloned == |states| && forall s :: s in states ==>
      s.Exposes(e.dimensions, ToPoints(Records(payloads, pointId, embed))) && s.LogicalValidated(e)
    ensures !ok ==> forall s :: s in states ==> s.Restored()
    ensures var points := ToPoints(Records(payloads, pointId, embed));
      calm && IsCanonical(Collection(e.dimensions, Elems(INDEXES), points), e, payloads) ==> ok
  {
    hide IsCanonical, Validated, ToPoints, Records, TargetState.Inspected, TargetState.Intact, TargetState.Restored;
    hide TargetState.Shadowing, TargetState.Exposes, TargetState.BackedUp, TargetState.Prepared, TargetState.Switched;
    hide TargetState.ShadowCanonical, TargetState.ShadowValidated, TargetState.LogicalValidated, BackedUpTo;
    ghost var points := ToPoints(Records(payloads, pointId, embed));
    ok, cloned := BackUpAll(states, e.dimensions, calm);
    if !ok {
      IntactIsRestored(states);
      return;
    }
    ok := LoadShadows(states, payloads, window, pointId, embed, e.dimensions, calm);
    IntactIsRestored(states);
    PreparedIsBackedUp(states);
    if !ok {
      return;
    }
    if IsCanonical(Collection(e.dimensions, Elems(INDEXES), points), e, payloads) {
      ShadowsAreCanonical(states, e.dimensions, points, e, payloads);
    }
    ok := ValidateShadows(states, e, payloads, calm);
    if !ok {
      return;
    }
    ok := SwitchAll(states, e.dimensions, e, payloads, points, calm);
    AllAreBackedUp(states);
  }

  lemma AllAreBackedUp(states: seq<TargetState>)
    requires forall s :: s in states ==> s.BackedUp()
    ensures BackedUpTo(states, |states|)
  {
  }

  /** All targets take the new points, or all keep the ones they had. */
  method Run<D(==)>(states: seq<TargetState>, payloads: seq<Json>, pointId: Json -> int, embed: Json -> int,
                    hash: string -> D, window: nat, dimensions: nat, dryRun: bool, yes: bool, calm: bool)
    returns (outcome: Outcome, ghost e: Expected<D>, ghost cloned: nat)
    requires Distinct(states) && window >= 1 && forall s :: s in states ==> s.server.Valid() && s.Named()
    modifies states, Servers(states)
    ensures forall s :: s in states ==> s.server.Valid()
    ensures outcome == DryRun ==> dryRun && forall s :: s in states ==> unchanged(s.server)
    ensures e.hash == hash && e.dimensions == dimensions && ExpectedOf(e, payloads, pointId)
    ensures outcome == Replaced ==> |e.ids| == |payloads| && forall s :: s in states ==> s.LogicalValidated(e)
    ensures outcome == Replaced ==> forall s :: s in states ==>
      s.Exposes(dimensions, ToPoints(Records(payloads, pointId, embed)))
    ensures cloned <= |states| && (outcome == Replaced ==> cloned == |states|)
    ensures forall k :: 0 <= k < cloned ==>
      states[k].BackedUp() && old(states[k].server.Exists(states[k].logical))
      && states[k].original == old(states[k].server.Resolve(states[k].logical).points)
    ensures forall k :: cloned < k < |states| && states[k].backup in states[k].server.collections ==>
      states[k].backup in old(states[k].server.collections)
    ensures outcome != Replaced ==> forall s :: s in states && old(s.server.Exists(s.logical)) ==>
      s.server.Exists(s.logical) && s.server.Resolve(s.logical).points == old(s.server.Resolve(s.logical).points)
    ensures calm && yes && !dryRun && Loadable(payloads, pointId) && old(forall s :: s in states ==> s.Replaceable())
      ==> outcome == Replaced
  {
    hide Complete, Validated, IsCanonical, ToPoints, Records, Loadable, PointIds, Listing;
    hide SortedByKey, DistinctKeys, Lines;
    hide TargetState.Shadowing, TargetState.Exposes, TargetState.Prepared, TargetState.Switched;
    hide TargetState.Replaceable, TargetState.ShadowCanonical, TargetState.ShadowValidated;
    hide TargetState.LogicalValidated;
    hide Server.Exists, Server.Resolve, Server.Root;
    var stream := ChecksumStream(payloads);
    var ids := Elems(PointIds(payloads, pointId));
    var expected := Expected(dimensions, ids, hash, hash(stream));
    e := expected;
    assert ExpectedOf(e, payloads, pointId);
    hide ExpectedOf;
    if Loadable(payloads, pointId) {
      LoadedIsCanonical(payloads, pointId, embed, e);
    }
    outcome, cloned := Failed, 0;
    if |ids| != |payloads| {
      return;
    }
    var ok := InspectAll(states, calm);
    if !ok || dryRun == yes {
      return;
    }
    if dryRun {
      outcome := DryRun;
      return;
    }
    assert forall s :: s in states ==>
      old(s.server.Exists(s.logical)) && s.original == old(s.server.Resolve(s.logical).points);
    ok, cloned := ReplaceAll(states, payloads, pointId, embed, window, expected, calm);
    hide TargetState.BackedUp, TargetState.Intact;
    assert forall s :: s in states ==> s.original == old(s.server.Resolve(s.logical).points);
    outcome := if ok then Replaced else Failed;
  }

  lemma NamesDiffer(logical: string, runId: string)
    ensures var backup, shadow := logical + "__backup__" + runId, logical + "__v2__" + runId;
            backup != logical && shadow != logical && backup != shadow
  {
  }
}
