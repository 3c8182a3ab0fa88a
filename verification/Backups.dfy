/** Pre-upgrade backups of one target: naming, retention and failure markers. */
module Backups {
  import opened Options
  import opened Ordering

  /** What a database holds. An unmanaged one has tables but no recorded revision. */
  datatype Contents = Empty | Unmanaged(data: int) | Managed(revision: string, data: int)

  /** The parts of a backup's file name; the timestamp is the fixed-width UTC stamp, in seconds. */
  datatype Name = Name(timestamp: nat, fromRevision: Option<string>, toRevision: string)

  type Files = map<Name, Contents>

  predicate NewerFirst(a: Name, b: Name) { a.timestamp >= b.timestamp }

  /** Sorts names newest first; names of the same second may come either way. */
  method SortNewestFirst(names: set<Name>) returns (r: seq<Name>)
    ensures Elems(r) == names && NoDup(r)
    ensures forall i, j :: 0 <= i < j < |r| ==> NewerFirst(r[i], r[j])
  {
    r := [];
    var todo := names;
    while todo != {}
      invariant todo <= names && Elems(r) == names - todo && NoDup(r)
      invariant forall i, j :: 0 <= i < j < |r| ==> NewerFirst(r[i], r[j])
      decreases todo
    {
      var x :| x in todo;
      var p := 0;
      while p < |r| && NewerFirst(r[p], x)
        invariant p <= |r| && forall k :: 0 <= k < p ==> NewerFirst(r[k], x)
      {
        p := p + 1;
      }
      InsertDistinct(r, p, x);
      r, todo := r[..p] + [x] + r[p..], todo - {x};
    }
  }

  /** The newest `keep` backups stay, with their contents; the rest are deleted. */
  ghost predicate Retained(files: Files, keep: nat, kept: Files, removed: seq<Name>) {
    && kept == (map n | n in files && n !in removed :: files[n])
    && NoDup(removed) && Elems(removed) <= files.Keys
    && |removed| == (if |files| <= keep then 0 else |files| - keep)
    && forall n, m :: n in kept && m in removed ==> NewerFirst(n, m)
  }

  method ApplyRetention(files: Files, keep: nat) returns (kept: Files, removed: seq<Name>)
    ensures Retained(files, keep, kept, removed)
  {
    hide NoDup, NewerFirst;
    var names := SortNewestFirst(files.Keys);
    kept, removed := files, [];
    var first := if |names| <= keep then |names| else keep;
    var k := first;
    assert names[first..first] == [];
    while k < |names|
      invariant first <= k <= |names| && removed == names[first..k]
      invariant kept == map n | n in files && n !in removed :: files[n]
    {
      assert names[first..k + 1] == names[first..k] + [names[k]];
      kept := kept - {names[k]};
      removed := removed + [names[k]];
      k := k + 1;
    }
    TailIsRetention(files, names, keep, removed);
  }

  lemma TailIsRetention(files: Files, names: seq<Name>, keep: nat, removed: seq<Name>)
    requires Elems(names) == files.Keys && NoDup(names)
    requires forall i, j :: 0 <= i < j < |names| ==> NewerFirst(names[i], names[j])
    requires removed == names[if |names| <= keep then |names| else keep..]
    ensures Retained(files, keep, map n | n in files && n !in removed :: files[n], removed)
  {
    NoDupCardinality(names);
    assert |files| == |files.Keys|;
    TailIsDistinct(names, if |names| <= keep then |names| else keep);
    hide NoDup;
    TailIsOldest(files.Keys, names, if |names| <= keep then |names| else keep);
  }

  lemma TailIsDistinct(names: seq<Name>, first: nat)
    requires NoDup(names) && first <= |names|
    ensures NoDup(names[first..])
  {
  }

  lemma TailIsOldest(all: set<Name>, names: seq<Name>, first: nat)
    requires Elems(names) == all && first <= |names|
    requires forall i, j :: 0 <= i < j < |names| ==> NewerFirst(names[i], names[j])
    ensures forall n, m :: n in all && n !in names[first..] && m in names[first..] ==> NewerFirst(n, m)
    ensures Elems(names[first..]) <= all
  {
  }

  /** Exactly `keep` backups are left, or all of them if there were no more than that. */
  lemma RetentionCount(files: Files, keep: nat, kept: Files, removed: seq<Name>)
    requires Retained(files, keep, kept, removed)
    ensures |kept| == if |files| <= keep then |files| else keep
  {
    NoDupCardinality(removed);
    assert kept.Keys == files.Keys - Elems(removed);
    assert |files| == |files.Keys| && |kept| == |kept.Keys|;
  }

  /** Backups, other than this one, that the order of deletion may put before it. */
  function NotOlder(files: Files, name: Name): set<Name> {
    set n | n in files && n != name && n.timestamp >= name.timestamp
  }

  /**
   * A backup surely survives if fewer than `keep` others are as new as it, and is surely deleted if `keep` are newer.
   * Between the two it depends on how backups of the same second are sorted.
   */
  lemma SurvivesWithRoom(files: Files, keep: nat, kept: Files, removed: seq<Name>, name: Name)
    requires Retained(files, keep, kept, removed) && name in files
    ensures |NotOlder(files, name)| < keep ==> name in kept && kept[name] == files[name]
    ensures (forall n :: n in NotOlder(files, name) ==> n.timestamp > name.timestamp)
            && |NotOlder(files, name)| >= keep ==>
      name !in kept
  {
    RetentionCount(files, keep, kept, removed);
    assert name in files.Keys && |files| == |files.Keys| && |kept| == |kept.Keys|;
    if name in removed {
      assert forall n :: n in kept ==> NewerFirst(n, name);
      SubsetCardinality(kept.Keys, NotOlder(files, name));
      assert |files| > keep;
    } else if forall n :: n in NotOlder(files, name) ==> n.timestamp > name.timestamp {
      assert forall n :: n in NotOlder(files, name) && n in removed ==> NewerFirst(name, n);
      assert NotOlder(files, name) + {name} <= kept.Keys;
      SubsetCardinality(NotOlder(files, name) + {name}, kept.Keys);
    }
  }
}
