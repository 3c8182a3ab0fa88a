/** One start-up of the three databases: refuse, back up, upgrade, verify, and on failure abort or roll back. */
module Bootstrap {
  import opened Backups
  import opened Options

  datatype Target = Main | Audit | Usm

  const ORDER: seq<Target> := [Main, Audit, Usm]

  /** One value per target. */
  datatype Each<T> = Each(main: T, audit: T, usm: T) {
    function Of(t: Target): T {
      match t case Main => main case Audit => audit case Usm => usm
    }

    function With(t: Target, value: T): (r: Each<T>)
      ensures r.Of(t) == value && forall u :: u != t ==> r.Of(u) == Of(u)
    {
      match t case Main => this.(main := value) case Audit => this.(audit := value) case Usm => this.(usm := value)
    }
  }

  function Tabulate<T>(f: Target -> T): (r: Each<T>)
    ensures forall t :: r.Of(t) == f(t)
  {
    Each(f(Main), f(Audit), f(Usm))
  }

  lemma SameOfAll<T>(a: Each<T>, b: Each<T>)
    requires forall t :: a.Of(t) == b.Of(t)
    ensures a == b
  {
    assert a.Of(Main) == b.Of(Main) && a.Of(Audit) == b.Of(Audit) && a.Of(Usm) == b.Of(Usm);
  }

  /** What each database holds, and the backup files of each. */
  type Stores = Each<Contents>
  type Shelves = Each<Files>

  datatype Marker = Marker(head: string, attempts: nat)
  type Marks = map<Target, Marker>

  datatype BackupMode = Required | BestEffort | Off
  datatype Policies = Policies(mode: BackupMode, retention: nat, rollback: bool, maxAttempts: nat)

  datatype Engine = Sqlite | Mysql | Postgresql

  /** A refused backup leaves no file; one that raises otherwise may leave one, whole or in part, under its name. */
  datatype BackupEvent = BackedUp | BackupRefused | BackupRaised(left: Option<Contents>)
  datatype VerifyEvent = Passed | Rejected | VerifyRaised

  /**
   * What the outside world does to one target during a run. `after` is what the upgrade leaves, whether or not it
   * raises.
   */
  datatype Event = Event(reachable: bool, now: nat, backup: BackupEvent, after: Contents, upgradeDone: bool,
                         verify: VerifyEvent)

  /** What the outside world does to a rollback: the restore that raises, if any, and what it leaves. */
  datatype RestoreEvent = AllRestored | RaisesAt(target: Target, debris: Contents) {
    predicate Hits(t: Target) { RaisesAt? && target == t }

    /** What a restore that raises leaves of a target: it has been emptied, if nothing else. */
    function Leaves(t: Target): Contents { if RaisesAt? && target == t then debris else Empty }
  }

  /** What follows once all three are up: statistics, then the seeding of a first super admin, which commits to main. */
  datatype Closing = StatsRaised | SeedSkipped | Seeded(data: int) | SeedRaised(written: Option<int>) {
    predicate Raises() { StatsRaised? || SeedRaised? }

    /** What main then holds; only its data can change, and nothing is seeded where there are no tables. */
    function Leaves(main: Contents): Contents {
      if Seeded? then WithData(main, data)
      else if SeedRaised? && written.Some? then WithData(main, written.value)
      else main
    }
  }

  function WithData(c: Contents, data: int): Contents {
    match c
    case Empty => Empty
    case Unmanaged(_) => Unmanaged(data)
    case Managed(revision, _) => Managed(revision, data)
  }

  predicate Fresh(c: Contents) { c == Empty }

  predicate Pending(c: Contents, head: string) { !(c.Managed? && c.revision == head) }

  function Current(c: Contents): Option<string> {
    if c.Managed? then Some(c.revision) else None
  }

  /** How often the upgrade to this head has failed in a row, as the marker has it. */
  function Attempts(markers: Marks, t: Target, head: string): nat {
    if t in markers && markers[t].head == head then markers[t].attempts else 0
  }

  predicate Refused(markers: Marks, heads: Target -> string, limit: nat) {
    exists t :: t in ORDER && t in markers && markers[t].head == heads(t) && markers[t].attempts >= limit
  }

  function At(i: nat): (t: Target)
    requires i < 3
    ensures Position(t) == i
  {
    ORDER[i]
  }

  function Position(t: Target): (i: nat)
    ensures i < 3
  {
    match t case Main => 0 case Audit => 1 case Usm => 2
  }

  /**
   * A failure of t counts one more attempt against t, forgets the targets before it, and leaves those after it alone.
   */
  predicate FailureRecorded(before: Marks, after: Marks, heads: Target -> string, t: Target) {
    && (forall u: Target :: Position(u) < Position(t) ==> u !in after)
    && t in after && after[t] == Marker(heads(t), Attempts(before, t, heads(t)) + 1)
    && (forall u: Target :: Position(u) > Position(t) ==>
          (u in after <==> u in before) && (u in before ==> after[u] == before[u]))
  }

  /** The markers of the first k targets are gone, the others as they were. */
  predicate Forgotten(before: Marks, after: Marks, k: nat) {
    forall u: Target ::
      (Position(u) < k ==> u !in after)
      && (Position(u) >= k ==> (u in after <==> u in before) && (u in before ==> after[u] == before[u]))
  }

  // ---- one attempt on a target ----

  datatype TargetResult =
    | Ready(backup: Option<Name>)
    | Failure(backup: Option<Name>)
    | Crashed

  /** One attempt on a target: what the policy and the target are, and what the world does to it. */
  datatype Attempt = Attempt(mode: BackupMode, head: string, before: Contents, event: Event) {
    predicate NeedsBackup() { Pending(before, head) && !Fresh(before) && mode != Off }

    /** It ends for want of a backup. */
    predicate Stopped() { NeedsBackup() && event.backup != BackedUp }

    predicate Upgrades() { event.reachable && Pending(before, head) && !Stopped() }

    function After(): Contents { if Upgrades() then event.after else before }

    function FileName(): Name { Name(event.now, Current(before), head) }

    function Made(): Option<Name> {
      if event.reachable && NeedsBackup() && event.backup == BackedUp then Some(FileName()) else None
    }

    predicate Succeeds() {
      event.reachable && !Stopped() && (Pending(before, head) ==> event.upgradeDone) && event.verify == Passed
    }

    /** It ends in a failure that is handled and counted. Any other end that is no success is an exception. */
    predicate Fails() {
      && event.reachable
      && if Stopped() then mode == Required && event.backup == BackupRefused
         else (Pending(before, head) && !event.upgradeDone) || event.verify == Rejected
    }

    /** The files once it has been made; a backup that raised may have left one that is of no use to this run. */
    function Stored(files: Files): Files {
      if Made().Some? then files[FileName() := before]
      else if event.reachable && NeedsBackup() && event.backup.BackupRaised? && event.backup.left.Some?
      then files[FileName() := event.backup.left.value]
      else files
    }
  }

  /** Contents that are not fresh are overwritten only once they are on file, unless backups are off. */
  lemma SavedFirst(a: Attempt, files: Files)
    requires a.After() != a.before && !Fresh(a.before) && a.mode != Off
    ensures a.Made().Some? && a.Made().value in a.Stored(files) && a.Stored(files)[a.Made().value] == a.before
  {
  }

  /**
   * Mode best-effort is documented to go on without a backup. It does so exactly for a target that never needed one:
   * else the attempt ends, with nothing changed, in an exception that is neither handled nor counted.
   */
  lemma BestEffortContinues(a: Attempt)
    requires a.mode == BestEffort && a.event.reachable && Pending(a.before, a.head)
    ensures a.Upgrades() <==> Fresh(a.before) || a.event.backup == BackedUp
    ensures !a.Upgrades() ==> !a.Succeeds() && !a.Fails() && a.After() == a.before && a.Made() == None
  {
  }

  // ---- one start-up ----

  /** Everything a start-up depends on before it closes. */
  datatype Start = Start(policies: Policies, engines: Each<Engine>, heads: Target -> string, events: Target -> Event,
                         databases: Stores, backups: Shelves, markers: Marks) {
    function On(t: Target): Attempt {
      Attempt(policies.mode, heads(t), databases.Of(t), events(t))
    }

    ghost predicate Completes() { forall t :: On(t).Succeeds() }

    /** t is the first target that does not come up. */
    ghost predicate StopsAt(t: Target) {
      !On(t).Succeeds() && forall u :: Position(u) < Position(t) ==> On(u).Succeeds()
    }

    /** The databases once the first k targets have been attempted. */
    ghost function Upgraded(k: nat): Stores {
      Tabulate(u => if Position(u) < k then On(u).After() else databases.Of(u))
    }

    /** The backups made of the first k targets, in order. */
    function Listed(k: nat): seq<(Target, Name)>
      requires k <= 3
    {
      if k == 0 then []
      else if On(At(k - 1)).Made().Some? then Listed(k - 1) + [(At(k - 1), On(At(k - 1)).Made().value)]
      else Listed(k - 1)
    }

    ghost predicate HasBackup(t: Target, k: nat) { Position(t) < k && On(t).Made().Some? }

    ghost predicate NoBackup(k: nat) { forall t: Target :: Position(t) < k ==> On(t).Made().None? }

    /** The backups of a target are thinned once it is up; the target that stops the run keeps all of them. */
    ghost predicate ShelvedAt(u: Target, files: Files, done: nat, tried: nat) {
      if Position(u) < done && On(u).Made().Some?
      then exists removed :: Retained(On(u).Stored(backups.Of(u)), policies.retention, files, removed)
      else files == if Position(u) < tried then On(u).Stored(backups.Of(u)) else backups.Of(u)
    }

    ghost predicate Shelved(after: Shelves, done: nat, tried: nat) {
      forall u: Target :: ShelvedAt(u, after.Of(u), done, tried)
    }

    /** Its backup is still on file. */
    ghost predicate OnFile(u: Target, kept: Shelves) {
      On(u).Made().Some? && On(u).Made().value in kept.Of(u)
    }

    ghost predicate AllOnFile(kept: Shelves, k: nat) {
      forall u: Target :: HasBackup(u, k) ==> OnFile(u, kept)
    }

    /** A restore raises for reasons of its own, or for want of the file; SQLite takes an empty new file instead. */
    ghost predicate RestoreRaises(u: Target, kept: Shelves, restore: RestoreEvent, k: nat) {
      HasBackup(u, k) && (restore.Hits(u) || (!OnFile(u, kept) && engines.Of(u) != Sqlite))
    }

    ghost predicate SomeRaises(kept: Shelves, restore: RestoreEvent, k: nat) {
      exists u :: RestoreRaises(u, kept, restore, k)
    }

    /** The first one to raise: targets are restored last first. */
    ghost predicate FirstToRaise(u: Target, kept: Shelves, restore: RestoreEvent, k: nat) {
      RestoreRaises(u, kept, restore, k)
      && forall v :: RestoreRaises(v, kept, restore, k) ==> Position(v) <= Position(u)
    }

    /** Targets from this position on are restored: to what they held, or to nothing where the file is gone. */
    ghost function RolledBack(kept: Shelves, from: nat, k: nat): Stores {
      Tabulate(u =>
        if HasBackup(u, k) && Position(u) >= from then if OnFile(u, kept) then databases.Of(u) else Empty
        else Upgraded(k).Of(u))
    }

    /** The files after that: looking for one that is gone, SQLite makes an empty one. */
    ghost function Reopened(kept: Shelves, from: nat, k: nat): Shelves {
      Tabulate(u =>
        if HasBackup(u, k) && Position(u) >= from && !OnFile(u, kept) && engines.Of(u) == Sqlite
        then kept.Of(u)[On(u).Made().value := Empty]
        else kept.Of(u))
    }

    /** The run of a start-up that gets past all three targets. */
    ghost predicate CompletedAs(closing: Closing, code: int, databases': Stores, backups': Shelves, markers': Marks) {
      && code == (if closing.Raises() then 1 else 0)
      && databases' == Upgraded(3).With(Main, closing.Leaves(On(Main).After()))
      && Shelved(backups', 3, 3)
      && markers' == map[]
    }

    /** The run of a start-up ended at t by an exception that is no target failure. */
    ghost predicate CrashedAs(t: Target, code: int, databases': Stores, backups': Shelves, markers': Marks) {
      && code == 1
      && databases' == Upgraded(Position(t) + 1)
      && Shelved(backups', Position(t), Position(t) + 1)
      && Forgotten(markers, markers', Position(t))
    }

    /**
     * The run of a start-up that ends with the failure of t; `kept` are the backups when the rollback begins, if it
     * does.
     */
    ghost predicate FailedAs(t: Target, restore: RestoreEvent, code: int, kept: Shelves, databases': Stores,
                             backups': Shelves, markers': Marks) {
      var k := Position(t) + 1;
      && Shelved(kept, k - 1, k)
      && FailureRecorded(markers, markers', heads, t)
      && (code == 1 <==> !policies.rollback || NoBackup(k))
      && (code == 1 ==> databases' == Upgraded(k) && backups' == kept)
      && (code != 1 ==> code == if SomeRaises(kept, restore, k) then 9 else 8)
      && (code == 8 ==> databases' == RolledBack(kept, 0, k) && backups' == Reopened(kept, 0, k))
      && (code == 9 ==> forall u :: FirstToRaise(u, kept, restore, k) ==>
            && databases' == RolledBack(kept, Position(u) + 1, k).With(u, restore.Leaves(u))
            && backups' == Reopened(kept, Position(u) + 1, k))
    }

    /** What holds between two targets of a run. */
    ghost predicate Underway(databases': Stores, backups': Shelves, markers': Marks, upgraded: seq<(Target, Name)>,
                             k: nat)
      requires k <= 3
    {
      && databases' == Upgraded(k)
      && Shelved(backups', k, k)
      && Forgotten(markers, markers', k)
      && upgraded == Listed(k)
      && forall u :: Position(u) < k ==> On(u).Succeeds()
    }

    /** Fewer than `retention` older backups of a target are as new as the one a run makes. */
    ghost predicate Roomy() {
      forall t: Target :: On(t).Made().Some? ==> |NotOlder(backups.Of(t), On(t).Made().value)| < policies.retention
    }
  }

  /** Every start-up that is let through ends in one way only. */
  lemma OneEnding(s: Start)
    ensures s.Completes() <==> forall t :: !s.StopsAt(t)
    ensures forall t, u :: s.StopsAt(t) && s.StopsAt(u) ==> t == u
  {
    if !s.On(Main).Succeeds() {
      assert s.StopsAt(Main);
    } else if !s.On(Audit).Succeeds() {
      assert s.StopsAt(Audit);
    } else if !s.On(Usm).Succeeds() {
      assert s.StopsAt(Usm);
    } else {
      forall t ensures s.On(t).Succeeds() {
        match t case Main => case Audit => case Usm =>
      }
    }
  }

  // ---- restoring a list of backups ----

  /** What a restore puts in the place of a target. */
  function PutBack(files: Shelves, e: (Target, Name)): Contents {
    if e.1 in files.Of(e.0) then files.Of(e.0)[e.1] else Empty
  }

  /** Looking for a file that is gone, SQLite makes an empty one. */
  function Opened(engines: Each<Engine>, files: Shelves, e: (Target, Name)): Files {
    if e.1 in files.Of(e.0) || engines.Of(e.0) != Sqlite then files.Of(e.0) else files.Of(e.0)[e.1 := Empty]
  }

  predicate Raises(engines: Each<Engine>, files: Shelves, event: RestoreEvent, e: (Target, Name)) {
    event.Hits(e.0) || (e.1 !in files.Of(e.0) && engines.Of(e.0) != Sqlite)
  }

  ghost predicate OncePerTarget(restorable: seq<(Target, Name)>) {
    forall i, j :: 0 <= i < j < |restorable| ==> restorable[i].0 != restorable[j].0
  }

  /** All of the list is restored, and nothing else changed. */
  ghost predicate Restored(engines: Each<Engine>, before: Stores, files: Shelves, restorable: seq<(Target, Name)>,
                           now: Stores, filesNow: Shelves) {
    && (forall e :: e in restorable ==>
          now.Of(e.0) == PutBack(files, e) && filesNow.Of(e.0) == Opened(engines, files, e))
    && (forall u: Target :: (forall e :: e in restorable ==> e.0 != u) ==>
          now.Of(u) == before.Of(u) && filesNow.Of(u) == files.Of(u))
  }

  lemma RestoredStep(engines: Each<Engine>, before: Stores, files: Shelves, restorable: seq<(Target, Name)>,
                     now: Stores, filesNow: Shelves, i: nat)
    requires OncePerTarget(restorable) && i < |restorable|
    requires Restored(engines, before, files, restorable[i + 1..], now, filesNow)
    ensures var e := restorable[i];
      && filesNow.Of(e.0) == files.Of(e.0) && now.Of(e.0) == before.Of(e.0)
      && Restored(engines, before, files, restorable[i..], now.With(e.0, PutBack(files, e)),
                  filesNow.With(e.0, Opened(engines, files, e)))
  {
    assert restorable[i..] == [restorable[i]] + restorable[i + 1..];
  }

  lemma NothingRestored(engines: Each<Engine>, before: Stores, files: Shelves)
    ensures Restored(engines, before, files, [], before, files)
  {
  }

  /** How a failure is answered: nothing is restored (1), all of the list is (8), or the restores stop at one (9). */
  ghost predicate Answered(engines: Each<Engine>, rollback: bool, event: RestoreEvent, before: Stores, files: Shelves,
                           restorable: seq<(Target, Name)>, code: int, after: Stores, filesAfter: Shelves) {
    if !rollback || restorable == [] then code == 1 && after == before && filesAfter == files
    else if forall e :: e in restorable ==> !Raises(engines, files, event, e)
    then code == 8 && Restored(engines, before, files, restorable, after, filesAfter)
    else code == 9 && StoppedMidway(engines, event, before, files, restorable, after, filesAfter)
  }

  ghost predicate StoppedMidway(engines: Each<Engine>, event: RestoreEvent, before: Stores, files: Shelves,
                                restorable: seq<(Target, Name)>, after: Stores, filesAfter: Shelves) {
    exists j :: 0 <= j < |restorable| && Interrupted(engines, event, before, files, restorable, j, after, filesAfter)
  }

  /** The restore at j is the first to raise; it leaves debris, or nothing if it was for want of the file. */
  ghost predicate Interrupted(engines: Each<Engine>, event: RestoreEvent, before: Stores, files: Shelves,
                              restorable: seq<(Target, Name)>, j: nat, after: Stores, filesAfter: Shelves)
    requires j < |restorable|
  {
    var t := restorable[j].0;
    && Raises(engines, files, event, restorable[j])
    && (forall e :: e in restorable[j + 1..] ==> !Raises(engines, files, event, e))
    && after.Of(t) == event.Leaves(t)
    && Restored(engines, before, files, restorable[j + 1..], after.With(t, before.Of(t)), filesAfter)
  }

  lemma StoppedSomewhere(engines: Each<Engine>, event: RestoreEvent, before: Stores, files: Shelves,
                         restorable: seq<(Target, Name)>, after: Stores, filesAfter: Shelves) returns (j: nat)
    requires StoppedMidway(engines, event, before, files, restorable, after, filesAfter)
    ensures j < |restorable| && Interrupted(engines, event, before, files, restorable, j, after, filesAfter)
  {
    j :| 0 <= j < |restorable| && Interrupted(engines, event, before, files, restorable, j, after, filesAfter);
  }

  lemma StoppedAt(engines: Each<Engine>, event: RestoreEvent, before: Stores, files: Shelves,
                  restorable: seq<(Target, Name)>, i: nat, now: Stores, filesNow: Shelves)
    requires i < |restorable| && Raises(engines, files, event, restorable[i])
    requires now.Of(restorable[i].0) == before.Of(restorable[i].0)
    requires forall e :: e in restorable[i + 1..] ==> !Raises(engines, files, event, e)
    requires Restored(engines, before, files, restorable[i + 1..], now, filesNow)
    ensures StoppedMidway(engines, event, before, files, restorable,
                          now.With(restorable[i].0, event.Leaves(restorable[i].0)), filesNow)
    ensures restorable[i] in restorable
  {
    var after := now.With(restorable[i].0, event.Leaves(restorable[i].0));
    SameOfAll(after.With(restorable[i].0, before.Of(restorable[i].0)), now);
    assert Interrupted(engines, event, before, files, restorable, i, after, filesNow);
  }

  lemma {:induction false} ListedIsMade(s: Start, k: nat)
    requires k <= 3
    ensures OncePerTarget(s.Listed(k))
    ensures forall t, n :: (t, n) in s.Listed(k) <==> s.HasBackup(t, k) && n == s.On(t).Made().value
  {
    if k > 0 {
      ListedIsMade(s, k - 1);
      forall t: Target ensures Position(t) == k - 1 <==> t == At(k - 1) {
      }
    }
  }

  lemma UpgradedStep(s: Start, k: nat)
    requires k < 3
    ensures s.Upgraded(k).Of(At(k)) == s.databases.Of(At(k))
    ensures s.Upgraded(k).With(At(k), s.On(At(k)).After()) == s.Upgraded(k + 1)
  {
    assert forall t: Target :: Position(t) == k <==> t == At(k);
  }

  lemma ShelvedTried(s: Start, now: Shelves, k: nat)
    requires k < 3 && s.Shelved(now, k, k)
    ensures s.Shelved(now.With(At(k), s.On(At(k)).Stored(now.Of(At(k)))), k, k + 1)
  {
    var next: Shelves := now.With(At(k), s.On(At(k)).Stored(now.Of(At(k))));
    forall u: Target ensures s.ShelvedAt(u, next.Of(u), k, k + 1) {
      assert s.ShelvedAt(u, now.Of(u), k, k);
      assert Position(u) == k <==> u == At(k);
    }
  }

  lemma ShelvedDone(s: Start, now: Shelves, next: Shelves, k: nat)
    requires k < 3 && s.Shelved(now, k, k + 1) && forall u: Target :: u != At(k) ==> next.Of(u) == now.Of(u)
    requires if s.On(At(k)).Made().None? then next.Of(At(k)) == now.Of(At(k))
             else exists removed :: Retained(now.Of(At(k)), s.policies.retention, next.Of(At(k)), removed)
    ensures s.Shelved(next, k + 1, k + 1)
  {
    forall u: Target ensures s.ShelvedAt(u, next.Of(u), k + 1, k + 1) {
      assert s.ShelvedAt(u, now.Of(u), k, k + 1);
      assert Position(u) == k <==> u == At(k);
    }
  }

  lemma ForgottenStep(before: Marks, now: Marks, t: Target)
    requires Forgotten(before, now, Position(t))
    ensures Forgotten(before, now - {t}, Position(t) + 1)
  {
  }

  lemma RecordedAfterForgetting(before: Marks, now: Marks, after: Marks, heads: Target -> string, t: Target)
    requires Forgotten(before, now, Position(t))
    requires after == now[t := Marker(heads(t), Attempts(now, t, heads(t)) + 1)]
    ensures FailureRecorded(before, after, heads, t)
  {
  }

  /** Whatever is still on file under the name of a backup of this run holds what its target held before the run. */
  lemma OnFileIsBefore(s: Start, now: Shelves, done: nat, tried: nat, t: Target)
    requires s.Shelved(now, done, tried) && s.HasBackup(t, tried) && s.On(t).Made().value in now.Of(t)
    ensures now.Of(t)[s.On(t).Made().value] == s.databases.Of(t)
  {
    assert s.ShelvedAt(t, now.Of(t), done, tried);
  }

  /** The backups to restore: those of the targets done, and that of the target that failed, if it has one. */
  function WithOwn(upgraded: seq<(Target, Name)>, t: Target, backup: Option<Name>): seq<(Target, Name)> {
    if backup.Some? then upgraded + [(t, backup.value)] else upgraded
  }

  /** The backups are listed in the order of the targets. */
  lemma {:induction false} ListedInOrder(s: Start, k: nat)
    requires k <= 3
    ensures forall i :: 0 <= i < |s.Listed(k)| ==> Position(s.Listed(k)[i].0) < k
    ensures forall i, j :: 0 <= i < j < |s.Listed(k)| ==> Position(s.Listed(k)[i].0) < Position(s.Listed(k)[j].0)
  {
    if k > 0 {
      ListedInOrder(s, k - 1);
    }
  }

  /** The list after a position holds the backups of the targets after its target. */
  lemma LaterInList(s: Start, k: nat, j: nat)
    requires k <= 3 && j < |s.Listed(k)|
    ensures s.HasBackup(s.Listed(k)[j].0, k) && s.Listed(k)[j].1 == s.On(s.Listed(k)[j].0).Made().value
    ensures forall t, n :: (t, n) in s.Listed(k)[j + 1..] <==>
      s.HasBackup(t, k) && n == s.On(t).Made().value && Position(t) > Position(s.Listed(k)[j].0)
  {
    ListedIsMade(s, k);
    ListedInOrder(s, k);
    var listed := s.Listed(k);
    hide Start.Listed;
    assert listed[j] == (listed[j].0, listed[j].1) && listed[j] in listed;
    forall t, n | (t, n) in listed && Position(t) > Position(listed[j].0) ensures (t, n) in listed[j + 1..] {
      var i :| 0 <= i < |listed| && listed[i] == (t, n);
      assert i > j && listed[j + 1..][i - j - 1] == (t, n);
    }
  }

  /** The list of backups to restore, read as a property of targets. */
  lemma RestorableIsListed(s: Start, restore: RestoreEvent, kept: Shelves, k: nat)
    requires k <= 3
    ensures s.Listed(k) == [] <==> s.NoBackup(k)
    ensures (forall e :: e in s.Listed(k) ==> !Raises(s.engines, kept, restore, e))
      <==> !s.SomeRaises(kept, restore, k)
  {
    ListedIsMade(s, k);
    forall u | s.HasBackup(u, k) ensures (u, s.On(u).Made().value) in s.Listed(k) {
    }
    if s.Listed(k) != [] {
      assert s.Listed(k)[0] == (s.Listed(k)[0].0, s.Listed(k)[0].1) && s.Listed(k)[0] in s.Listed(k);
    }
    if !s.SomeRaises(kept, restore, k) {
      forall e | e in s.Listed(k) ensures !Raises(s.engines, kept, restore, e) {
        assert e == (e.0, e.1) && !s.RestoreRaises(e.0, kept, restore, k);
      }
    }
    forall u | s.RestoreRaises(u, kept, restore, k)
      ensures Raises(s.engines, kept, restore, (u, s.On(u).Made().value))
    {
    }
  }

  /** Restoring the part of the list that belongs to the targets from a position on. */
  lemma RestoredIsRolledBack(s: Start, kept: Shelves, from: nat, k: nat, part: seq<(Target, Name)>, now: Stores,
                             filesNow: Shelves)
    requires 0 < k <= 3 && s.Shelved(kept, k - 1, k)
    requires Restored(s.engines, s.Upgraded(k), kept, part, now, filesNow)
    requires forall t, n :: (t, n) in part <==> s.HasBackup(t, k) && n == s.On(t).Made().value && Position(t) >= from
    ensures now == s.RolledBack(kept, from, k) && filesNow == s.Reopened(kept, from, k)
  {
    hide Start.Shelved, Start.Upgraded, Start.On, Position, Attempt.Made, Start.HasBackup;
    forall u
      ensures now.Of(u) == s.RolledBack(kept, from, k).Of(u) && filesNow.Of(u) == s.Reopened(kept, from, k).Of(u)
    {
      RestoredAt(s, kept, from, k, part, now, filesNow, u);
    }
    SameOfAll(now, s.RolledBack(kept, from, k));
    SameOfAll(filesNow, s.Reopened(kept, from, k));
  }

  lemma RestoredAt(s: Start, kept: Shelves, from: nat, k: nat, part: seq<(Target, Name)>, now: Stores,
                   filesNow: Shelves, u: Target)
    requires 0 < k <= 3 && s.Shelved(kept, k - 1, k)
    requires Restored(s.engines, s.Upgraded(k), kept, part, now, filesNow)
    requires forall t, n :: (t, n) in part <==> s.HasBackup(t, k) && n == s.On(t).Made().value && Position(t) >= from
    ensures now.Of(u) == s.RolledBack(kept, from, k).Of(u) && filesNow.Of(u) == s.Reopened(kept, from, k).Of(u)
  {
    hide Start.Shelved, Start.Upgraded, Start.On, Position, Attempt.Made;
    if s.HasBackup(u, k) && Position(u) >= from {
      assert (u, s.On(u).Made().value) in part;
      if s.OnFile(u, kept) {
        OnFileIsBefore(s, kept, k - 1, k, u);
      }
    } else {
      forall e | e in part ensures e.0 != u {
        assert e == (e.0, e.1);
      }
    }
  }

  /** Where the restores stop is the first target to raise. */
  lemma InterruptedIsHalf(s: Start, kept: Shelves, k: nat, restore: RestoreEvent, j: nat, after: Stores,
                          filesAfter: Shelves, u: Target)
    requires 0 < k <= 3 && s.Shelved(kept, k - 1, k) && j < |s.Listed(k)|
    requires Interrupted(s.engines, restore, s.Upgraded(k), kept, s.Listed(k), j, after, filesAfter)
    requires s.FirstToRaise(u, kept, restore, k)
    ensures after == s.RolledBack(kept, Position(u) + 1, k).With(u, restore.Leaves(u))
    ensures filesAfter == s.Reopened(kept, Position(u) + 1, k)
  {
    FirstIsAt(s, kept, k, restore, j, after, filesAfter, u);
    LaterInList(s, k, j);
    hide Start.Shelved, Start.Listed, Start.Upgraded, Start.On, Position, Attempt.Made, Start.FirstToRaise;
    RestoredIsRolledBack(s, kept, Position(u) + 1, k, s.Listed(k)[j + 1..], after.With(u, s.Upgraded(k).Of(u)),
                         filesAfter);
    SameOfAll(after, s.RolledBack(kept, Position(u) + 1, k).With(u, after.Of(u)));
  }

  lemma FirstIsAt(s: Start, kept: Shelves, k: nat, restore: RestoreEvent, j: nat, after: Stores, filesAfter: Shelves,
                  u: Target)
    requires k <= 3 && j < |s.Listed(k)|
    requires Interrupted(s.engines, restore, s.Upgraded(k), kept, s.Listed(k), j, after, filesAfter)
    requires s.FirstToRaise(u, kept, restore, k)
    ensures s.Listed(k)[j].0 == u
  {
    var t := s.Listed(k)[j].0;
    LaterInList(s, k, j);
    hide Start.Listed, Start.Upgraded, Start.On, Attempt.Made, Restored;
    assert s.RestoreRaises(t, kept, restore, k);
    assert Raises(s.engines, kept, restore, (u, s.On(u).Made().value));
    assert (u, s.On(u).Made().value) !in s.Listed(k)[j + 1..];
    SamePosition(t, u);
  }

  lemma SamePosition(t: Target, u: Target)
    ensures Position(t) == Position(u) <==> t == u
  {
  }

  lemma CodeFits(s: Start, restore: RestoreEvent, code: int, kept: Shelves, k: nat, after: Stores, filesAfter: Shelves)
    requires k <= 3 && (s.Listed(k) == [] <==> s.NoBackup(k))
    requires Answered(s.engines, s.policies.rollback, restore, s.Upgraded(k), kept, s.Listed(k), code,
                      after, filesAfter)
    requires (forall e :: e in s.Listed(k) ==> !Raises(s.engines, kept, restore, e))
      <==> !s.SomeRaises(kept, restore, k)
    ensures code == 1 <==> !s.policies.rollback || s.NoBackup(k)
    ensures code == 1 ==> after == s.Upgraded(k) && filesAfter == kept
    ensures code != 1 ==> code == if s.SomeRaises(kept, restore, k) then 9 else 8
    ensures code == 8 ==> Restored(s.engines, s.Upgraded(k), kept, s.Listed(k), after, filesAfter)
    ensures code == 9 ==> StoppedMidway(s.engines, restore, s.Upgraded(k), kept, s.Listed(k), after, filesAfter)
  {
    hide Start.Listed, Start.NoBackup, Start.SomeRaises, Start.Upgraded, Restored, StoppedMidway, Raises;
  }

  lemma AnsweredMeansFailed(s: Start, t: Target, restore: RestoreEvent, code: int, kept: Shelves, now: Marks,
                            after: Stores, filesAfter: Shelves, marks: Marks)
    requires s.Shelved(kept, Position(t), Position(t) + 1)
    requires Forgotten(s.markers, now, Position(t))
    requires marks == now[t := Marker(s.heads(t), Attempts(now, t, s.heads(t)) + 1)]
    requires Answered(s.engines, s.policies.rollback, restore, s.Upgraded(Position(t) + 1), kept,
                      s.Listed(Position(t) + 1), code, after, filesAfter)
    ensures s.FailedAs(t, restore, code, kept, after, filesAfter, marks)
  {
    var k := Position(t) + 1;
    hide *;
    RecordedAfterForgetting(s.markers, now, marks, s.heads, t);
    RestorableIsListed(s, restore, kept, k);
    CodeFits(s, restore, code, kept, k, after, filesAfter);
    if code == 8 {
      ListedFromStart(s, k);
      RestoredIsRolledBack(s, kept, 0, k, s.Listed(k), after, filesAfter);
    } else if code == 9 {
      var j := StoppedSomewhere(s.engines, restore, s.Upgraded(k), kept, s.Listed(k), after, filesAfter);
      forall u | s.FirstToRaise(u, kept, restore, k)
        ensures after == s.RolledBack(kept, Position(u) + 1, k).With(u, restore.Leaves(u))
        ensures filesAfter == s.Reopened(kept, Position(u) + 1, k)
      {
        InterruptedIsHalf(s, kept, k, restore, j, after, filesAfter, u);
      }
    }
    FailureEnds(s, t, restore, code, kept, after, filesAfter, marks);
  }

  lemma ListedFromStart(s: Start, k: nat)
    requires k <= 3
    ensures forall t, n :: (t, n) in s.Listed(k) <==> s.HasBackup(t, k) && n == s.On(t).Made().value && Position(t) >= 0
  {
    ListedIsMade(s, k);
  }

  lemma FailureEnds(s: Start, t: Target, restore: RestoreEvent, code: int, kept: Shelves, after: Stores,
                    filesAfter: Shelves, marks: Marks)
    requires s.Shelved(kept, Position(t), Position(t) + 1) && FailureRecorded(s.markers, marks, s.heads, t)
    requires code == 1 <==> !s.policies.rollback || s.NoBackup(Position(t) + 1)
    requires code == 1 ==> after == s.Upgraded(Position(t) + 1) && filesAfter == kept
    requires code != 1 ==> code == if s.SomeRaises(kept, restore, Position(t) + 1) then 9 else 8
    requires code == 8 ==>
      after == s.RolledBack(kept, 0, Position(t) + 1) && filesAfter == s.Reopened(kept, 0, Position(t) + 1)
    requires code == 9 ==> forall u :: s.FirstToRaise(u, kept, restore, Position(t) + 1) ==>
      after == s.RolledBack(kept, Position(u) + 1, Position(t) + 1).With(u, restore.Leaves(u))
      && filesAfter == s.Reopened(kept, Position(u) + 1, Position(t) + 1)
    ensures s.FailedAs(t, restore, code, kept, after, filesAfter, marks)
  {
  }

  /** What the attempt on target k will lead to. */
  lemma BeforeAttempt(s: Start, databases: Stores, backups: Shelves, markers: Marks, upgraded: seq<(Target, Name)>,
                      k: nat)
    requires k < 3 && s.Underway(databases, backups, markers, upgraded, k)
    ensures var t := At(k);
      && Position(t) == k && Forgotten(s.markers, markers, k)
      && Attempt(s.policies.mode, s.heads(t), databases.Of(t), s.events(t)) == s.On(t)
      && databases.With(t, s.On(t).After()) == s.Upgraded(k + 1)
      && s.Shelved(backups.With(t, s.On(t).Stored(backups.Of(t))), k, k + 1)
      && WithOwn(upgraded, t, s.On(t).Made()) == s.Listed(k + 1) && OncePerTarget(s.Listed(k + 1))
      && (!s.On(t).Succeeds() ==> s.StopsAt(t))
      && forall u :: Position(u) < k ==> s.On(u).Succeeds()
  {
    UpgradedStep(s, k);
    ShelvedTried(s, backups, k);
    ListedIsMade(s, k + 1);
  }

  lemma CrashEnds(s: Start, t: Target, databases: Stores, backups: Shelves, markers: Marks)
    requires databases == s.Upgraded(Position(t) + 1) && s.Shelved(backups, Position(t), Position(t) + 1)
    requires Forgotten(s.markers, markers, Position(t))
    ensures s.CrashedAs(t, 1, databases, backups, markers)
  {
  }

  lemma Beginning(s: Start)
    ensures s.Underway(s.databases, s.backups, s.markers, [], 0)
  {
    assert s.databases == s.Upgraded(0);
  }

  lemma Ending(s: Start, databases: Stores, backups: Shelves, markers: Marks, upgraded: seq<(Target, Name)>,
               closing: Closing)
    requires s.Underway(databases, backups, markers, upgraded, 3)
    ensures s.Completes()
    ensures s.CompletedAs(closing, if closing.Raises() then 1 else 0,
                          databases.With(Main, closing.Leaves(databases.Of(Main))), backups, markers)
  {
    UpgradedAll(s);
    hide Start.Upgraded, Start.Shelved, Start.Listed, Closing.Raises, Closing.Leaves, Attempt.Succeeds, Attempt.After;
    assert markers == map[];
  }

  lemma AfterSuccess(s: Start, databases: Stores, backups: Shelves, markers: Marks, k: nat)
    requires k < 3 && databases == s.Upgraded(k + 1) && s.Shelved(backups, k + 1, k + 1)
      && Forgotten(s.markers, markers, k + 1)
    requires s.On(At(k)).Succeeds() && forall u :: Position(u) < k ==> s.On(u).Succeeds()
    ensures s.Underway(databases, backups, markers, s.Listed(k + 1), k + 1)
  {
    assert forall u: Target :: Position(u) == k <==> u == At(k);
  }

  lemma UpgradedAll(s: Start)
    ensures s.Upgraded(3).Of(Main) == s.On(Main).After()
  {
  }

  // ---- what a run promises ----

  /** While there is room for them, the backups of a run are on file when it fails. */
  lemma RoomyKeepsBackups(s: Start, kept: Shelves, t: Target)
    requires s.Roomy() && s.Shelved(kept, Position(t), Position(t) + 1)
    ensures s.AllOnFile(kept, Position(t) + 1)
  {
    var k := Position(t) + 1;
    forall u | s.HasBackup(u, k) ensures s.OnFile(u, kept) {
      assert s.ShelvedAt(u, kept.Of(u), k - 1, k);
      if Position(u) < k - 1 {
        var stored, name := s.On(u).Stored(s.backups.Of(u)), s.On(u).Made().value;
        var removed :| Retained(stored, s.policies.retention, kept.Of(u), removed);
        assert NotOlder(stored, name) == NotOlder(s.backups.Of(u), name);
        SurvivesWithRoom(stored, s.policies.retention, kept.Of(u), removed, name);
      }
    }
  }

  /** With room for the backups, a failed run ends in code 8 unless there is nothing to restore or a restore raises. */
  lemma RollbackCompletes(s: Start, t: Target, restore: RestoreEvent, code: int, kept: Shelves, after: Stores,
                          files: Shelves, marks: Marks)
    requires s.Roomy() && s.FailedAs(t, restore, code, kept, after, files, marks)
    ensures code == 8 <==>
      s.policies.rollback && !s.NoBackup(Position(t) + 1)
      && forall u :: s.HasBackup(u, Position(t) + 1) ==> !restore.Hits(u)
  {
    var k := Position(t) + 1;
    RoomyKeepsBackups(s, kept, t);
    hide Start.Roomy, Start.Shelved, Start.Upgraded, Start.RolledBack, Start.Reopened, Start.OnFile, Start.HasBackup;
    hide Start.NoBackup, FailureRecorded;
    forall u ensures s.RestoreRaises(u, kept, restore, k) <==> s.HasBackup(u, k) && restore.Hits(u) {
    }
  }

  /**
   * What code 8 means for one target: empty if its backup is gone, else what it held, or what its upgrade made of
   * nothing.
   */
  ghost predicate RolledBackAt(s: Start, t: Target, kept: Shelves, after: Stores, u: Target) {
    if s.HasBackup(u, Position(t) + 1) && !s.OnFile(u, kept)
    then s.engines.Of(u) == Sqlite && after.Of(u) == Empty && !Fresh(s.databases.Of(u))
    else if Position(u) <= Position(t) && Fresh(s.databases.Of(u)) then after.Of(u) == s.On(u).After()
    else after.Of(u) == s.databases.Of(u)
  }

  /**
   * Code 8 puts every target that was not fresh back to what it held if and only if all backups of the run are still on
   * file. It undoes the whole run if and only if, besides, no fresh target was changed.
   */
  lemma RolledBack(s: Start, t: Target, restore: RestoreEvent, kept: Shelves, after: Stores, files: Shelves,
                   marks: Marks)
    requires s.FailedAs(t, restore, 8, kept, after, files, marks)
    ensures forall u :: RolledBackAt(s, t, kept, after, u)
    ensures (forall u :: !Fresh(s.databases.Of(u)) ==> after.Of(u) == s.databases.Of(u))
      <==> s.AllOnFile(kept, Position(t) + 1)
    ensures after == s.databases <==>
      s.AllOnFile(kept, Position(t) + 1)
      && forall u :: Position(u) <= Position(t) && Fresh(s.databases.Of(u)) ==> s.On(u).After() == s.databases.Of(u)
  {
    hide *;
    SomeBackup(s, t, restore, kept, after, files, marks);
    forall u ensures RolledBackAt(s, t, kept, after, u) {
      OneRolledBack(s, t, restore, kept, after, u);
    }
    FilesDecide(s, t, kept, after);
    FreshDecide(s, t, kept, after);
  }

  lemma FilesDecide(s: Start, t: Target, kept: Shelves, after: Stores)
    requires forall u :: RolledBackAt(s, t, kept, after, u)
    ensures (forall u :: !Fresh(s.databases.Of(u)) ==> after.Of(u) == s.databases.Of(u))
      <==> s.AllOnFile(kept, Position(t) + 1)
  {
    hide Start.HasBackup, Start.OnFile, Start.On, Attempt.After;
    if u :| s.HasBackup(u, Position(t) + 1) && !s.OnFile(u, kept) {
      assert RolledBackAt(s, t, kept, after, u);
    } else {
      forall u | !Fresh(s.databases.Of(u)) ensures after.Of(u) == s.databases.Of(u) {
        assert RolledBackAt(s, t, kept, after, u);
      }
    }
  }

  lemma FreshDecide(s: Start, t: Target, kept: Shelves, after: Stores)
    requires forall u :: RolledBackAt(s, t, kept, after, u)
    ensures after == s.databases <==>
      s.AllOnFile(kept, Position(t) + 1)
      && forall u :: Position(u) <= Position(t) && Fresh(s.databases.Of(u)) ==> s.On(u).After() == s.databases.Of(u)
  {
    FilesDecide(s, t, kept, after);
    BackedUpIsNotFresh(s, t);
    hide Start.HasBackup, Start.OnFile, Start.On, Attempt.After, Fresh;
    if after == s.databases {
      forall u | Position(u) <= Position(t) && Fresh(s.databases.Of(u)) ensures s.On(u).After() == s.databases.Of(u) {
        assert RolledBackAt(s, t, kept, after, u);
      }
    } else if s.AllOnFile(kept, Position(t) + 1) {
      if forall u :: after.Of(u) == s.databases.Of(u) {
        SameOfAll(after, s.databases);
      }
      var u :| after.Of(u) != s.databases.Of(u);
      assert RolledBackAt(s, t, kept, after, u);
    }
  }

  lemma BackedUpIsNotFresh(s: Start, t: Target)
    ensures forall u :: s.HasBackup(u, Position(t) + 1) ==> !Fresh(s.databases.Of(u))
  {
  }

  lemma SomeBackup(s: Start, t: Target, restore: RestoreEvent, kept: Shelves, after: Stores, files: Shelves,
                   marks: Marks)
    requires s.FailedAs(t, restore, 8, kept, after, files, marks)
    ensures s.policies.mode != Off && !s.SomeRaises(kept, restore, Position(t) + 1)
    ensures after == s.RolledBack(kept, 0, Position(t) + 1)
  {
    hide Start.Shelved, FailureRecorded, Start.Reopened, Start.RolledBack, Start.Upgraded, Start.SomeRaises;
    var v :| Position(v) < Position(t) + 1 && s.On(v).Made().Some?;
  }

  lemma OneRolledBack(s: Start, t: Target, restore: RestoreEvent, kept: Shelves, after: Stores, u: Target)
    requires s.policies.mode != Off && !s.SomeRaises(kept, restore, Position(t) + 1)
    requires after == s.RolledBack(kept, 0, Position(t) + 1)
    ensures RolledBackAt(s, t, kept, after, u)
  {
    assert !s.RestoreRaises(u, kept, restore, Position(t) + 1);
  }

  /** As many newer backups are on file as are kept, which takes a clock set back: the backup of u is thinned away. */
  ghost predicate Crowded(s: Start, u: Target) {
    && s.On(u).Made().Some?
    && |NotOlder(s.backups.Of(u), s.On(u).Made().value)| >= s.policies.retention
    && forall n :: n in NotOlder(s.backups.Of(u), s.On(u).Made().value) ==> n.timestamp > s.On(u).Made().value.timestamp
  }

  /**
   * A target whose backup was thinned away ends empty as soon as the rollback gets to it; on SQLite the run goes on and
   * can end in code 8, elsewhere it ends in code 9.
   */
  lemma CrowdedOut(s: Start, t: Target, u: Target, restore: RestoreEvent, code: int, kept: Shelves, after: Stores,
                   files: Shelves, marks: Marks)
    requires s.FailedAs(t, restore, code, kept, after, files, marks) && s.policies.rollback
    requires Position(u) < Position(t) && Crowded(s, u)
    ensures s.engines.Of(u) != Sqlite ==> code == 9
    ensures restore == AllRestored && (forall v :: s.engines.Of(v) == Sqlite) ==> code == 8
    ensures (forall v :: s.RestoreRaises(v, kept, restore, Position(t) + 1) ==> Position(v) <= Position(u))
            && !restore.Hits(u) ==>
      after.Of(u) == Empty
  {
    hide *;
    CrowdedIsGone(s, t, u, restore, code, kept, after, files, marks);
    CodesOf(s, t, u, restore, code, kept, after, files, marks);
    GoneIsEmptied(s, t, u, restore, code, kept, after, files, marks);
  }

  lemma GoneIsEmptied(s: Start, t: Target, u: Target, restore: RestoreEvent, code: int, kept: Shelves, after: Stores,
                      files: Shelves, marks: Marks)
    requires s.FailedAs(t, restore, code, kept, after, files, marks)
    requires s.HasBackup(u, Position(t) + 1) && !s.OnFile(u, kept)
    requires code == if s.SomeRaises(kept, restore, Position(t) + 1) then 9 else 8
    ensures (forall v :: s.RestoreRaises(v, kept, restore, Position(t) + 1) ==> Position(v) <= Position(u))
            && !restore.Hits(u) ==>
      after.Of(u) == Empty
  {
    var k := Position(t) + 1;
    hide Start.Shelved, FailureRecorded, Start.Reopened, Start.Upgraded, Start.On, Attempt.Made, Start.SomeRaises;
    hide Start.HasBackup, Start.OnFile;
    if code == 9 {
      var w := LastRaising(s, kept, restore, k);
      assert after == s.RolledBack(kept, Position(w) + 1, k).With(w, restore.Leaves(w));
      SamePosition(w, u);
    }
  }

  lemma CodesOf(s: Start, t: Target, u: Target, restore: RestoreEvent, code: int, kept: Shelves, after: Stores,
                files: Shelves, marks: Marks)
    requires s.FailedAs(t, restore, code, kept, after, files, marks) && s.policies.rollback
    requires s.HasBackup(u, Position(t) + 1) && !s.OnFile(u, kept)
    ensures code == if s.SomeRaises(kept, restore, Position(t) + 1) then 9 else 8
    ensures s.engines.Of(u) != Sqlite ==> code == 9
    ensures restore == AllRestored && (forall v :: s.engines.Of(v) == Sqlite) ==> code == 8
  {
    hide Start.Shelved, FailureRecorded, Start.Reopened, Start.Upgraded, Start.RolledBack, Start.FirstToRaise;
    assert !s.NoBackup(Position(t) + 1);
    assert s.engines.Of(u) != Sqlite ==> s.RestoreRaises(u, kept, restore, Position(t) + 1);
  }

  lemma CrowdedIsGone(s: Start, t: Target, u: Target, restore: RestoreEvent, code: int, kept: Shelves, after: Stores,
                      files: Shelves, marks: Marks)
    requires Position(u) < Position(t) && Crowded(s, u) && s.FailedAs(t, restore, code, kept, after, files, marks)
    ensures s.HasBackup(u, Position(t) + 1) && !s.OnFile(u, kept)
  {
    var stored, name := s.On(u).Stored(s.backups.Of(u)), s.On(u).Made().value;
    assert s.ShelvedAt(u, kept.Of(u), Position(t), Position(t) + 1);
    var removed :| Retained(stored, s.policies.retention, kept.Of(u), removed);
    assert NotOlder(stored, name) == NotOlder(s.backups.Of(u), name);
    SurvivesWithRoom(stored, s.policies.retention, kept.Of(u), removed, name);
  }

  lemma LastRaising(s: Start, kept: Shelves, restore: RestoreEvent, k: nat) returns (u: Target)
    requires s.SomeRaises(kept, restore, k)
    ensures s.FirstToRaise(u, kept, restore, k)
  {
    hide Start.RestoreRaises;
    u := if s.RestoreRaises(Usm, kept, restore, k) then Usm
         else if s.RestoreRaises(Audit, kept, restore, k) then Audit else Main;
    forall v | s.RestoreRaises(v, kept, restore, k)
      ensures Position(v) <= Position(u) && s.RestoreRaises(u, kept, restore, k)
    {
      match v case Main => case Audit => case Usm =>
    }
  }

  /** The host: three databases, their backup directories and failure markers. */
  class Host {
    const engines: Each<Engine>
    var databases: Stores
    var backups: Shelves
    var markers: Marks

    constructor (engines: Each<Engine>, databases: Stores, backups: Shelves, markers: Marks)
      ensures this.engines == engines && this.databases == databases && this.backups == backups
        && this.markers == markers
    {
      this.engines, this.databases, this.backups, this.markers := engines, databases, backups, markers;
    }

    method BootstrapTarget(t: Target, head: string, policies: Policies, event: Event) returns (r: TargetResult)
      modifies `databases, `backups
      ensures var a := Attempt(policies.mode, head, old(databases).Of(t), event);
        && (r.Ready? <==> a.Succeeds())
        && (r.Failure? <==> a.Fails())
        && (!r.Crashed? ==> r.backup == a.Made())
        && databases == old(databases).With(t, a.After())
        && backups == old(backups).With(t, a.Stored(old(backups).Of(t)))
    {
      if !event.reachable {
        return Crashed;
      }
      var before := databases.Of(t);
      if !Pending(before, head) {
        match event.verify
        case Passed => return Ready(None);
        case Rejected => return Failure(None);
        case VerifyRaised => return Crashed;
      }
      var backup: Option<Name> := None;
      if !Fresh(before) && policies.mode != Off {
        match event.backup
        case BackedUp =>
          var name := Name(event.now, Current(before), head);
          backups := backups.With(t, backups.Of(t)[name := before]);
          backup := Some(name);
        case BackupRefused =>
          if policies.mode == Required {
            return Failure(None);
          }
          // The warning goes to a logger method that does not exist, so best-effort ends here too.
          return Crashed;
        case BackupRaised(left) =>
          if left.Some? {
            backups := backups.With(t, backups.Of(t)[Name(event.now, Current(before), head) := left.value]);
          }
          return Crashed;
      }
      databases := databases.With(t, event.after);
      if !event.upgradeDone {
        return Failure(backup);
      }
      match event.verify
      case Passed => r := Ready(backup);
      case Rejected => r := Failure(backup);
      case VerifyRaised => r := Crashed;
    }

    method RecordFailure(t: Target, head: string)
      modifies `markers
      ensures markers == old(markers)[t := Marker(head, Attempts(old(markers), t, head) + 1)]
    {
      var attempts := 1;
      if t in markers && markers[t].head == head {
        attempts := markers[t].attempts + 1;
      }
      markers := markers[t := Marker(head, attempts)];
    }

    /** Restores in reverse order of upgrading; each empties its target before it looks for the file. */
    method Restore(restorable: seq<(Target, Name)>, event: RestoreEvent) returns (ok: bool)
      requires OncePerTarget(restorable)
      modifies `databases, `backups
      ensures ok <==> forall e :: e in restorable ==> !Raises(engines, old(backups), event, e)
      ensures ok ==> Restored(engines, old(databases), old(backups), restorable, databases, backups)
      ensures !ok ==> StoppedMidway(engines, event, old(databases), old(backups), restorable, databases, backups)
    {
      hide Restored;
      var i := |restorable|;
      NothingRestored(engines, databases, backups);
      assert restorable[i..] == [];
      while i > 0
        invariant 0 <= i <= |restorable|
        invariant forall e :: e in restorable[i..] ==> !Raises(engines, old(backups), event, e)
        invariant Restored(engines, old(databases), old(backups), restorable[i..], databases, backups)
      {
        RestoredStep(engines, old(databases), old(backups), restorable, databases, backups, i - 1);
        i := i - 1;
        assert restorable[i..] == [restorable[i]] + restorable[i + 1..];
        var (t, name) := restorable[i];
        if event.Hits(t) {
          StoppedAt(engines, event, old(databases), old(backups), restorable, i, databases, backups);
          databases := databases.With(t, event.debris);
          return false;
        }
        var found := name in backups.Of(t);
        ghost var soFar := databases;
        databases := databases.With(t, if found then backups.Of(t)[name] else Empty);
        if !found {
          if engines.Of(t) != Sqlite {
            StoppedAt(engines, event, old(databases), old(backups), restorable, i, soFar, backups);
            return false;
          }
          backups := backups.With(t, backups.Of(t)[name := Empty]);
        }
      }
      assert restorable[0..] == restorable;
      ok := true;
    }

    /** Abort or roll back, record the failure either way, and choose the exit code. */
    method HandleFailure(t: Target, head: string, upgraded: seq<(Target, Name)>, backup: Option<Name>,
                         policies: Policies, event: RestoreEvent)
      returns (code: int)
      requires OncePerTarget(WithOwn(upgraded, t, backup))
      modifies `databases, `backups, `markers
      ensures markers == old(markers)[t := Marker(head, Attempts(old(markers), t, head) + 1)]
      ensures code in {1, 8, 9}
      ensures Answered(engines, policies.rollback, event, old(databases), old(backups),
                       WithOwn(upgraded, t, backup), code, databases, backups)
    {
      var restorable := WithOwn(upgraded, t, backup);
      if !policies.rollback || restorable == [] {
        RecordFailure(t, head);
        return 1;
      }
      var ok := Restore(restorable, event);
      RecordFailure(t, head);
      code := if ok then 8 else 9;
    }

    /** After a target is up: forget its failures and thin out its backups. */
    method Settle(t: Target, backup: Option<Name>, retention: nat)
      modifies `backups, `markers
      ensures markers == old(markers) - {t}
      ensures forall u: Target :: u != t ==> backups.Of(u) == old(backups).Of(u)
      ensures if backup.None? then backups.Of(t) == old(backups).Of(t)
              else exists removed :: Retained(old(backups).Of(t), retention, backups.Of(t), removed)
    {
      markers := markers - {t};
      if backup.Some? {
        var kept, _ := ApplyRetention(backups.Of(t), retention);
        backups := backups.With(t, kept);
      }
    }

    /** The loop body: one target, and what its outcome means for the run. */
    method Next(policies: Policies, heads: Target -> string, events: Target -> Event, restore: RestoreEvent,
                upgraded: seq<(Target, Name)>, k: nat, ghost s: Start)
      returns (done: bool, code: int, ghost failed: Option<Target>, ghost kept: Shelves, longer: seq<(Target, Name)>)
      requires k < 3 && s.policies == policies && s.engines == engines && s.heads == heads && s.events == events
      requires s.Underway(databases, backups, markers, upgraded, k)
      modifies this
      ensures done ==>
        failed == None && s.On(At(k)).Succeeds() && s.Underway(databases, backups, markers, longer, k + 1)
      ensures !done ==> code in {1, 8, 9} && s.StopsAt(At(k))
      ensures !done && !s.On(At(k)).Fails() ==> failed == None && s.CrashedAs(At(k), code, databases, backups, markers)
      ensures !done && s.On(At(k)).Fails() ==>
        failed == Some(At(k)) && s.FailedAs(At(k), restore, code, kept, databases, backups, markers)
    {
      hide *;
      done, code, failed, kept, longer := false, 1, None, backups, upgraded;
      var t := At(k);
      BeforeAttempt(s, databases, backups, markers, upgraded, k);
      var result := BootstrapTarget(t, heads(t), policies, events(t));
      match result
      case Crashed =>
        CrashEnds(s, t, databases, backups, markers);
      case Failure(backup) =>
        kept := backups;
        ghost var now := markers;
        code := HandleFailure(t, heads(t), upgraded, backup, policies, restore);
        AnsweredMeansFailed(s, t, restore, code, kept, now, databases, backups, markers);
        failed := Some(t);
      case Ready(backup) =>
        longer := WithOwn(upgraded, t, backup);
        ghost var made, now := backups, markers;
        Settle(t, backup, policies.retention);
        ShelvedDone(s, made, backups, k);
        ForgottenStep(s.markers, now, t);
        AfterSuccess(s, databases, backups, markers, k);
        done := true;
    }

    /**
     * One start-up. `failed` is the target whose failure was handled, if any; an exception that is not such a failure
     * ends the run with code 1, unrecorded and without a rollback. `kept` are the backups before a rollback.
     */
    method Run(policies: Policies, heads: Target -> string, events: Target -> Event, restore: RestoreEvent,
               closing: Closing)
      returns (code: int, ghost failed: Option<Target>, ghost kept: Shelves, ghost s: Start)
      requires policies.retention >= 1 && policies.maxAttempts >= 1
      modifies this
      ensures s == old(Start(policies, engines, heads, events, databases, backups, markers))
      ensures code == 10 <==> Refused(s.markers, heads, policies.maxAttempts)
      ensures code == 10 ==> failed == None && databases == s.databases && backups == s.backups && markers == s.markers
      ensures code != 10 && s.Completes() ==>
        failed == None && s.CompletedAs(closing, code, databases, backups, markers)
      ensures code != 10 ==> forall t :: s.StopsAt(t) && !s.On(t).Fails() ==>
        failed == None && s.CrashedAs(t, code, databases, backups, markers)
      ensures code != 10 ==> forall t :: s.StopsAt(t) && s.On(t).Fails() ==>
        failed == Some(t) && s.FailedAs(t, restore, code, kept, databases, backups, markers)
    {
      hide *;
      failed, kept := None, backups;
      s := Start(policies, engines, heads, events, databases, backups, markers);
      var refused := Refused(markers, heads, policies.maxAttempts);
      if refused {
        code := 10;
        return;
      }
      var upgraded: seq<(Target, Name)> := [];
      var k := 0;
      Beginning(s);
      OneEnding(s);
      while k < 3
        invariant 0 <= k <= 3 && failed == None && s.Underway(databases, backups, markers, upgraded, k)
      {
        var done;
        done, code, failed, kept, upgraded := Next(policies, heads, events, restore, upgraded, k, s);
        if !done {
          return;
        }
        k := k + 1;
      }
      Ending(s, databases, backups, markers, upgraded, closing);
      databases := databases.With(Main, closing.Leaves(databases.Of(Main)));
      code := if closing.Raises() then 1 else 0;
    }
  }

  /**
   * A newer backup on disk, as many kept: main is upgraded, its backup thinned away, and the audit database fails. The
   * rollback of the three SQLite files ends in code 8, with main empty.
   */
  method RollbackEmptiesMain(data: int) returns (host: Host, code: int)
    ensures code == 8 && host.databases.Of(Main) == Empty
  {
    hide *;
    var newer := Name(5, None, "old");
    host := new Host(Each(Sqlite, Sqlite, Sqlite), Each(Managed("old", data), Managed("new", 0), Managed("new", 0)),
                     Each(map[newer := Empty], map[], map[]), map[]);
    var events := u => Event(true, 0, BackedUp, Managed("new", data), true, if u == Audit then Rejected else Passed);
    ghost var failed, kept, s;
    code, failed, kept, s := host.Run(Policies(Required, 1, true, 3), _ => "new", events, AllRestored, SeedSkipped);
    assert code != 10 by { NothingRefused(s.heads, 3); }
    MainUpAuditFails(s, data);
    OnlyNewer(s, newer);
    MainEndsEmpty(s, code, kept, host.databases, host.backups, host.markers);
  }

  lemma NothingRefused(heads: Target -> string, limit: nat)
    ensures !Refused(map[], heads, limit)
  {
  }

  lemma MainEndsEmpty(s: Start, code: int, kept: Shelves, after: Stores, files: Shelves, marks: Marks)
    requires s.FailedAs(Audit, AllRestored, code, kept, after, files, marks) && s.policies.rollback
    requires Crowded(s, Main) && s.engines == Each(Sqlite, Sqlite, Sqlite)
    ensures code == 8 && after.Of(Main) == Empty
  {
    hide Start.FailedAs, Crowded, Start.OnFile, Start.HasBackup;
    CrowdedOut(s, Audit, Main, AllRestored, code, kept, after, files, marks);
  }

  lemma MainUpAuditFails(s: Start, data: int)
    requires s.policies.mode == Required && forall u :: s.heads(u) == "new"
    requires s.databases == Each(Managed("old", data), Managed("new", 0), Managed("new", 0))
    requires forall u ::
      s.events(u) == Event(true, 0, BackedUp, Managed("new", data), true, if u == Audit then Rejected else Passed)
    ensures s.StopsAt(Audit) && s.On(Audit).Fails()
    ensures s.On(Main).Made() == Some(Name(0, Some("old"), "new"))
  {
  }

  lemma OnlyNewer(s: Start, newer: Name)
    requires s.policies.retention == 1 && newer.timestamp > s.events(Main).now
    requires s.backups.main.Keys == {newer} && s.On(Main).Made().Some?
    ensures Crowded(s, Main)
  {
    var name := s.On(Main).Made().value;
    assert NotOlder(s.backups.Of(Main), name) == {newer};
  }
}
