/** Any number of processes, one advisory lock: who runs the background services. */
module LeaderElection {
  import opened Options

  /** Where a process is between two awaits. */
  datatype Stage = Down | Waiting | Starting | Leading | Stopping

  /** What one process believes and does: its lock object, its open session, the started flag, its running services. */
  datatype Process = Process(isLeader: bool, session: bool, started: bool, services: bool, stage: Stage)

  const IDLE := Process(false, false, false, false, Down)

  /**
   * What can happen to one process; the flags say whether the lock server answers, and whether a start or stop
   * succeeds.
   */
  datatype Event =
    | Startup(answers: bool) | Retry(answers: bool) | Launch(succeeds: bool)
    | StopServices(succeeds: bool) | Release(answers: bool) | Crash | SessionLost

  // ---- one process ----

  /** The lock and the process after an attempt to take the lock. */
  function Tried(holder: Option<nat>, p: Process, id: nat, answers: bool): (Option<nat>, Process) {
    if p.isLeader || !answers || holder != None then (holder, p)
    else (Some(id), p.(isLeader := true, session := true))
  }

  function Freed(holder: Option<nat>, id: nat): Option<nat> {
    if holder == Some(id) then None else holder
  }

  function Next(holder: Option<nat>, p: Process, id: nat, event: Event): (Option<nat>, Process) {
    match event
    case Startup(answers) =>
      if p.stage != Down then (holder, p)
      else
        var (h, q) := Tried(holder, p, id, answers);
        (h, q.(stage := if q.isLeader then Starting else Waiting))
    case Retry(answers) =>
      if p.stage != Waiting then (holder, p)
      else
        var (h, q) := Tried(holder, p, id, answers);
        (h, q.(stage := if q.isLeader then Starting else Waiting))
    case Launch(succeeds) =>
      if p.stage != Starting then (holder, p)
      else if p.started || !succeeds then (holder, p.(stage := Leading))
      else (holder, p.(started := true, services := true, stage := Leading))
    case StopServices(succeeds) =>
      if p.stage == Down then (holder, p)
      else (holder, p.(services := p.services && !succeeds, stage := Stopping))
    case Release(_) =>
      if p.stage != Stopping then (holder, p)
      else if !p.isLeader then (holder, p.(started := false, stage := Down))
      else (Freed(holder, id), p.(isLeader := false, session := false, started := false, stage := Down))
    case Crash => (if p.session then Freed(holder, id) else holder, IDLE)
    case SessionLost => (if p.session then Freed(holder, id) else holder, p)
  }

  /** The lock as the database keeps it: held by a session until that session gives it up or ends. */
  class LockServer {
    var holder: Option<nat>

    constructor ()
      ensures holder == None
    {
      holder := None;
    }

    method TryLock(session: nat) returns (got: bool)
      requires holder != Some(session)
      modifies this
      ensures got == (old(holder) == None)
      ensures holder == if got then Some(session) else old(holder)
    {
      got := holder == None;
      if got {
        holder := Some(session);
      }
    }

    /** Unlocking what another session holds does nothing. */
    method Unlock(session: nat)
      modifies this
      ensures holder == Freed(old(holder), session)
    {
      if holder == Some(session) {
        holder := None;
      }
    }

    /** A closed connection, or a process that is gone, holds nothing. */
    method EndSession(session: nat)
      modifies this
      ensures holder == Freed(old(holder), session)
    {
      holder := Freed(holder, session);
    }

    /** Waits for the lock, up to a limit on some databases; whoever else holds it keeps it. */
    method WaitForLock(session: nat, patient: bool) returns (got: bool)
      requires holder != Some(session)
      modifies this
      ensures got ==> holder == Some(session) && (old(holder) == None || patient)
      ensures !got ==> holder == old(holder)
      ensures old(holder) == None ==> got
    {
      got := holder == None || patient;
      if got {
        holder := Some(session);
      }
    }
  }

  class App {
    const id: nat
    const server: LockServer
    var isLeader: bool
    var session: bool
    var started: bool
    var services: bool
    var stage: Stage

    constructor (id: nat, server: LockServer)
      ensures this.id == id && this.server == server && View() == IDLE
    {
      this.id, this.server := id, server;
      isLeader, session, started, services, stage := false, false, false, false, Down;
    }

    function View(): Process
      reads this
    {
      Process(isLeader, session, started, services, stage)
    }

    method TryAcquire(answers: bool) returns (got: bool)
      requires isLeader || server.holder != Some(id)
      modifies this, server
      ensures (server.holder, View()) == Tried(old(server.holder), old(View()), id, answers) && got == isLeader
    {
      if isLeader {
        return true;
      }
      if !answers {
        return false;
      }
      got := server.TryLock(id);
      if got {
        session, isLeader := true, true;
      }
    }

    /** However the unlock call goes, closing the connection ends the session. */
    method GiveUp(answers: bool)
      requires isLeader ==> session
      modifies this, server
      ensures View() == if old(isLeader) then old(View()).(isLeader := false, session := false) else old(View())
      ensures server.holder == if old(isLeader) then Freed(old(server.holder), id) else old(server.holder)
    {
      if !isLeader {
        return;
      }
      isLeader := false;
      if session {
        if answers {
          server.Unlock(id);
        }
        server.EndSession(id);
        session := false;
      }
    }

    method StartBackgroundServices(succeeds: bool)
      modifies this
      ensures View() ==
        if old(started) || !succeeds then old(View()) else old(View()).(started := true, services := true)
    {
      if started || !succeeds {
        return;
      }
      services := true;
      started := true;
    }

    /** One await-free stretch of the process. */
    method Advance(event: Event)
      requires isLeader ==> session
      requires isLeader || server.holder != Some(id)
      modifies this, server
      ensures (server.holder, View()) == Next(old(server.holder), old(View()), id, event)
    {
      match event {
        case Startup(answers) =>
          if stage == Down {
            var got := TryAcquire(answers);
            stage := if got then Starting else Waiting;
          }
        case Retry(answers) =>
          if stage == Waiting {
            var got := TryAcquire(answers);
            stage := if got then Starting else Waiting;
          }
        case Launch(succeeds) =>
          if stage == Starting {
            StartBackgroundServices(succeeds);
            stage := Leading;
          }
        case StopServices(succeeds) =>
          if stage != Down {
            services := services && !succeeds;
            stage := Stopping;
          }
        case Release(answers) =>
          if stage == Stopping {
            GiveUp(answers);
            started, stage := false, Down;
          }
        case Crash =>
          if session {
            server.EndSession(id);
          }
          isLeader, session, started, services, stage := false, false, false, false, Down;
        case SessionLost =>
          if session {
            server.EndSession(id);
          }
      }
    }
  }

  /**
   * A schema change under the bootstrap lock: on every way out a lock that was taken is free, and one that was not
   * stays.
   */
  method UnderBootstrapLock(server: LockServer, session: nat, patient: bool, bodyRaises: bool, answers: bool)
    returns (entered: bool, raised: bool)
    requires server.holder != Some(session)
    modifies server
    ensures entered ==> server.holder == None
    ensures !entered ==> server.holder == old(server.holder) && raised
    ensures entered ==> raised == bodyRaises
    ensures old(server.holder) == None ==> entered
  {
    entered := server.WaitForLock(session, patient);
    raised := !entered || bodyRaises;
    if answers {
      server.Unlock(session);
    }
    server.EndSession(session);
  }

  // ---- the cluster ----

  datatype Cluster = Cluster(holder: Option<nat>, processes: seq<Process>)

  type Happening = (nat, Event)

  function Step(c: Cluster, h: Happening): Cluster {
    if h.0 >= |c.processes| then c
    else
      var (holder, p) := Next(c.holder, c.processes[h.0], h.0, h.1);
      Cluster(holder, c.processes[h.0 := p])
  }

  function After(c: Cluster, run: seq<Happening>): (r: Cluster)
    ensures |r.processes| == |c.processes|
    decreases |run|
  {
    if run == [] then c else After(Step(c, run[0]), run[1..])
  }

  function Fresh(n: nat): Cluster {
    Cluster(None, seq(n, _ => IDLE))
  }

  predicate AtMostOneServes(c: Cluster) {
    forall i, j :: 0 <= i < j < |c.processes| ==> !(c.processes[i].services && c.processes[j].services)
  }

  /** A session is the lock, a leader has one, and services run only while a leader neither stopped nor released. */
  predicate Sound(p: Process, holder: Option<nat>, id: nat) {
    && (p.isLeader == p.session == (holder == Some(id)))
    && (p.stage == Starting || p.stage == Leading ==> p.isLeader)
    && (p.stage == Down || p.stage == Waiting ==> !p.isLeader && !p.started)
    && (p.stage == Starting ==> !p.started)
    && (p.services ==> p.stage == Leading)
  }

  predicate Consistent(c: Cluster) {
    forall i :: 0 <= i < |c.processes| ==> Sound(c.processes[i], c.holder, i)
  }

  /** Sessions last as long as their process, and stopping succeeds. */
  predicate Orderly(e: Event) {
    e != SessionLost && e != StopServices(false)
  }

  lemma StepKeepsConsistent(c: Cluster, h: Happening)
    requires Consistent(c) && Orderly(h.1)
    ensures Consistent(Step(c, h))
  {
    if h.0 < |c.processes| {
      assert Sound(c.processes[h.0], c.holder, h.0);
      forall i | 0 <= i < |c.processes| ensures Sound(Step(c, h).processes[i], Step(c, h).holder, i) {
        assert Sound(c.processes[i], c.holder, i);
      }
    }
  }

  lemma {:induction false} RunKeepsConsistent(c: Cluster, run: seq<Happening>)
    requires Consistent(c) && forall h :: h in run ==> Orderly(h.1)
    ensures Consistent(After(c, run))
    decreases |run|
  {
    if run != [] {
      StepKeepsConsistent(c, run[0]);
      RunKeepsConsistent(Step(c, run[0]), run[1..]);
    }
  }

  /** In every run of any number of processes, at every moment, at most one of them runs the services. */
  lemma AtMostOneLeaderServes(n: nat, run: seq<Happening>, k: nat)
    requires k <= |run| && forall h :: h in run ==> Orderly(h.1)
    ensures AtMostOneServes(After(Fresh(n), run[..k]))
  {
    var c := After(Fresh(n), run[..k]);
    RunKeepsConsistent(Fresh(n), run[..k]);
    forall i, j | 0 <= i < j < |c.processes| ensures !(c.processes[i].services && c.processes[j].services) {
      assert Sound(c.processes[i], c.holder, i) && Sound(c.processes[j], c.holder, j);
    }
  }

  /** When the leader crashes or shuts down, whoever asks next takes over. */
  lemma NextInLineTakesOver(n: nat, run: seq<Happening>, leader: nat, other: nat, down: Event)
    requires forall h :: h in run ==> Orderly(h.1)
    requires var c := After(Fresh(n), run);
      leader < |c.processes| && other < |c.processes| && leader != other && c.holder == Some(leader)
      && c.processes[other].stage == Waiting
      && (down == Crash || (down.Release? && c.processes[leader].stage == Stopping))
    ensures var c := After(After(Fresh(n), run), [(leader, down), (other, Retry(true)), (other, Launch(true))]);
      c.holder == Some(other) && |c.processes| == |After(Fresh(n), run).processes|
      && c.processes[other].services && !c.processes[leader].services
  {
    var c := After(Fresh(n), run);
    RunKeepsConsistent(Fresh(n), run);
    assert Sound(c.processes[leader], c.holder, leader) && Sound(c.processes[other], c.holder, other);
    AfterThree(c, (leader, down), (other, Retry(true)), (other, Launch(true)));
  }

  lemma AfterThree(c: Cluster, a: Happening, b: Happening, d: Happening)
    ensures After(c, [a, b, d]) == Step(Step(Step(c, a), b), d)
  {
    hide Step;
    var one := Step(c, a);
    assert [a, b, d][1..] == [b, d] && [b, d][1..] == [d] && [d][1..] == [];
    assert After(one, [b, d]) == After(Step(one, b), [d]);
    assert After(Step(one, b), [d]) == Step(Step(one, b), d);
  }

  // ---- what the two assumptions are for ----

  /** With a stop that fails the lock is given up all the same, and two processes serve. */
  lemma FailedStopLetsTwoServe()
    ensures var run := [(0, Startup(true)), (0, Launch(true)), (0, StopServices(false)), (0, Release(true)),
                        (1, Startup(true)), (1, Launch(true))];
      !AtMostOneServes(After(Fresh(2), run))
  {
    var run := [(0, Startup(true)), (0, Launch(true)), (0, StopServices(false)), (0, Release(true)),
                (1, Startup(true)), (1, Launch(true))];
    SixSteps(Fresh(2), run);
    var c := After(Fresh(2), run);
    assert c.processes[0].services && c.processes[1].services;
  }

  /** A leader whose session is lost does not notice, and another takes over beside it. */
  lemma LostSessionLetsTwoServe()
    ensures var run := [(0, Startup(true)), (0, Launch(true)), (1, Startup(true)), (0, SessionLost),
                        (1, Retry(true)), (1, Launch(true))];
      !AtMostOneServes(After(Fresh(2), run))
  {
    var run := [(0, Startup(true)), (0, Launch(true)), (1, Startup(true)), (0, SessionLost),
                (1, Retry(true)), (1, Launch(true))];
    SixSteps(Fresh(2), run);
    var c := After(Fresh(2), run);
    assert c.processes[0].services && c.processes[1].services;
  }

  /** A leader that lost its session unnoticed, but neither runs the services nor ever will before it gives up. */
  predicate Spent(p: Process, holder: Option<nat>, id: nat) {
    p.isLeader && p.session && !p.services && holder != Some(id) && (p.stage == Leading || p.stage == Stopping)
  }

  predicate ConsistentBut(c: Cluster, i: nat) {
    forall j :: 0 <= j < |c.processes| ==>
      Sound(c.processes[j], c.holder, j) || (j == i && Spent(c.processes[j], c.holder, j))
  }

  lemma StepKeepsSpent(c: Cluster, i: nat, h: Happening)
    requires ConsistentBut(c, i) && Orderly(h.1)
    ensures ConsistentBut(Step(c, h), i)
  {
    if h.0 < |c.processes| {
      var next := Step(c, h);
      forall j | 0 <= j < |c.processes|
        ensures Sound(next.processes[j], next.holder, j) || (j == i && Spent(next.processes[j], next.holder, j))
      {
        assert Sound(c.processes[j], c.holder, j) || (j == i && Spent(c.processes[j], c.holder, j));
        assert Sound(c.processes[h.0], c.holder, h.0) || (h.0 == i && Spent(c.processes[h.0], c.holder, h.0));
      }
    }
  }

  lemma {:induction false} RunKeepsSpent(c: Cluster, i: nat, run: seq<Happening>)
    requires ConsistentBut(c, i) && forall h :: h in run ==> Orderly(h.1)
    ensures ConsistentBut(After(c, run), i)
    decreases |run|
  {
    if run != [] {
      StepKeepsSpent(c, i, run[0]);
      RunKeepsSpent(Step(c, run[0]), i, run[1..]);
    }
  }

  lemma OneServesBut(c: Cluster, i: nat)
    requires ConsistentBut(c, i)
    ensures AtMostOneServes(c)
  {
    forall j, k | 0 <= j < k < |c.processes| ensures !(c.processes[j].services && c.processes[k].services) {
      assert Sound(c.processes[j], c.holder, j) || (j == i && Spent(c.processes[j], c.holder, j));
      assert Sound(c.processes[k], c.holder, k) || (k == i && Spent(c.processes[k], c.holder, k));
    }
  }

  /** Orderly steps can lead to two processes serving. */
  ghost predicate CanDouble(c: Cluster) {
    exists run: seq<Happening> :: (forall h :: h in run ==> Orderly(h.1)) && !AtMostOneServes(After(c, run))
  }

  /**
   * A lost session of process i, or a stop that fails there, can be followed by two processes serving if and only if i
   * is serving, or about to in the case of a session, and there is another process.
   */
  lemma WhenTwoCanServe(c: Cluster, i: nat, e: Event)
    requires Consistent(c) && i < |c.processes| && (e == SessionLost || e == StopServices(false))
    ensures CanDouble(Step(c, (i, e))) <==>
      |c.processes| >= 2 && (c.processes[i].services || (e == SessionLost && c.processes[i].stage == Starting))
  {
    var next := Step(c, (i, e));
    assert Sound(c.processes[i], c.holder, i);
    if |c.processes| >= 2 && (c.processes[i].services || (e == SessionLost && c.processes[i].stage == Starting)) {
      var j := if i == 0 then 1 else 0;
      TwoServe(c, i, j, e);
    } else if |c.processes| >= 2 {
      forall k | 0 <= k < |next.processes|
        ensures Sound(next.processes[k], next.holder, k) || (k == i && Spent(next.processes[k], next.holder, k))
      {
        assert Sound(c.processes[k], c.holder, k);
      }
      forall run: seq<Happening> | forall h :: h in run ==> Orderly(h.1) ensures AtMostOneServes(After(next, run)) {
        RunKeepsSpent(next, i, run);
        OneServesBut(After(next, run), i);
      }
    }
  }

  /** Process j takes the lock that i no longer holds and starts the services beside it. */
  lemma TwoServe(c: Cluster, i: nat, j: nat, e: Event)
    requires Consistent(c) && i < |c.processes| && j < |c.processes| && i != j
    requires c.processes[i].services || (e == SessionLost && c.processes[i].stage == Starting)
    requires e == SessionLost || e == StopServices(false)
    ensures CanDouble(Step(c, (i, e)))
  {
    var next := Step(c, (i, e));
    var first := (i, if e == SessionLost then Launch(true) else Release(true));
    var run := [first, (j, Release(true)), (j, Startup(true)), (j, Retry(true)), (j, Launch(true)), (j, Launch(true))];
    hide Step, After, Consistent, AtMostOneServes;
    SixSteps(next, run);
    LockIsFree(c, i, j, e, first);
    TakesOver(Step(Step(next, first), (j, Release(true))), i, j);
    var end := After(next, run);
    TwoAtOnce(end, i, j);
  }

  lemma TwoAtOnce(c: Cluster, i: nat, j: nat)
    requires i < |c.processes| && j < |c.processes| && i != j && c.processes[i].services && c.processes[j].services
    ensures !AtMostOneServes(c)
  {
  }

  /** Process i serves without the lock, and j is free to ask for it. */
  lemma LockIsFree(c: Cluster, i: nat, j: nat, e: Event, first: Happening)
    requires Consistent(c) && i < |c.processes| && j < |c.processes| && i != j
    requires c.processes[i].services || (e == SessionLost && c.processes[i].stage == Starting)
    requires e == SessionLost || e == StopServices(false)
    requires first == (i, if e == SessionLost then Launch(true) else Release(true))
    ensures var two := Step(Step(Step(c, (i, e)), first), (j, Release(true)));
      && |two.processes| == |c.processes| && two.holder == None && two.processes[i].services
      && !two.processes[j].isLeader && !two.processes[j].started
      && (two.processes[j].stage == Down || two.processes[j].stage == Waiting)
  {
    assert Sound(c.processes[i], c.holder, i) && Sound(c.processes[j], c.holder, j);
  }

  lemma TakesOver(c: Cluster, i: nat, j: nat)
    requires i < |c.processes| && j < |c.processes| && i != j && c.holder == None && c.processes[i].services
    requires !c.processes[j].isLeader && !c.processes[j].started
    requires c.processes[j].stage == Down || c.processes[j].stage == Waiting
    ensures var starting := Step(Step(c, (j, Startup(true))), (j, Retry(true)));
      var end := Step(Step(starting, (j, Launch(true))), (j, Launch(true)));
      |end.processes| == |c.processes| && end.processes[i].services && end.processes[j].services
  {
  }

  lemma SixSteps(c: Cluster, run: seq<Happening>)
    requires |run| == 6
    ensures After(c, run) == Step(Step(Step(Step(Step(Step(c, run[0]), run[1]), run[2]), run[3]), run[4]), run[5])
  {
    hide Step;
    var one := Step(c, run[0]);
    var three := Step(Step(one, run[1]), run[2]);
    var a, b, d := run[1..], run[2..], run[3..];
    assert a[0] == run[1] && a[1..] == b && b[0] == run[2] && b[1..] == d && d == [run[3], run[4], run[5]];
    assert After(c, run) == After(one, a);
    assert After(one, a) == After(Step(one, run[1]), b);
    AfterThree(three, run[3], run[4], run[5]);
  }
}
