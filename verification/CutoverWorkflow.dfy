/**
 * The one-command migration: services up, guard, bootstrap, three copying jobs, verify, health check, services down.
 */
module CutoverWorkflow {
  const JOBS: seq<string> := ["main", "audit", "usm"]
  const EXCLUDED: set<string> := {"alembic_version", "migration_history"}

  // ---- the scan for business data ----

  /** One target as the scan sees it: a connection or not, and for each table a row count or an error. */
  datatype Count = Rows(n: nat) | Unreadable
  datatype Target = Unreachable | Reachable(tables: seq<(string, Count)>)

  predicate Counts(table: (string, Count)) {
    table.0 !in EXCLUDED && table.1.Rows? && table.1.n > 0
  }

  predicate HasData(target: Target) {
    target.Reachable? && exists i :: 0 <= i < |target.tables| && Counts(target.tables[i])
  }

  /** Every table that is not excluded can be counted. */
  predicate Countable(target: Target) {
    target.Reachable? && forall i :: 0 <= i < |target.tables| ==>
      target.tables[i].0 in EXCLUDED || target.tables[i].1.Rows?
  }

  /** Any error on the way makes a target count as empty, so data is reported exactly where all could be counted. */
  method HasCountedData(target: Target) returns (reported: bool)
    ensures reported <==> HasData(target) && Countable(target)
  {
    if target.Unreachable? {
      return false;
    }
    var tables := target.tables;
    reported := false;
    for i := 0 to |tables|
      invariant reported <==> exists k :: 0 <= k < i && Counts(tables[k])
      invariant forall k :: 0 <= k < i ==> tables[k].0 in EXCLUDED || tables[k].1.Rows?
    {
      if tables[i].0 !in EXCLUDED {
        if tables[i].1.Unreadable? {
          return false;
        }
        reported := reported || Counts(tables[i]);
      }
    }
  }

  method DetectNonEmpty(targets: seq<Target>) returns (nonEmpty: bool)
    ensures nonEmpty <==> exists t :: 0 <= t < |targets| && HasData(targets[t]) && Countable(targets[t])
  {
    nonEmpty := false;
    for t := 0 to |targets|
      invariant nonEmpty <==> exists s :: 0 <= s < t && HasData(targets[s]) && Countable(targets[s])
    {
      var reported := HasCountedData(targets[t]);
      nonEmpty := nonEmpty || reported;
    }
  }

  /** One table that cannot be read is enough for the scan to report a target with users in it as empty. */
  method UnreadableHidesData() returns (target: Target, nonEmpty: bool)
    ensures HasData(target) && !nonEmpty
  {
    target := Reachable([("users", Rows(3)), ("broken", Unreadable)]);
    assert Counts(target.tables[0]) && target.tables[1] == ("broken", Unreadable);
    nonEmpty := DetectNonEmpty([target]);
  }

  // ---- the run ----

  /** A called command returns a code; its call may also raise. */
  datatype Reply = Returned(code: int) | Raised

  datatype Effect =
    | Up(reply: Reply) | Down | Preflight(reply: Reply) | Scan(clear: bool) | Bootstrap(reply: Reply)
    | Copy(job: string, reply: Reply, matches: bool) | Verify(reply: Reply) | StartApp(healthy: bool) | StopApp

  datatype Summary = Summary(guardrails: bool, codes: map<string, int>, healthy: bool, migrated: bool, success: bool)

  function CodeOf(s: Summary, step: string): int {
    if step in s.codes then s.codes[step] else 1
  }

  /** What the summary's verdict is computed from; the migration field is not read. */
  predicate ComputeSuccess(s: Summary) {
    s.guardrails && CodeOf(s, "preflight") == 0 && CodeOf(s, "bootstrap") == 0 && CodeOf(s, "verify") == 0 && s.healthy
  }

  function Copies(log: seq<Effect>): seq<Effect> {
    if log == [] then []
    else
      var n := |log| - 1;
      if log[n].Copy? then Copies(log[..n]) + [log[n]] else Copies(log[..n])
  }

  function AllCopied(): seq<Effect> {
    seq(|JOBS|, i requires 0 <= i < |JOBS| => Copy(JOBS[i], Returned(0), true))
  }

  /** All three jobs, in order, each returning 0 with equal row counts; and nothing else was copied. */
  predicate Migrated(log: seq<Effect>) {
    Copies(log) == AllCopied()
  }

  lemma CopiesAppend(log: seq<Effect>, e: Effect)
    ensures Copies(log + [e]) == Copies(log) + if e.Copy? then [e] else []
  {
  }

  lemma SameEnd(a: seq<Effect>, b: seq<Effect>, x: Effect, y: Effect)
    requires |a| == |b|
    ensures a + [x] == b + [y] <==> a == b && x == y
  {
    assert (a + [x])[..|a|] == a && (b + [y])[..|b|] == b && (a + [x])[|a|] == x && (b + [y])[|b|] == y;
  }

  lemma NoJobYet()
    ensures AllCopied()[..0] == [] && |AllCopied()| == |JOBS|
  {
  }

  /** What one more job means for the copies so far. */
  lemma OneMoreJob(log: seq<Effect>, k: nat, migrated: bool, reply: Reply, matches: bool)
    requires k < |JOBS| && |Copies(log)| == k && |AllCopied()| == |JOBS|
    requires migrated <==> Copies(log) == AllCopied()[..k]
    ensures var more := log + [Copy(JOBS[k], reply, matches)];
      && |Copies(more)| == k + 1
      && (migrated && reply == Returned(0) && matches <==> Copies(more) == AllCopied()[..k + 1])
  {
    hide Copies;
    var effect := Copy(JOBS[k], reply, matches);
    assert AllCopied()[k] == Copy(JOBS[k], Returned(0), true);
    hide *;
    CopiesAppend(log, effect);
    SameEnd(Copies(log), AllCopied()[..k], effect, AllCopied()[k]);
    assert AllCopied()[..k + 1] == AllCopied()[..k] + [Copy(JOBS[k], Returned(0), true)];
  }

  /** The loop ends after the last job, or after one that failed. */
  lemma AllJobs(log: seq<Effect>, k: nat, migrated: bool)
    requires k <= |JOBS| && |Copies(log)| == k && |AllCopied()| == |JOBS|
    requires (migrated <==> Copies(log) == AllCopied()[..k]) && (k < |JOBS| ==> !migrated)
    ensures migrated <==> Migrated(log)
  {
    assert k == |JOBS| ==> AllCopied()[..k] == AllCopied();
  }

  class Workflow {
    const manages: bool
    const keep: bool
    const force: bool
    var summary: Summary
    var started: bool
    ghost var log: seq<Effect>

    constructor (manages: bool, keep: bool, force: bool)
      ensures this.manages == manages && this.keep == keep && this.force == force && Untouched()
    {
      this.manages, this.keep, this.force := manages, keep, force;
      summary, started, log := Summary(false, map[], false, false, false), false, [];
    }

    ghost predicate Untouched()
      reads this
    {
      log == [] && !started && summary == Summary(false, map[], false, false, false)
    }

    /** Services are up exactly if the call that brings them up succeeded, and healthy exactly if
        the health check said so; nothing has been stopped. */
    ghost predicate Tracked()
      reads this
    {
      && (started <==> Up(Returned(0)) in log) && (summary.healthy <==> StartApp(true) in log)
      && Down !in log && StopApp !in log
    }

    /** No verdict yet, and nothing that only a finished copy allows. */
    ghost predicate Unverified()
      reads this
    {
      !summary.success && !summary.healthy && "verify" !in summary.codes
    }

    ghost predicate Prepared()
      reads this
    {
      summary.guardrails && CodeOf(summary, "preflight") == 0 && CodeOf(summary, "bootstrap") == 0
    }

    /** A command's call; its code is noted in the summary unless the call raised. */
    method Command(step: string, ghost effect: Reply -> Effect) returns (ok: bool, parsed: bool)
      requires Tracked() && forall r :: effect(r).Preflight? || effect(r).Bootstrap? || effect(r).Verify?
      modifies this
      ensures Tracked() && started == old(started) && Copies(log) == Copies(old(log))
      ensures |log| == |old(log)| + 1 && old(log) <= log
      ensures ok ==> CodeOf(summary, step) == 0 && log[|log| - 1] == effect(Returned(0))
      ensures step !in old(summary.codes) ==> (CodeOf(summary, step) == 0 <==> ok)
      ensures summary == old(summary).(codes := summary.codes)
      ensures forall other :: other != step ==> (other in summary.codes <==> other in old(summary.codes))
      ensures forall other :: other != step ==> CodeOf(summary, other) == CodeOf(old(summary), other)
      ensures Scan(true) in log <==> Scan(true) in old(log)
    {
      var reply: Reply := *;
      log := log + [effect(reply)];
      CopiesAppend(old(log), effect(reply));
      if reply.Returned? {
        summary := summary.(codes := summary.codes[step := reply.code]);
      }
      ok := reply == Returned(0);
      parsed := *;
    }

    /** Everything before the copying; `go` says whether it may begin. */
    method Prepare(targets: seq<Target>) returns (go: bool)
      requires Untouched()
      modifies this
      ensures Copies(log) == [] && Tracked() && Unverified() && (go ==> Prepared())
      ensures go && !force ==> Scan(true) in log
      ensures Scan(true) in log ==> forall t :: 0 <= t < |targets| ==> !(HasData(targets[t]) && Countable(targets[t]))
    {
      if manages {
        var reply: Reply := *;
        log := [Up(reply)];
        CopiesAppend([], Up(reply));
        started := reply == Returned(0);
        if !started {
          return false;
        }
      }
      var resolved: bool := *;
      var guardrails: bool := *;
      if !resolved || !guardrails {
        return false;
      }
      summary := summary.(guardrails := true);
      var ok, parsed := Command("preflight", r => Preflight(r));
      if !ok || !parsed {
        return false;
      }
      var nonEmpty := DetectNonEmpty(targets);
      CopiesAppend(log, Scan(!nonEmpty));
      log := log + [Scan(!nonEmpty)];
      if nonEmpty && !force {
        return false;
      }
      ok, parsed := Command("bootstrap", r => Bootstrap(r));
      go := ok;
    }

    /** Job after job until one fails; a job whose counts differ spoils the result but not the rest. */
    method CopyAll() returns (raised: bool)
      requires Copies(log) == [] && Tracked() && Unverified() && Prepared()
      modifies this
      ensures Tracked() && Unverified() && Prepared() && started == old(started)
      ensures old(log) <= log && (Scan(true) in log <==> Scan(true) in old(log))
      ensures summary == old(summary).(migrated := summary.migrated)
      ensures !raised ==> (summary.migrated <==> Migrated(log))
    {
      hide Copies, AllCopied;
      var migrated := true;
      raised := false;
      var k := 0;
      NoJobYet();
      while k < |JOBS|
        invariant k <= |JOBS| && Tracked() && summary == old(summary) && started == old(started)
        invariant old(log) <= log && (Scan(true) in log <==> Scan(true) in old(log))
        invariant |AllCopied()| == |JOBS| && |Copies(log)| == k && (migrated <==> Copies(log) == AllCopied()[..k])
      {
        var reply: Reply := *;
        var matches: bool := *;
        var parsed: bool := *;
        var effect := Copy(JOBS[k], reply, matches);
        OneMoreJob(log, k, migrated, reply, matches);
        log := log + [effect];
        if reply == Raised || (reply == Returned(0) && !parsed) {
          raised := true;
          return;
        }
        migrated := migrated && reply == Returned(0) && matches;
        k := k + 1;
        if reply != Returned(0) {
          break;
        }
      }
      AllJobs(log, k, migrated);
      summary := summary.(migrated := migrated);
    }

    /** From the first copy to the health check. */
    method CopyVerifyStart() returns (raised: bool)
      requires Copies(log) == [] && Tracked() && Unverified() && Prepared()
      modifies this
      ensures Tracked() && Prepared() && !summary.success && started == old(started)
      ensures Scan(true) in log <==> Scan(true) in old(log)
      ensures summary.healthy ==> !raised && Migrated(log) && CodeOf(summary, "verify") == 0
    {
      raised := CopyAll();
      if raised || !summary.migrated {
        return;
      }
      var ok, parsed := Command("verify", r => Verify(r));
      if !ok || !parsed {
        return !parsed;
      }
      var healthy: bool := *;
      CopiesAppend(log, StartApp(healthy));
      log := log + [StartApp(healthy)];
      summary := summary.(healthy := healthy);
    }

    /** The whole command; services it brought up are taken down on every way out, unless they are to be kept. */
    method RunMigrateWorkflow(targets: seq<Target>)
      requires Untouched()
      modifies this
      ensures summary.success <==> StartApp(true) in log
      ensures summary.success ==> Prepared() && Migrated(log) && CodeOf(summary, "verify") == 0
      ensures Copies(log) != [] && !force ==> forall t :: 0 <= t < |targets| ==>
        !(HasData(targets[t]) && Countable(targets[t]))
      ensures StopApp in log && (Down in log <==> Up(Returned(0)) in log && !keep)
      ensures Down in log ==> log[|log| - 1] == Down
    {
      hide Copies, HasData, Countable, AllCopied;
      var go := Prepare(targets);
      var raised := false;
      if go {
        raised := CopyVerifyStart();
      }
      if !raised {
        summary := summary.(success := ComputeSuccess(summary));
      }
      CopiesAppend(log, StopApp);
      log := log + [StopApp];
      if started && !keep {
        CopiesAppend(log, Down);
        log := log + [Down];
      }
    }
  }
}
