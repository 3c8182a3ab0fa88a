/** Failure markers over whole histories of start-ups with the same heads. */
module RestartLoop {
  import opened Backups
  import opened Bootstrap
  import opened Options

  function Horner(usm: nat, audit: nat, main: nat, base: nat): nat {
    (usm * base + audit) * base + main
  }

  function Cube(n: nat): nat { n * n * n }

  /** The attempts read as a number, usm first, main last. */
  function Score(m: Marks, heads: Target -> string, limit: nat): nat {
    Horner(Attempts(m, Usm, heads(Usm)), Attempts(m, Audit, heads(Audit)), Attempts(m, Main, heads(Main)), limit)
  }

  /** A start-up that was let through and ended in the failure of some target. */
  ghost predicate FailedRun(before: Marks, after: Marks, heads: Target -> string, limit: nat) {
    !Refused(before, heads, limit) && exists t :: FailureRecorded(before, after, heads, t)
  }

  /** A start-up that was let through and was ended by another exception once the first k targets were done. */
  ghost predicate CrashedRun(before: Marks, after: Marks, heads: Target -> string, limit: nat, k: nat) {
    !Refused(before, heads, limit) && Forgotten(before, after, k)
  }

  /** The first k targets have failed attempts that a crash after them forgets. */
  ghost predicate Forgets(before: Marks, heads: Target -> string, k: nat) {
    exists u :: Position(u) < k && Attempts(before, u, heads(u)) > 0
  }

  ghost predicate QuietCrash(before: Marks, after: Marks, heads: Target -> string, limit: nat) {
    exists k: nat :: CrashedRun(before, after, heads, limit, k) && !Forgets(before, heads, k)
  }

  /** Start-ups one after the other: each fails on some target, or crashes without forgetting a failed attempt. */
  ghost predicate QuietHistory(h: seq<Marks>, heads: Target -> string, limit: nat) {
    h != [] && forall i :: 0 <= i < |h| - 1 ==> QuietStep(h, i, heads, limit)
  }

  ghost predicate QuietStep(h: seq<Marks>, i: nat, heads: Target -> string, limit: nat)
    requires i + 1 < |h|
  {
    FailedRun(h[i], h[i + 1], heads, limit) || QuietCrash(h[i], h[i + 1], heads, limit)
  }

  /** The start-ups of a history all ended with code 1, each of them in the failure of some target. */
  ghost predicate AllFailed(codes: seq<int>, h: seq<Marks>, heads: Target -> string, limit: nat) {
    |h| == |codes| + 1 && forall i :: 0 <= i < |codes| ==> codes[i] == 1 && FailedStep(h, i, heads, limit)
  }

  ghost predicate FailedStep(h: seq<Marks>, i: nat, heads: Target -> string, limit: nat)
    requires i + 1 < |h|
  {
    FailedRun(h[i], h[i + 1], heads, limit)
  }

  /** How many start-ups of a history failed on a target. */
  ghost function Failures(h: seq<Marks>, heads: Target -> string, limit: nat): nat {
    if |h| <= 1 then 0
    else Failures(h[..|h| - 1], heads, limit) + if FailedRun(h[|h| - 2], h[|h| - 1], heads, limit) then 1 else 0
  }

  lemma BelowLimit(m: Marks, heads: Target -> string, limit: nat)
    requires limit >= 1 && !Refused(m, heads, limit)
    ensures forall t :: Attempts(m, t, heads(t)) < limit
  {
    forall t: Target ensures Attempts(m, t, heads(t)) < limit {
      assert ORDER[Position(t)] == t;
    }
  }

  lemma AtMost(a: nat, b: nat, limit: nat)
    requires a <= b
    ensures a * limit <= b * limit
  {
  }

  lemma HornerRises(usm: nat, audit: nat, main: nat, base: nat)
    requires audit < base && main < base
    ensures Horner(usm, audit, main, base) < Horner(usm, audit + 1, 0, base)
    ensures Horner(usm, audit, main, base) < Horner(usm + 1, 0, 0, base)
  {
  }

  /** A failure raises the number: it bumps its own digit and clears only lower ones. */
  lemma FailureRaisesScore(before: Marks, after: Marks, heads: Target -> string, limit: nat)
    requires limit >= 1 && FailedRun(before, after, heads, limit)
    ensures Score(before, heads, limit) < Score(after, heads, limit)
  {
    BelowLimit(before, heads, limit);
    var t :| FailureRecorded(before, after, heads, t);
    HornerRises(Attempts(before, Usm, heads(Usm)), Attempts(before, Audit, heads(Audit)),
                Attempts(before, Main, heads(Main)), limit);
    hide Horner, Refused;
    match t
    case Main => MainRaises(before, after, heads, limit);
    case Audit =>
    case Usm =>
  }

  lemma MainRaises(before: Marks, after: Marks, heads: Target -> string, limit: nat)
    requires FailureRecorded(before, after, heads, Main)
    ensures Score(before, heads, limit) < Score(after, heads, limit)
  {
  }

  lemma LetThroughIsBelow(m: Marks, heads: Target -> string, limit: nat)
    requires limit >= 1 && !Refused(m, heads, limit)
    ensures Score(m, heads, limit) < Cube(limit)
  {
    BelowLimit(m, heads, limit);
    var u, a := Attempts(m, Usm, heads(Usm)), Attempts(m, Audit, heads(Audit));
    HornerRises(u, a, Attempts(m, Main, heads(Main)), limit);
    AtMost(u + 1, limit, limit);
    AtMost((u + 1) * limit, limit * limit, limit);
  }

  /** A crash leaves the number alone if it forgets no failed attempt, and lowers it if it does. */
  lemma CrashAndScore(before: Marks, after: Marks, heads: Target -> string, limit: nat, k: nat)
    requires limit >= 1 && CrashedRun(before, after, heads, limit, k)
    ensures if Forgets(before, heads, k) then Score(after, heads, limit) < Score(before, heads, limit)
            else Score(after, heads, limit) == Score(before, heads, limit)
  {
    var u, a := Attempts(before, Usm, heads(Usm)), Attempts(before, Audit, heads(Audit));
    var m := Attempts(before, Main, heads(Main));
    var u', a' := Attempts(after, Usm, heads(Usm)), Attempts(after, Audit, heads(Audit));
    var m' := Attempts(after, Main, heads(Main));
    assert m' == (if Position(Main) < k then 0 else m) && a' == (if Position(Audit) < k then 0 else a)
      && u' == (if Position(Usm) < k then 0 else u);
    hide Refused, Forgotten, Attempts;
    HornerIsMonotone(u', a', m', u, a, m, limit);
    if Forgets(before, heads, k) {
      var v :| Position(v) < k && Attempts(before, v, heads(v)) > 0;
      match v case Main => case Audit => case Usm =>
    } else {
      assert forall v :: Position(v) < k ==> Attempts(before, v, heads(v)) == 0;
    }
  }

  lemma HornerIsMonotone(usm: nat, audit: nat, main: nat, usm': nat, audit': nat, main': nat, base: nat)
    requires usm <= usm' && audit <= audit' && main <= main' && base >= 1
    ensures Horner(usm, audit, main, base) <= Horner(usm', audit', main', base)
    ensures usm < usm' || audit < audit' || main < main' ==>
      Horner(usm, audit, main, base) < Horner(usm', audit', main', base)
  {
    AtMost(usm, usm', base);
    AtMost(usm * base + audit, usm' * base + audit', base);
    if usm < usm' {
      AtMost(usm + 1, usm', base);
    }
    if usm < usm' || audit < audit' {
      AtMost(usm * base + audit + 1, usm' * base + audit', base);
    }
  }

  lemma ScoreStep(before: Marks, after: Marks, heads: Target -> string, limit: nat)
    requires limit >= 1 && (FailedRun(before, after, heads, limit) || QuietCrash(before, after, heads, limit))
    ensures if FailedRun(before, after, heads, limit)
            then Score(before, heads, limit) < Score(after, heads, limit) && Score(before, heads, limit) < Cube(limit)
            else Score(after, heads, limit) == Score(before, heads, limit)
  {
    hide Score, Cube, Refused, Forgotten;
    if FailedRun(before, after, heads, limit) {
      FailureRaisesScore(before, after, heads, limit);
      LetThroughIsBelow(before, heads, limit);
    } else {
      var k: nat :| CrashedRun(before, after, heads, limit, k) && !Forgets(before, heads, k);
      CrashAndScore(before, after, heads, limit, k);
    }
  }

  lemma {:induction false} ScoreGrows(h: seq<Marks>, heads: Target -> string, limit: nat)
    requires limit >= 1 && QuietHistory(h, heads, limit)
    ensures Failures(h, heads, limit) <= Score(h[|h| - 1], heads, limit)
    ensures Failures(h, heads, limit) <= Cube(limit)
  {
    if |h| > 1 {
      hide Score, Cube, FailedRun, QuietCrash;
      var front := h[..|h| - 1];
      forall i | 0 <= i < |front| - 1 ensures QuietStep(front, i, heads, limit) {
        assert QuietStep(h, i, heads, limit);
      }
      ScoreGrows(front, heads, limit);
      assert QuietStep(h, |h| - 2, heads, limit);
      ScoreStep(h[|h| - 2], h[|h| - 1], heads, limit);
    }
  }

  /** As long as no crash forgets a failed attempt, no more than limit-cubed start-ups fail on a target. */
  lemma AtMostCubeFailures(h: seq<Marks>, heads: Target -> string, limit: nat)
    requires limit >= 1 && QuietHistory(h, heads, limit)
    ensures Failures(h, heads, limit) <= Cube(limit)
  {
    ScoreGrows(h, heads, limit);
  }

  // ---- the bound is reached ----

  datatype Digits = Digits(main: nat, audit: nat, usm: nat)

  function Successor(d: Digits, limit: nat): Digits {
    if d.main + 1 < limit then d.(main := d.main + 1)
    else if d.audit + 1 < limit then Digits(0, d.audit + 1, d.usm)
    else Digits(0, 0, d.usm + 1)
  }

  function MarksOf(d: Digits, heads: Target -> string): Marks {
    (if d.main > 0 then map[Main := Marker(heads(Main), d.main)] else map[])
    + (if d.audit > 0 then map[Audit := Marker(heads(Audit), d.audit)] else map[])
    + (if d.usm > 0 then map[Usm := Marker(heads(Usm), d.usm)] else map[])
  }

  /** The target whose failure takes the count from d to its successor. */
  function Bumped(d: Digits, limit: nat): Target {
    if d.main + 1 < limit then Main else if d.audit + 1 < limit then Audit else Usm
  }

  function DigitOf(d: Digits, t: Target): nat {
    match t
    case Main => d.main
    case Audit => d.audit
    case Usm => d.usm
  }

  lemma MarksAreDigits(d: Digits, heads: Target -> string)
    ensures var m := MarksOf(d, heads);
      forall t :: (t in m <==> DigitOf(d, t) > 0) && (t in m ==> m[t] == Marker(heads(t), DigitOf(d, t)))
  {
  }

  lemma SuccessorIsFailure(d: Digits, heads: Target -> string, limit: nat)
    requires limit >= 1 && d.main < limit && d.audit < limit && d.usm < limit
    ensures !Refused(MarksOf(d, heads), heads, limit)
    ensures FailureRecorded(MarksOf(d, heads), MarksOf(Successor(d, limit), heads), heads, Bumped(d, limit))
  {
    hide MarksOf;
    MarksAreDigits(d, heads);
    MarksAreDigits(Successor(d, limit), heads);
  }

  /** What a failure of t leaves is determined. */
  lemma FailureIsFunction(before: Marks, after: Marks, other: Marks, heads: Target -> string, t: Target)
    requires FailureRecorded(before, after, heads, t) && FailureRecorded(before, other, heads, t)
    ensures after == other
  {
    forall u: Target ensures u in after <==> u in other && (u in after ==> after[u] == other[u]) {
    }
  }

  function Counted(d: Digits, limit: nat): nat {
    Horner(d.usm, d.audit, d.main, limit)
  }

  lemma SuccessorCounts(d: Digits, limit: nat)
    requires limit >= 1 && d.main < limit && d.audit < limit
    ensures Counted(Successor(d, limit), limit) == Counted(d, limit) + 1
    ensures Successor(d, limit).main < limit && Successor(d, limit).audit < limit
  {
  }

  lemma UsmBelow(d: Digits, limit: nat)
    requires Counted(d, limit) < Cube(limit)
    ensures d.usm < limit
  {
    if d.usm >= limit {
      AtMost(limit, d.usm, limit);
      AtMost(limit * limit, d.usm * limit + d.audit, limit);
    }
  }

  // ---- start-ups that do so ----

  /** Start-ups of any host, with any contents, that fail on t: the others come up, and t does not pass verification. */
  method FailOn(host: Host, heads: Target -> string, limit: nat, t: Target) returns (code: int)
    requires limit >= 1 && !Refused(host.markers, heads, limit)
    modifies host
    ensures code == 1 && FailureRecorded(old(host.markers), host.markers, heads, t)
  {
    var events := u => Event(true, 0, BackupRefused, Managed(heads(u), 0), true, if u == t then Rejected else Passed);
    ghost var failed, kept, s;
    code, failed, kept, s := host.Run(Policies(Off, 1, false, limit), heads, events, AllRestored, SeedSkipped);
    hide FailureRecorded, Refused;
    assert s.StopsAt(t) && s.On(t).Fails();
  }

  /** Start-ups that are ended by an exception once the first k targets are up. */
  method CrashAfter(host: Host, heads: Target -> string, limit: nat, k: nat) returns (code: int)
    requires limit >= 1 && !Refused(host.markers, heads, limit) && k <= 3
    modifies host
    ensures code == 1 && Forgotten(old(host.markers), host.markers, k)
  {
    var events := u =>
      Event(true, 0, BackupRefused, Managed(heads(u), 0), true, if Position(u) < k then Passed else VerifyRaised);
    ghost var failed, kept, s;
    code, failed, kept, s := host.Run(Policies(Off, 1, false, limit), heads, events, AllRestored, StatsRaised);
    hide Refused;
    if k < 3 {
      assert s.StopsAt(At(k)) && !s.On(At(k)).Fails();
    } else {
      assert s.Completes();
    }
  }

  lemma UsmAtLimit(d: Digits, limit: nat)
    requires limit >= 1 && d.main < limit && d.audit < limit && Counted(d, limit) >= Cube(limit)
    ensures d.usm >= limit
  {
    if d.usm < limit {
      HornerRises(d.usm, d.audit, d.main, limit);
      AtMost(d.usm + 1, limit, limit);
      AtMost((d.usm + 1) * limit, limit * limit, limit);
    }
  }

  lemma AtLimitIsRefused(d: Digits, heads: Target -> string, limit: nat)
    requires limit >= 1 && d.usm >= limit
    ensures Refused(MarksOf(d, heads), heads, limit)
  {
    assert Usm in ORDER && Usm in MarksOf(d, heads);
  }

  /** The start-up that counts one further. */
  method FailNext(host: Host, heads: Target -> string, limit: nat, d: Digits) returns (code: int, next: Digits)
    requires limit >= 1 && d.main < limit && d.audit < limit && d.usm < limit && host.markers == MarksOf(d, heads)
    modifies host
    ensures code == 1 && FailedRun(old(host.markers), host.markers, heads, limit)
      && host.markers == MarksOf(next, heads)
    ensures next.main < limit && next.audit < limit && Counted(next, limit) == Counted(d, limit) + 1
  {
    next := Successor(d, limit);
    SuccessorIsFailure(d, heads, limit);
    SuccessorCounts(d, limit);
    hide *;
    code := FailOn(host, heads, limit, Bumped(d, limit));
    FailureIsFunction(old(host.markers), host.markers, MarksOf(next, heads), heads, Bumped(d, limit));
    FailureIsFailedRun(old(host.markers), host.markers, heads, limit, Bumped(d, limit));
  }

  lemma FailureIsFailedRun(before: Marks, after: Marks, heads: Target -> string, limit: nat, t: Target)
    requires !Refused(before, heads, limit) && FailureRecorded(before, after, heads, t)
    ensures FailedRun(before, after, heads, limit)
  {
  }

  /** The bound is reached: from no markers, limit-cubed start-ups fail, and the next one is refused. */
  method FailUpToTheCube(host: Host, heads: Target -> string, limit: nat) returns (codes: seq<int>, ghost h: seq<Marks>)
    requires limit >= 1 && host.markers == map[]
    modifies host
    ensures |codes| == Cube(limit) + 1 && codes[Cube(limit)] == 10
    ensures AllFailed(codes[..Cube(limit)], h, heads, limit) && h[0] == map[] && h[Cube(limit)] == host.markers
  {
    var d, total := Digits(0, 0, 0), Cube(limit);
    codes, h := [], [host.markers];
    hide Cube;
    assert Counted(d, limit) == 0 && MarksOf(d, heads) == map[];
    while |codes| < total
      invariant |codes| == Counted(d, limit) <= total && d.main < limit && d.audit < limit
      invariant |h| == |codes| + 1 && host.markers == MarksOf(d, heads) == h[|codes|] && h[0] == map[]
      invariant AllFailed(codes, h, heads, limit)
    {
      UsmBelow(d, limit);
      hide *;
      var code;
      code, d := FailNext(host, heads, limit, d);
      OneMoreFailed(codes, h, heads, limit, host.markers);
      codes, h := codes + [code], h + [host.markers];
    }
    UsmAtLimit(d, limit);
    AtLimitIsRefused(d, heads, limit);
    hide *;
    var events := u => Event(true, 0, BackedUp, Managed(heads(u), 0), true, Passed);
    var code, _, _, _ := host.Run(Policies(Required, 1, true, limit), heads, events, AllRestored, SeedSkipped);
    assert (codes + [code])[..total] == codes;
    codes := codes + [code];
  }

  lemma OneMoreFailed(codes: seq<int>, h: seq<Marks>, heads: Target -> string, limit: nat, now: Marks)
    requires AllFailed(codes, h, heads, limit) && FailedRun(h[|codes|], now, heads, limit)
    ensures AllFailed(codes + [1], h + [now], heads, limit)
  {
    forall i | 0 <= i <= |codes| ensures FailedStep(h + [now], i, heads, limit) {
      if i < |codes| {
        assert FailedStep(h, i, heads, limit);
      }
    }
  }

  // ---- exceptions that are not target failures break the bound ----

  /**
   * Main fails; the next start-up gets past main, which forgets that, and then ends in an exception on audit; and so
   * on. Failures then go on for as long as one likes, and no start-up is refused.
   */
  method FailForever(host: Host, heads: Target -> string, limit: nat, n: nat)
    returns (codes: seq<int>, ghost h: seq<Marks>)
    requires limit >= 2 && host.markers == map[]
    modifies host
    ensures |codes| == 2 * n && (forall i :: 0 <= i < 2 * n ==> codes[i] == 1) && host.markers == map[]
    ensures |h| == 2 * n + 1 && h[0] == map[] && h[2 * n] == host.markers
    ensures forall i :: 0 <= i < n ==> FailedRun(h[2 * i], h[2 * i + 1], heads, limit)
    ensures forall i :: 0 <= i < n ==> CrashedRun(h[2 * i + 1], h[2 * i + 2], heads, limit, 1)
  {
    codes, h := [], [map[]];
    var i := 0;
    while i < n
      invariant i <= n && |codes| == 2 * i && (forall j :: 0 <= j < 2 * i ==> codes[j] == 1)
      invariant host.markers == map[] && |h| == 2 * i + 1 && h[0] == map[] == h[2 * i]
      invariant forall j :: 0 <= j < i ==> FailedRun(h[2 * j], h[2 * j + 1], heads, limit)
      invariant forall j :: 0 <= j < i ==> CrashedRun(h[2 * j + 1], h[2 * j + 2], heads, limit, 1)
    {
      var code := FailOn(host, heads, limit, Main);
      ghost var once := host.markers;
      OnceIsLetThrough(once, heads, limit);
      codes := codes + [code];
      code := CrashAfter(host, heads, limit, 1);
      assert host.markers == map[];
      codes, h := codes + [code], h + [once, host.markers];
      i := i + 1;
    }
  }

  lemma OnceIsLetThrough(m: Marks, heads: Target -> string, limit: nat)
    requires limit >= 2 && FailureRecorded(map[], m, heads, Main)
    ensures !Refused(m, heads, limit) && FailedRun(map[], m, heads, limit)
    ensures forall after :: Forgotten(m, after, 1) ==> after == map[]
  {
  }

  ghost predicate SomeCrash(before: Marks, after: Marks, heads: Target -> string, limit: nat) {
    exists k: nat :: CrashedRun(before, after, heads, limit, k)
  }

  /** Start-ups one after the other, each failing on some target or ended by another exception. */
  ghost predicate AnyHistory(h: seq<Marks>, heads: Target -> string, limit: nat) {
    h != [] && forall i :: 0 <= i < |h| - 1 ==> AnyStep(h, i, heads, limit)
  }

  ghost predicate AnyStep(h: seq<Marks>, i: nat, heads: Target -> string, limit: nat)
    requires i + 1 < |h|
  {
    FailedRun(h[i], h[i + 1], heads, limit) || SomeCrash(h[i], h[i + 1], heads, limit)
  }

  /** The bound survives arbitrary exceptions if and only if the limit is one: then one failure is the last start-up. */
  lemma BoundSurvivesCrashes(heads: Target -> string, limit: nat)
    requires limit >= 1
    ensures (forall h :: AnyHistory(h, heads, limit) ==> Failures(h, heads, limit) <= Cube(limit)) <==> limit == 1
  {
    if limit == 1 {
      forall h | AnyHistory(h, heads, limit) ensures Failures(h, heads, limit) <= Cube(limit) {
        FirstFailureIsLast(h, heads, limit);
      }
    } else {
      var h := Alternation(Cube(limit) + 1, heads, limit);
    }
  }

  lemma {:induction false} FirstFailureIsLast(h: seq<Marks>, heads: Target -> string, limit: nat)
    requires limit == 1 && AnyHistory(h, heads, limit)
    ensures Failures(h, heads, limit) <= 1
    ensures Failures(h, heads, limit) == 1 ==> Refused(h[|h| - 1], heads, limit)
  {
    if |h| > 1 {
      var front := h[..|h| - 1];
      forall i | 0 <= i < |front| - 1 ensures AnyStep(front, i, heads, limit) {
        assert AnyStep(h, i, heads, limit);
      }
      FirstFailureIsLast(front, heads, limit);
      assert AnyStep(h, |h| - 2, heads, limit);
      if FailedRun(h[|h| - 2], h[|h| - 1], heads, limit) {
        var t :| FailureRecorded(h[|h| - 2], h[|h| - 1], heads, t);
        assert t in ORDER by { assert ORDER[Position(t)] == t; }
      }
    }
  }

  /** Main fails, then a crash after main forgets it, n times. */
  lemma {:induction false} Alternation(n: nat, heads: Target -> string, limit: nat) returns (h: seq<Marks>)
    requires limit >= 2
    ensures AnyHistory(h, heads, limit) && h[|h| - 1] == map[] && Failures(h, heads, limit) >= n
  {
    h := [map[]];
    if n > 0 {
      var front := Alternation(n - 1, heads, limit);
      var once := map[Main := Marker(heads(Main), 1)];
      assert FailureRecorded(map[], once, heads, Main);
      OnceIsLetThrough(once, heads, limit);
      OneMore(front, once, heads, limit);
      assert CrashedRun(once, map[], heads, limit, 1);
      OneMore(front + [once], map[], heads, limit);
      h := front + [once] + [map[]];
    }
  }

  lemma OneMore(h: seq<Marks>, now: Marks, heads: Target -> string, limit: nat)
    requires AnyHistory(h, heads, limit)
    requires FailedRun(h[|h| - 1], now, heads, limit) || SomeCrash(h[|h| - 1], now, heads, limit)
    ensures AnyHistory(h + [now], heads, limit)
    ensures Failures(h + [now], heads, limit)
         == Failures(h, heads, limit) + if FailedRun(h[|h| - 1], now, heads, limit) then 1 else 0
  {
    forall i | 0 <= i < |h + [now]| - 1 ensures AnyStep(h + [now], i, heads, limit) {
      assert i < |h| - 1 ==> AnyStep(h, i, heads, limit);
    }
    assert (h + [now])[..|h|] == h;
  }

  // ---- best-effort ----

  /**
   * With mode best-effort, a main database that is behind and cannot be backed up ends every start-up with code 1.
   * Nothing changes and nothing is counted, so no number of start-ups is ever refused.
   */
  method BestEffortNeverStarts(host: Host, policies: Policies, heads: Target -> string, events: Target -> Event,
                               restore: RestoreEvent, closing: Closing, n: nat)
    returns (codes: seq<int>)
    requires policies.mode == BestEffort && policies.retention >= 1 && policies.maxAttempts >= 1
    requires !Refused(host.markers, heads, policies.maxAttempts)
    requires !Fresh(host.databases.Of(Main)) && Pending(host.databases.Of(Main), heads(Main))
    requires events(Main).reachable && events(Main).backup == BackupRefused
    modifies host
    ensures |codes| == n && forall i :: 0 <= i < n ==> codes[i] == 1
    ensures host.databases == old(host.databases) && host.backups == old(host.backups)
      && host.markers == old(host.markers)
  {
    codes := [];
    while |codes| < n
      invariant |codes| <= n && forall i :: 0 <= i < |codes| ==> codes[i] == 1
      invariant host.databases == old(host.databases) && host.backups == old(host.backups)
        && host.markers == old(host.markers)
    {
      var code, _, _, s := host.Run(policies, heads, events, restore, closing);
      NothingHappens(s, code, host.databases, host.backups, host.markers);
      codes := codes + [code];
    }
  }

  lemma NothingHappens(s: Start, code: int, databases: Stores, backups: Shelves, markers: Marks)
    requires !s.On(Main).Fails() && s.On(Main).Made() == None && s.On(Main).After() == s.databases.main
    requires s.events(Main).backup == BackupRefused && s.CrashedAs(Main, code, databases, backups, markers)
    ensures databases == s.databases && backups == s.backups && markers == s.markers
  {
    forall t: Target ensures databases.Of(t) == s.databases.Of(t) && backups.Of(t) == s.backups.Of(t) {
      assert s.ShelvedAt(t, backups.Of(t), 0, 1);
    }
    SameOfAll(databases, s.databases);
    SameOfAll(backups, s.backups);
  }
}
