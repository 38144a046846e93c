/**
 Readiness: a registry of health checkers whose results are refreshed in cycles, and the verdict
 taken from them, against the full history of registrations and checks.
 */
module Health {
  import opened Base

  type Severity = int

  const CRITICAL: Severity := 0

  datatype Checker = Checker(name: string, severity: Severity)

  datatype Result = Result(name: string, severity: Severity, err: Option<string>, updatedAt: int, consecutiveFails: nat)

  /** What one call of a checker came back with, and when. */
  datatype Check = Check(err: Option<string>, at: int)

  datatype Event = Registered(c: Checker) | Checked(name: string, check: Check)

  // ----- the history ---------------------------------------------------------------------------

  predicate Known(log: seq<Event>, name: string) {
    exists i :: 0 <= i < |log| && log[i].Registered? && log[i].c.name == name
  }

  function SeverityOf(log: seq<Event>, name: string): Severity
    requires Known(log, name)
  {
    var last := log[|log| - 1];
    if last.Registered? && last.c.name == name then last.c.severity else SeverityOf(log[..|log| - 1], name)
  }

  /** The checks under a name since it was last registered. */
  function Checks(log: seq<Event>, name: string): seq<Check> {
    if log == [] then []
    else
      var rest := Checks(log[..|log| - 1], name);
      match log[|log| - 1]
      case Registered(c) => if c.name == name then [] else rest
      case Checked(n, check) => if n == name then rest + [check] else rest
  }

  function CheckersOf(log: seq<Event>): seq<Checker> {
    if log == [] then []
    else CheckersOf(log[..|log| - 1]) + (if log[|log| - 1].Registered? then [log[|log| - 1].c] else [])
  }

  function TrailingFails(cs: seq<Check>): nat {
    if cs == [] || cs[|cs| - 1].err.None? then 0 else TrailingFails(cs[..|cs| - 1]) + 1
  }

  function LastError(cs: seq<Check>): Option<string> { if cs == [] then None else cs[|cs| - 1].err }

  /** The source's criterion for a result that makes the service not ready. */
  predicate Failing(log: seq<Event>, name: string, limit: int) {
    && Known(log, name) && SeverityOf(log, name) == CRITICAL
    && LastError(Checks(log, name)).Some? && TrailingFails(Checks(log, name)) >= limit
  }

  /** The events of one cycle over a snapshot of the checkers. */
  function Cycle(checkers: seq<Checker>, checks: seq<Check>): (events: seq<Event>)
    requires |checks| == |checkers|
    ensures |events| == |checks|
  {
    seq(|checks|, i requires 0 <= i < |checks| => Checked(checkers[i].name, checks[i]))
  }

  predicate IsCheck(e: Event) { e.Checked? }

  predicate IsRegistration(e: Event) { e.Registered? }

  /** The registered checkers are those of the log's registrations, each one, in order. */
  lemma {:induction false} CheckersAreRegistered(log: seq<Event>)
    ensures |CheckersOf(log)| == |Filter(log, IsRegistration)|
    ensures forall i :: 0 <= i < |CheckersOf(log)| ==> Filter(log, IsRegistration)[i] == Registered(CheckersOf(log)[i])
  {
    if log != [] {
      var n := |log| - 1;
      CheckersAreRegistered(log[..n]);
      FilterSnoc(log, n, IsRegistration);
      assert log[..n + 1] == log;
    }
  }

  /** The name was last registered as critical, with severity zero. */
  predicate RegisteredCritical(log: seq<Event>, name: string) {
    exists k :: 0 <= k < |log| && log[k] == Registered(Checker(name, 0)) && NotAgain(log, name, k)
  }

  predicate NotAgain(log: seq<Event>, name: string, k: nat) {
    forall j :: k < j < |log| && log[j].Registered? ==> log[j].c.name != name
  }

  lemma {:induction false} SeverityIsLast(log: seq<Event>, name: string, k: nat)
    requires k < |log| && log[k].Registered? && log[k].c.name == name && NotAgain(log, name, k)
    ensures Known(log, name) && SeverityOf(log, name) == log[k].c.severity
  {
    if k < |log| - 1 {
      SeverityIsLast(log[..|log| - 1], name, k);
    }
  }

  function IsCheckOf(name: string): Event -> bool { (e: Event) => e.Checked? && e.name == name }

  lemma FilterOne(e: Event, p: Event -> bool)
    ensures Filter([e], p) == if p(e) then [e] else []
  {
    var none: seq<Event> := [];
    assert [e][1..] == none && Filter(none, p) == [];
  }

  lemma SinceSnoc(log: seq<Event>, name: string, k: nat)
    requires k < |log| - 1
    ensures Filter(log[k + 1..], IsCheckOf(name))
         == Filter(log[..|log| - 1][k + 1..], IsCheckOf(name))
            + (if log[|log| - 1].Checked? && log[|log| - 1].name == name then [log[|log| - 1]] else [])
  {
    var n := |log| - 1;
    assert log[k + 1..] == log[..n][k + 1..] + [log[n]];
    FilterConcat(log[..n][k + 1..], [log[n]], IsCheckOf(name));
    FilterOne(log[n], IsCheckOf(name));
  }

  /** The checks that count are those under the name behind its last registration. */
  lemma {:induction false} ChecksSince(log: seq<Event>, name: string, k: nat)
    requires k < |log| && log[k].Registered? && log[k].c.name == name && NotAgain(log, name, k)
    ensures var since := Filter(log[k + 1..], IsCheckOf(name));
            && |Checks(log, name)| == |since|
            && forall i :: 0 <= i < |since| ==> since[i] == Checked(name, Checks(log, name)[i])
  {
    if k < |log| - 1 {
      ChecksSince(log[..|log| - 1], name, k);
      SinceSnoc(log, name, k);
    } else {
      assert log[k + 1..] == [];
    }
  }

  /** The checks among the new events of a log that grew further. */
  lemma NewEvents(start: seq<Event>, before: seq<Event>, more: seq<Event>)
    requires start <= before
    ensures start <= before + more
    ensures Filter((before + more)[|start|..], IsCheck) == Filter(before[|start|..], IsCheck) + Filter(more, IsCheck)
  {
    assert (before + more)[|start|..] == before[|start|..] + more;
    FilterConcat(before[|start|..], more, IsCheck);
  }

  lemma CycleSnoc(checkers: seq<Checker>, checks: seq<Check>, check: Check, i: nat)
    requires |checks| == i < |checkers|
    ensures Cycle(checkers[..i + 1], checks + [check])
         == Cycle(checkers[..i], checks) + [Checked(checkers[i].name, check)]
  {
  }

  lemma TurnDone(start: seq<Event>, before: seq<Event>, now: seq<Event>, checkers: seq<Checker>, checks: seq<Check>,
                 check: Check, i: nat)
    requires |checks| == i < |checkers| && start <= before <= now
    requires Filter(before[|start|..], IsCheck) == Cycle(checkers[..i], checks)
    requires Filter(now[|before|..], IsCheck) == [Checked(checkers[i].name, check)]
    ensures Filter(now[|start|..], IsCheck) == Cycle(checkers[..i + 1], checks + [check])
  {
    NewEvents(start, before, now[|before|..]);
    assert before + now[|before|..] == now;
    CycleSnoc(checkers, checks, check, i);
  }

  /** Nobody registered a checker in between. */
  predicate Quiet(a: seq<Event>, b: seq<Event>) {
    a <= b && forall i :: |a| <= i < |b| ==> b[i].Checked?
  }

  /** Every check under the name in between failed. */
  predicate AllFailed(a: seq<Event>, b: seq<Event>, name: string) {
    forall i :: |a| <= i < |b| && b[i].Checked? && b[i].name == name ==> b[i].check.err.Some?
  }

  lemma QuietBefore(a: seq<Event>, b: seq<Event>, c: seq<Event>)
    requires a <= b <= c
    ensures Quiet(a, c) ==> Quiet(a, b) && Quiet(b, c)
  {
    assert forall i :: 0 <= i < |b| ==> b[i] == c[i];
  }

  lemma QuietCycle(before: seq<Event>, now: seq<Event>, checkers: seq<Checker>, checks: seq<Check>)
    requires Quiet(before, now) && |checks| == |checkers|
    requires Filter(now[|before|..], IsCheck) == Cycle(checkers, checks)
    ensures now == before + Cycle(checkers, checks)
  {
    FilterAll(now[|before|..], IsCheck);
    assert before + now[|before|..] == now;
  }

  lemma {:induction false} SameCheckers(a: seq<Event>, b: seq<Event>)
    requires Quiet(a, b)
    ensures CheckersOf(b) == CheckersOf(a)
    decreases |b|
  {
    if |a| < |b| {
      SameCheckers(a, b[..|b| - 1]);
    } else {
      assert a == b;
    }
  }

  // ----- the registry --------------------------------------------------------------------------

  predicate Agrees(r: Result, log: seq<Event>, name: string) {
    && Known(log, name) && r.name == name && r.severity == SeverityOf(log, name)
    && r.err == LastError(Checks(log, name)) && r.consecutiveFails == TrailingFails(Checks(log, name))
    && (Checks(log, name) != [] ==> r.updatedAt == Checks(log, name)[|Checks(log, name)| - 1].at)
  }

  ghost predicate Current(results: map<string, Result>, log: seq<Event>) {
    && (forall name :: name in results ==> Agrees(results[name], log, name))
    && (forall name :: Known(log, name) ==> name in results)
  }

  lemma AfterRegister(results: map<string, Result>, log: seq<Event>, c: Checker)
    requires Current(results, log)
    ensures Current(results[c.name := Result(c.name, c.severity, None, 0, 0)], log + [Registered(c)])
  {
    var next := log + [Registered(c)];
    assert next[..|log|] == log;
    forall name | name in results && name != c.name ensures Agrees(results[name], next, name) {
      KnownLater(log, Registered(c), name);
    }
    assert next[|log|] == Registered(c);
    assert Checks(next, c.name) == [];
  }

  lemma KnownLater(log: seq<Event>, e: Event, name: string)
    requires Known(log, name)
    ensures Known(log + [e], name)
  {
    var i :| 0 <= i < |log| && log[i].Registered? && log[i].c.name == name;
    assert (log + [e])[i] == log[i];
  }

  lemma KnownInLonger(log: seq<Event>, longer: seq<Event>, name: string)
    requires log <= longer && Known(log, name)
    ensures Known(longer, name)
  {
    var i :| 0 <= i < |log| && log[i].Registered? && log[i].c.name == name;
    assert longer[i] == log[i];
  }

  function Updated(r: Result, check: Check): Result {
    r.(updatedAt := check.at, err := check.err,
       consecutiveFails := if check.err.None? then 0 else r.consecutiveFails + 1)
  }

  lemma AfterCheck(results: map<string, Result>, log: seq<Event>, name: string, check: Check)
    requires Current(results, log) && name in results
    ensures Current(results[name := Updated(results[name], check)], log + [Checked(name, check)])
  {
    var next := log + [Checked(name, check)];
    assert next[..|log|] == log;
    forall n | n in results ensures Agrees(if n == name then Updated(results[n], check) else results[n], next, n) {
      assert Agrees(results[n], log, n);
      KnownLater(log, Checked(name, check), n);
      var cs := Checks(log, n);
      if n == name {
        assert Checks(next, n) == cs + [check] && (cs + [check])[..|cs|] == cs;
      }
    }
    assert forall n :: Known(next, n) ==> Known(log, n);
  }

  lemma CheckersStay(log: seq<Event>, name: string, check: Check)
    ensures CheckersOf(log + [Checked(name, check)]) == CheckersOf(log)
  {
    assert (log + [Checked(name, check)])[..|log|] == log;
  }

  class Registry {
    const failureLimit: int
    var checkers: seq<Checker>
    var results: map<string, Result>
    ghost var log: seq<Event>

    ghost predicate Valid()
      reads this
    {
      checkers == CheckersOf(log) && Current(results, log)
    }

    constructor (failureLimit: int)
      ensures Valid() && log == [] && this.failureLimit == failureLimit
    {
      this.failureLimit, checkers, results, log := failureLimit, [], map[], [];
    }

    method Register(c: Checker)
      requires Valid()
      modifies this
      ensures Valid() && log == old(log) + [Registered(c)]
      ensures checkers == old(checkers) + [c]
      ensures results == old(results)[c.name := Result(c.name, c.severity, None, 0, 0)]
    {
      AfterRegister(results, log, c);
      checkers := checkers + [c];
      results := results[c.name := Result(c.name, c.severity, None, 0, 0)];
      assert (log + [Registered(c)])[..|log|] == log;
      log := log + [Registered(c)];
    }

    /** What a cycle does under the lock for one checker. */
    method Record(name: string, check: Check)
      requires Valid() && Known(log, name)
      modifies this
      ensures Valid() && checkers == old(checkers) && log == old(log) + [Checked(name, check)]
    {
      ghost var next := Updated(results[name], check);
      AfterCheck(results, log, name, check);
      CheckersStay(log, name, check);
      var res := results[name];
      res := res.(updatedAt := check.at, err := check.err);
      if check.err.None? {
        res := res.(consecutiveFails := 0);
      } else {
        res := res.(consecutiveFails := res.consecutiveFails + 1);
      }
      assert res == next;
      results := results[name := res];
      log := log + [Checked(name, check)];
    }

    /** Registrations by others, while a checker runs without the lock. */
    method Interfere()
      requires Valid()
      modifies this
      ensures Valid() && old(log) <= log && Filter(log[|old(log)|..], IsCheck) == []
    {
      var n: nat := *;
      assert log[|log|..] == [];
      while n > 0
        invariant Valid() && old(log) <= log && Filter(log[|old(log)|..], IsCheck) == []
      {
        var c: Checker := *;
        ghost var before := log;
        Register(c);
        NewEvents(old(log), before, [Registered(c)]);
        n := n - 1;
      }
    }

    /** The turn of one checker: what others do while it runs, then its record. */
    method RunOne(name: string, check: Check)
      requires Valid() && Known(log, name)
      modifies this
      ensures Valid() && old(log) <= log
      ensures Filter(log[|old(log)|..], IsCheck) == [Checked(name, check)]
    {
      Interfere();
      KnownInLonger(old(log), log, name);
      ghost var unlocked := log;
      Record(name, check);
      NewEvents(old(log), unlocked, [Checked(name, check)]);
    }

    /**
     One cycle over a snapshot of the checkers, with registrations by others in between; `checks` is
     what the calls of the checkers came back with: one call for each registration so far, in order.
     */
    method RunAll() returns (checks: seq<Check>)
      requires Valid()
      modifies this
      ensures Valid() && old(log) <= log && |checks| == |old(checkers)|
      ensures Filter(log[|old(log)|..], IsCheck) == Cycle(old(checkers), checks)
      ensures |checks| == |Filter(old(log), IsRegistration)|
      ensures forall i :: 0 <= i < |checks| ==>
                var e := Filter(old(log), IsRegistration)[i];
                e.Registered? && Filter(log[|old(log)|..], IsCheck)[i] == Checked(e.c.name, checks[i])
    {
      var snapshot := checkers;
      ghost var before := log;
      CheckersAreRegistered(before);
      assert log[|log|..] == [];
      checks := [];
      for i := 0 to |snapshot|
        invariant Valid() && before <= log && |checks| == i
        invariant Filter(log[|before|..], IsCheck) == Cycle(snapshot[..i], checks)
      {
        CheckersAreKnown(before, i);
        KnownInLonger(before, log, snapshot[i].name);
        ghost var turn := log;
        var check: Check := *;
        RunOne(snapshot[i].name, check);
        TurnDone(before, turn, log, snapshot, checks, check, i);
        checks := checks + [check];
      }
      assert snapshot[..|snapshot|] == snapshot;
    }

    /** The refresher's loop, for any number of cycles; `rounds` are their checks. */
    method Refresh(cycles: nat) returns (rounds: seq<seq<Check>>)
      requires Valid()
      modifies this
      ensures Valid() && old(log) <= log && |rounds| == cycles
      ensures Quiet(old(log), log) ==>
                && (forall r :: r in rounds ==> |r| == |old(checkers)|)
                && log == AfterCycles(old(log), old(checkers), rounds)
      ensures forall name, limit: nat ::
                (RegisteredCritical(old(log), name) && Quiet(old(log), log) && 1 <= limit <= cycles
                 && AllFailed(old(log), log, name)) ==> Failing(log, name, limit)
    {
      rounds := [];
      ghost var before, snapshot := log, checkers;
      assert log[|log|..] == [];
      for i := 0 to cycles
        invariant Valid() && before <= log && |rounds| == i
        invariant Quiet(before, log) ==>
                    && checkers == snapshot && (forall r :: r in rounds ==> |r| == |snapshot|)
                    && log == AfterCycles(before, snapshot, rounds)
      {
        ghost var turn := log;
        ghost var was := checkers;
        var checks := RunAll();
        QuietBefore(before, turn, log);
        if Quiet(before, log) {
          QuietCycle(turn, log, was, checks);
          SameCheckers(before, log);
          OneMoreRound(before, snapshot, rounds, checks);
        }
        rounds := rounds + [checks];
      }
      forall name, limit: nat | RegisteredCritical(before, name) && Quiet(before, log) && 1 <= limit <= cycles
                                && AllFailed(before, log, name)
        ensures Failing(log, name, limit)
      {
        FailsThroughout(before, snapshot, rounds, name, limit);
      }
    }

    method Ready() returns (ok: bool)
      requires Valid()
      ensures ok <==> forall name :: !Failing(log, name, failureLimit)
    {
      var names := results.Keys;
      while names != {}
        invariant names <= results.Keys
        invariant forall name :: name in results && name !in names ==> !Failing(log, name, failureLimit)
        decreases |names|
      {
        var name :| name in names;
        names := names - {name};
        var res := results[name];
        assert Agrees(res, log, name);
        if res.severity != CRITICAL {
          continue;
        }
        if res.err.Some? && res.consecutiveFails >= failureLimit {
          assert Failing(log, name, failureLimit);
          return false;
        }
      }
      ok := true;
    }
  }

  lemma {:induction false} CheckersAreKnown(log: seq<Event>, i: nat)
    requires i < |CheckersOf(log)|
    ensures Known(log, CheckersOf(log)[i].name)
  {
    var rest := log[..|log| - 1];
    if i < |CheckersOf(rest)| {
      CheckersAreKnown(rest, i);
      KnownLater(rest, log[|log| - 1], CheckersOf(rest)[i].name);
      assert rest + [log[|log| - 1]] == log;
    } else {
      assert log[|log| - 1].Registered?;
    }
  }

  // ----- the verdict against the history ---------------------------------------------------------

  predicate LastFailed(cs: seq<Check>, k: nat) { |cs| >= k && forall i :: |cs| - k <= i < |cs| ==> cs[i].err.Some? }

  lemma {:induction false} TrailingIsLast(cs: seq<Check>, k: nat)
    ensures TrailingFails(cs) >= k <==> LastFailed(cs, k)
  {
    if k > 0 && cs != [] {
      var rest := cs[..|cs| - 1];
      TrailingIsLast(rest, k - 1);
      if LastFailed(cs, k) {
        assert forall i :: |rest| - (k - 1) <= i < |rest| ==> rest[i] == cs[i];
      } else if cs[|cs| - 1].err.Some? && LastFailed(rest, k - 1) {
        assert forall i :: 0 <= i < |rest| ==> cs[i] == rest[i];
      }
    }
  }

  /**
   A name makes the service not ready exactly when it is critical and its last `limit` checks all
   failed; with a limit below one, its last check.
   */
  lemma FailingIff(log: seq<Event>, name: string, limit: int)
    requires Known(log, name)
    ensures Failing(log, name, limit) <==>
            SeverityOf(log, name) == 0 && LastFailed(Checks(log, name), if limit < 1 then 1 else limit)
  {
    var cs := Checks(log, name);
    TrailingIsLast(cs, 1);
    TrailingIsLast(cs, if limit < 1 then 1 else limit);
  }

  // ----- cycles ----------------------------------------------------------------------------------

  /** How often a name is registered. */
  function Copies(checkers: seq<Checker>, name: string): nat {
    if checkers == [] then 0
    else Copies(checkers[..|checkers| - 1], name) + (if checkers[|checkers| - 1].name == name then 1 else 0)
  }

  /** The log after cycles over the same checkers. */
  function AfterCycles(log: seq<Event>, checkers: seq<Checker>, rounds: seq<seq<Check>>): seq<Event>
    requires forall r :: r in rounds ==> |r| == |checkers|
  {
    if rounds == [] then log
    else AfterCycles(log, checkers, rounds[..|rounds| - 1]) + Cycle(checkers, rounds[|rounds| - 1])
  }

  predicate AllFail(checkers: seq<Checker>, checks: seq<Check>, name: string)
    requires |checks| == |checkers|
  {
    forall i :: 0 <= i < |checks| && checkers[i].name == name ==> checks[i].err.Some?
  }

  lemma OneMoreCheck(log: seq<Event>, n: string, check: Check, name: string)
    ensures Checks(log + [Checked(n, check)], name) == Checks(log, name) + (if n == name then [check] else [])
    ensures Known(log, name) ==>
              var next := log + [Checked(n, check)];
              Known(next, name) && SeverityOf(next, name) == SeverityOf(log, name)
  {
    assert (log + [Checked(n, check)])[..|log|] == log;
    if Known(log, name) {
      KnownLater(log, Checked(n, check), name);
    }
  }

  lemma TrailingSnoc(cs: seq<Check>, check: Check)
    requires check.err.Some?
    ensures TrailingFails(cs + [check]) == TrailingFails(cs) + 1
  {
    assert (cs + [check])[..|cs|] == cs;
  }

  lemma {:induction false} FailingCycle(log: seq<Event>, checkers: seq<Checker>, checks: seq<Check>, name: string,
                                        n: nat)
    requires |checks| == |checkers| && AllFail(checkers, checks, name) && n <= |checks|
    ensures TrailingFails(Checks(log + Cycle(checkers, checks)[..n], name))
         == TrailingFails(Checks(log, name)) + Copies(checkers[..n], name)
  {
    if n == 0 {
      assert log + Cycle(checkers, checks)[..0] == log;
    } else {
      FailingCycle(log, checkers, checks, name, n - 1);
      SplitCycle(log, checkers, checks, n);
      FailingCheck(log + Cycle(checkers, checks)[..n - 1], checkers[n - 1].name, checks[n - 1], name);
      assert checkers[..n][..n - 1] == checkers[..n - 1];
    }
  }

  lemma FailingCheck(log: seq<Event>, n: string, check: Check, name: string)
    requires n == name ==> check.err.Some?
    ensures TrailingFails(Checks(log + [Checked(n, check)], name))
         == TrailingFails(Checks(log, name)) + (if n == name then 1 else 0)
  {
    OneMoreCheck(log, n, check, name);
    if n == name {
      TrailingSnoc(Checks(log, name), check);
    }
  }

  lemma SplitCycle(log: seq<Event>, checkers: seq<Checker>, checks: seq<Check>, n: nat)
    requires |checks| == |checkers| && 0 < n <= |checks|
    ensures log + Cycle(checkers, checks)[..n]
         == (log + Cycle(checkers, checks)[..n - 1]) + [Checked(checkers[n - 1].name, checks[n - 1])]
  {
  }

  lemma {:induction false} CycleKeepsSeverity(log: seq<Event>, checkers: seq<Checker>, checks: seq<Check>,
                                              name: string, n: nat)
    requires |checks| == |checkers| && n <= |checks| && Known(log, name)
    ensures Known(log + Cycle(checkers, checks)[..n], name)
    ensures SeverityOf(log + Cycle(checkers, checks)[..n], name) == SeverityOf(log, name)
  {
    if n == 0 {
      assert log + Cycle(checkers, checks)[..0] == log;
    } else {
      CycleKeepsSeverity(log, checkers, checks, name, n - 1);
      SplitCycle(log, checkers, checks, n);
      OneMoreCheck(log + Cycle(checkers, checks)[..n - 1], checkers[n - 1].name, checks[n - 1], name);
    }
  }

  lemma {:induction false} CyclesKeepSeverity(log: seq<Event>, checkers: seq<Checker>, rounds: seq<seq<Check>>,
                                              name: string)
    requires Known(log, name) && forall r :: r in rounds ==> |r| == |checkers|
    ensures Known(AfterCycles(log, checkers, rounds), name)
    ensures SeverityOf(AfterCycles(log, checkers, rounds), name) == SeverityOf(log, name)
  {
    if rounds != [] {
      var n := |rounds| - 1;
      CyclesKeepSeverity(log, checkers, rounds[..n], name);
      CycleKeepsSeverity(AfterCycles(log, checkers, rounds[..n]), checkers, rounds[n], name, |rounds[n]|);
      assert Cycle(checkers, rounds[n])[..|rounds[n]|] == Cycle(checkers, rounds[n]);
    }
  }

  lemma {:induction false} FailingCycles(log: seq<Event>, checkers: seq<Checker>, rounds: seq<seq<Check>>, name: string)
    requires forall r :: r in rounds ==> |r| == |checkers| && AllFail(checkers, r, name)
    ensures TrailingFails(Checks(AfterCycles(log, checkers, rounds), name))
         == TrailingFails(Checks(log, name)) + |rounds| * Copies(checkers, name)
  {
    if rounds != [] {
      var n := |rounds| - 1;
      FailingCycles(log, checkers, rounds[..n], name);
      WholeFailingCycle(AfterCycles(log, checkers, rounds[..n]), checkers, rounds[n], name);
      Distribute(n, Copies(checkers, name));
    }
  }

  lemma WholeFailingCycle(log: seq<Event>, checkers: seq<Checker>, checks: seq<Check>, name: string)
    requires |checks| == |checkers| && AllFail(checkers, checks, name)
    ensures TrailingFails(Checks(log + Cycle(checkers, checks), name))
         == TrailingFails(Checks(log, name)) + Copies(checkers, name)
  {
    FailingCycle(log, checkers, checks, name, |checks|);
    assert Cycle(checkers, checks)[..|checks|] == Cycle(checkers, checks) && checkers[..|checks|] == checkers;
  }

  lemma Distribute(k: nat, m: nat)
    ensures (k + 1) * m == k * m + m
  {
  }

  function Counter(cycles: nat, copies: nat): nat { cycles * copies }

  /** A critical name that was just registered makes the service not ready once its counter is at the limit. */
  lemma FlipsAfter(log: seq<Event>, checkers: seq<Checker>, rounds: seq<seq<Check>>, name: string, limit: nat)
    requires Known(log, name) && SeverityOf(log, name) == CRITICAL && Checks(log, name) == [] && limit >= 1
    requires forall r :: r in rounds ==> |r| == |checkers| && AllFail(checkers, r, name)
    ensures Failing(AfterCycles(log, checkers, rounds), name, limit) <==>
            Counter(|rounds|, Copies(checkers, name)) >= limit
  {
    var after := AfterCycles(log, checkers, rounds);
    CyclesKeepSeverity(log, checkers, rounds, name);
    assert TrailingFails(Checks(after, name)) == Counter(|rounds|, Copies(checkers, name)) by {
      FailingCycles(log, checkers, rounds, name);
    }
    assert TrailingFails(Checks(after, name)) >= 1 ==> LastError(Checks(after, name)).Some?;
  }

  /** The counter reaches the limit after exactly `limit` failing cycles. */
  ghost predicate CountsCycles(copies: nat, limit: nat) {
    forall cycles: nat :: Counter(cycles, copies) >= limit <==> cycles >= limit
  }

  /**
   The counter is documented as a number of cycles. Two checkers under one name both feed it, so
   it is one exactly for a name registered once, or with a limit of one.
   */
  lemma CountsCyclesIff(copies: nat, limit: nat)
    requires copies >= 1 && limit >= 1
    ensures CountsCycles(copies, limit) <==> copies == 1 || limit == 1
  {
    if copies == 1 || limit == 1 {
      forall cycles: nat ensures Counter(cycles, copies) >= limit <==> cycles >= limit {
        if cycles >= 1 {
          AtLeastOnce(cycles, copies);
        }
      }
    } else {
      AtLeastTwice(limit - 1, copies);
      assert Counter(limit - 1, copies) >= limit;
    }
  }

  lemma AtLeastOnce(k: nat, m: nat)
    requires m >= 1
    ensures Counter(k, m) >= k
    ensures m == 1 ==> Counter(k, m) == k
  {
    assert k * m == k * (m - 1) + k;
  }

  lemma AtLeastTwice(k: nat, m: nat)
    requires m >= 2
    ensures Counter(k, m) >= 2 * k
  {
    assert k * m == k * (m - 2) + 2 * k;
  }

  // ----- a critical checker that keeps failing -------------------------------------------------------

  lemma OneMoreRound(log: seq<Event>, checkers: seq<Checker>, rounds: seq<seq<Check>>, checks: seq<Check>)
    requires (forall r :: r in rounds ==> |r| == |checkers|) && |checks| == |checkers|
    ensures forall r :: r in rounds + [checks] ==> |r| == |checkers|
    ensures AfterCycles(log, checkers, rounds + [checks])
         == AfterCycles(log, checkers, rounds) + Cycle(checkers, checks)
  {
    assert (rounds + [checks])[..|rounds|] == rounds;
  }

  /** The checks of a round are among the events. */
  lemma {:induction false} RoundsFail(log: seq<Event>, checkers: seq<Checker>, rounds: seq<seq<Check>>, name: string)
    requires forall r :: r in rounds ==> |r| == |checkers|
    requires AllFailed(log, AfterCycles(log, checkers, rounds), name)
    ensures log <= AfterCycles(log, checkers, rounds)
    ensures forall r :: r in rounds ==> AllFail(checkers, r, name)
  {
    if rounds != [] {
      var n := |rounds| - 1;
      var before := AfterCycles(log, checkers, rounds[..n]);
      var after := AfterCycles(log, checkers, rounds);
      var events := Cycle(checkers, rounds[n]);
      assert after == before + events;
      assert forall i :: 0 <= i < |before| ==> after[i] == before[i];
      RoundsFail(log, checkers, rounds[..n], name);
      forall i | 0 <= i < |events| && checkers[i].name == name ensures rounds[n][i].err.Some? {
        assert after[|before| + i] == events[i];
      }
    }
  }

  /** A registered name has a checker. */
  lemma {:induction false} RegisteredIsCopied(log: seq<Event>, name: string, k: nat)
    requires k < |log| && log[k].Registered? && log[k].c.name == name
    ensures Copies(CheckersOf(log), name) >= 1
  {
    var n := |log| - 1;
    var rest := CheckersOf(log[..n]);
    if k < n {
      RegisteredIsCopied(log[..n], name, k);
    }
    if log[n].Registered? {
      assert CheckersOf(log) == rest + [log[n].c];
      assert CheckersOf(log)[..|rest|] == rest;
    } else {
      assert CheckersOf(log) == rest;
    }
  }

  /** Then the service is not ready after as many cycles as the limit, whatever happened before. */
  lemma FailsThroughout(log: seq<Event>, checkers: seq<Checker>, rounds: seq<seq<Check>>, name: string, limit: nat)
    requires checkers == CheckersOf(log) && RegisteredCritical(log, name) && 1 <= limit <= |rounds|
    requires forall r :: r in rounds ==> |r| == |checkers|
    requires AllFailed(log, AfterCycles(log, checkers, rounds), name)
    ensures Failing(AfterCycles(log, checkers, rounds), name, limit)
  {
    var k :| 0 <= k < |log| && log[k] == Registered(Checker(name, 0)) && NotAgain(log, name, k);
    SeverityIsLast(log, name, k);
    RegisteredIsCopied(log, name, k);
    RoundsFail(log, checkers, rounds, name);
    FailingCycles(log, checkers, rounds, name);
    CyclesKeepSeverity(log, checkers, rounds, name);
    AtLeastOnce(|rounds|, Copies(checkers, name));
    assert |rounds| * Copies(checkers, name) == Counter(|rounds|, Copies(checkers, name));
  }
}
