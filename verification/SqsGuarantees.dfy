/** What holds of the three queues however their producers, consumers and the service interleave and fail. */
module SqsGuarantees {
  import opened Base
  import opened GoStrings
  import opened Headers
  import opened Routing
  import opened SqsBroker
  import opened SqsClient
  import Backoff
  import Steps
  import A = SqsAttributes
  import P = Protocol

  /** Every state that a run of concrete steps leads to abstracts to a reachable state of the protocol. */
  lemma RefinesProtocol(sys: Setup, st: St)
    requires sys.Good() && Runs(sys, Start(), st)
    ensures Inv(sys, st)
    ensures P.Reaches(sys.Protocol(), P.Empty(), Abs(sys, st)) && P.Inv(sys.Protocol(), Abs(sys, st))
  {
    assert Abs(sys, Start()) == P.Empty() by {
      assert Abs(sys, Start()).copies == map[];
    }
    RunsKeep(sys, Start(), st);
    P.ReachesKeepsInv(sys.Protocol(), P.Empty<nat, map<string, string>>(), Abs(sys, st));
  }

  /** A message has an identity that every read returns. */
  predicate HasIdentity(m: A.Attrs) {
    A.PlainFor(m, IDEMPOTENCY_KEY) && A.ReadPlain(m, IDEMPOTENCY_KEY) != ""
  }

  /** A message carries what the original message `o` carried; in the DLQ its body may be cut. */
  predicate Carries(sys: Setup, st: St, c: nat, o: nat)
    requires c in st.log && o in st.log
  {
    var a, b := st.log[o], st.log[c];
    && A.App(b.attrs) == A.App(a.attrs)
    && (HasIdentity(a.attrs) ==>
          && HasIdentity(b.attrs)
          && A.ReadPlain(b.attrs, "x-idempotency-key") == A.ReadPlain(a.attrs, "x-idempotency-key"))
    && b.body == (if b.url == sys.DlqURL() then Cut(a.body, sys.Cfg().dlqMaxPayloadBytes) else a.body)
  }

  predicate IsOriginal(st: St, o: nat) { o in st.log && o in st.meta && st.meta[o].origin == o }

  lemma FaithfulCarries(sys: Setup, st: St, c: nat, o: nat)
    requires sys.Good() && Inv(sys, st) && c in st.log && o in st.log
    requires P.Faithful(sys.Protocol(), Abs(sys, st).copies[c], Abs(sys, st).copies[o])
    ensures Carries(sys, st, c, o)
  {
    CopyCarries(sys, st.log[c], st.meta[c], st.log[o], st.meta[o]);
  }

  lemma CopyCarries(sys: Setup, b: Msg, bMeta: Meta, a: Msg, aMeta: Meta)
    requires sys.Good() && sys.Known(b.url)
    requires P.Faithful(sys.Protocol(), AbsCopy(sys, b, bMeta), AbsCopy(sys, a, aMeta))
    ensures A.App(b.attrs) == A.App(a.attrs)
    ensures HasIdentity(a.attrs) ==>
              HasIdentity(b.attrs) && A.ReadPlain(b.attrs, IDEMPOTENCY_KEY) == A.ReadPlain(a.attrs, IDEMPOTENCY_KEY)
    ensures b.body == (if b.url == sys.DlqURL() then Cut(a.body, sys.Cfg().dlqMaxPayloadBytes) else a.body)
  {
    PlaceOfDlq(sys, b.url);
  }

  lemma PlaceOfDlq(sys: Setup, url: string)
    requires sys.Good() && sys.Known(url)
    ensures sys.Place(url) == P.Dlq <==> url == sys.DlqURL()
  {
    QueuesClosed(sys.Main(), sys.Sfx());
  }

  /**
   No loss: in every reachable state, every message published to the main queue was handled, or a
   message that carries its identity, its string attributes and its body is still deliverable
   from the main or retry queue or sits in the DLQ with the body's prefix.
   */
  lemma NoLoss(sys: Setup, st: St, o: nat)
    requires sys.Good() && Runs(sys, Start(), st)
    requires IsOriginal(st, o) && o !in st.handled
    ensures exists c :: c in st.live && c in st.log && c in st.meta && st.meta[c].origin == o && Carries(sys, st, c, o)
  {
    RefinesProtocol(sys, st);
    var a := Abs(sys, st);
    P.NoLoss(sys.Protocol(), a, o);
    var c :| c in a.live && c in a.copies && a.copies[c].origin == o
             && P.Faithful(sys.Protocol(), a.copies[c], a.copies[o]);
    FaithfulCarries(sys, st, c, o);
  }

  /** Every message in the three queues descends from one original and carries it. */
  lemma NothingInvented(sys: Setup, st: St, c: nat)
    requires sys.Good() && Runs(sys, Start(), st) && c in st.log
    ensures c in st.meta && IsOriginal(st, st.meta[c].origin) && Carries(sys, st, c, st.meta[c].origin)
    ensures sys.Known(st.log[c].url)
  {
    RefinesProtocol(sys, st);
    var a := Abs(sys, st);
    assert P.IsOrigin(a, a.copies[c].origin);
    FaithfulCarries(sys, st, c, st.meta[c].origin);
  }

  /** A dead-lettered message stays. */
  lemma DeadLettersStay(sys: Setup, st: St, c: nat)
    requires sys.Good() && Runs(sys, Start(), st) && c in st.log && st.log[c].url == sys.DlqURL()
    ensures c in st.live && c !in st.settled
  {
    RefinesProtocol(sys, st);
    QueuesClosed(sys.Main(), sys.Sfx());
    assert Abs(sys, st).copies[c].place == P.Dlq;
  }

  // ----- what every copy says of its original ---------------------------------------------------

  /** Every read of the counter returns one. */
  predicate CountsOne(m: A.Attrs) { A.PlainFor(m, RETRY_COUNT) && ParseCount(A.ReadPlain(m, RETRY_COUNT)) == 1 }

  /** Some read of the counter returns the budget or more. */
  ghost predicate CountsTo(sys: Setup, m: A.Attrs) { exists n: nat :: A.IsCount(m, n) && n >= sys.Cfg().maxRetries }

  predicate IsOverBudget(m: A.Attrs) { |A.Passing(m)| >= 7 }

  /** A copy outside the DLQ counts one; what it tells of the message `a` that it descends from. */
  ghost predicate Tells(sys: Setup, c: nat, b: Msg, meta: Meta, a: Msg) {
    && (meta.why == P.Fresh <==> meta.origin == c)
    && (meta.why == P.Fresh ==> b.url == sys.Main())
    && (meta.why != P.Fresh && b.url != sys.DlqURL() ==> CountsOne(b.attrs))
    && (meta.why == P.Exhausted ==> sys.Cfg().maxRetries == 1 || CountsTo(sys, a.attrs))
    && (IsOverBudget(a.attrs) ==> meta.origin == c)
  }

  ghost predicate AllTell(sys: Setup, st: St) {
    && st.log.Keys == st.meta.Keys
    && forall c :: c in st.log ==> TellsIn(sys, st, c)
  }

  ghost predicate TellsIn(sys: Setup, st: St, c: nat)
    requires c in st.log && c in st.meta
  {
    st.meta[c].origin in st.log && Tells(sys, c, st.log[c], st.meta[c], st.log[st.meta[c].origin])
  }

  /** The counter of a message that is sent. */
  lemma SentCount(sys: Setup, src: Msg, msg: Msg, cause: Cause)
    requires sys.Good() && MaySend(sys, src, msg, cause)
    ensures cause.move.ToRetry? ==> CountsOne(msg.attrs)
    ensures cause.move.BackToMain? && CountsOne(src.attrs) ==> CountsOne(msg.attrs)
    ensures CountsOne(src.attrs) ==> cause.count == 1
    ensures !IsOverBudget(src.attrs)
  {
    A.HopKeeps(src.attrs, cause.move, cause.key, cause.inj);
    if CountsOne(src.attrs) {
      A.PlainCount(src.attrs, cause.count);
    }
    A.BudgetIff(src.attrs, cause.move);
  }

  lemma SendTells(sys: Setup, st: St, from: nat, c: nat, msg: Msg, cause: Cause)
    requires sys.Good() && AllTell(sys, st) && from in st.log && c !in st.log && MaySend(sys, st.log[from], msg, cause)
    ensures Tells(sys, c, msg, MovedMeta(st.meta[from], cause), st.log[st.meta[from].origin])
  {
    var src := st.log[from];
    SentCount(sys, src, msg, cause);
    SendBody(sys, src, msg, cause);
    SendPlaces(sys, src, msg, cause);
    QueuesClosed(sys.Main(), sys.Sfx());
    assert TellsIn(sys, st, from);
    if cause.why == P.Exhausted && st.meta[from].why == P.Fresh {
      assert A.IsCount(src.attrs, cause.count) && cause.count >= sys.Cfg().maxRetries;
    }
  }

  lemma AppendTells(sys: Setup, st: St, c: nat, msg: Msg, meta: Meta)
    requires AllTell(sys, st) && c !in st.log && (meta.origin == c || meta.origin in st.log)
    requires Tells(sys, c, msg, meta, if meta.origin == c then msg else st.log[meta.origin])
    ensures AllTell(sys, Appended(st, c, msg, meta))
  {
    var b := Appended(st, c, msg, meta);
    forall k | k in b.log ensures TellsIn(sys, b, k) {
      if k != c {
        OldTells(sys, st, c, msg, meta, k);
      }
    }
  }

  lemma OldTells(sys: Setup, st: St, c: nat, msg: Msg, meta: Meta, k: nat)
    requires st.log.Keys == st.meta.Keys && c !in st.log && k in st.log && TellsIn(sys, st, k)
    ensures TellsIn(sys, Appended(st, c, msg, meta), k)
  {
    var b := Appended(st, c, msg, meta);
    assert b.log[k] == st.log[k] && b.meta[k] == st.meta[k];
  }

  lemma StepKeepsTelling(sys: Setup, st: St, step: Step)
    requires sys.Good() && AllTell(sys, st) && Enabled(sys, st, step)
    ensures AllTell(sys, Apply(sys, st, step))
  {
    match step
    case Originate(c, body, attrs) =>
      AppendTells(sys, st, c, Msg(sys.Main(), body, attrs, 0), Meta(c, 0, P.Fresh));
    case Send(from, c, msg, cause, _) =>
      SendTells(sys, st, from, c, msg, cause);
      assert TellsIn(sys, st, from);
      AppendTells(sys, st, c, msg, MovedMeta(st.meta[from], cause));
    case _ =>
  }

  lemma RunsTell(sys: Setup, st: St)
    requires sys.Good() && Runs(sys, Start(), st)
    ensures AllTell(sys, st)
  {
    var holds := (s: St) => AllTell(sys, s);
    forall s, step | holds(s) && Take(sys)(s, step).Some? ensures holds(Take(sys)(s, step).value) {
      StepKeepsTelling(sys, s, step);
    }
    Steps.ReachesKeeps(Take(sys), holds, Start(), st);
  }

  /**
   In every run a message is dead-lettered for its budget only if the budget is one, or some read of
   its original's counter returned the budget or more.
   */
  lemma ExhaustedOnlyIf(sys: Setup, st: St, c: nat)
    requires sys.Good() && Runs(sys, Start(), st) && IsExhausted(st, c)
    ensures IsOriginal(st, st.meta[c].origin)
    ensures sys.Cfg().maxRetries == 1 || CountsTo(sys, st.log[st.meta[c].origin].attrs)
  {
    RunsTell(sys, st);
    NothingInvented(sys, st, c);
  }

  /**
   A message over the attribute budget stays what it is: in every run it has no other copy, and until
   it is handled it is live and unsettled on the main queue.
   */
  lemma OverBudgetStays(sys: Setup, st: St, o: nat)
    requires sys.Good() && Runs(sys, Start(), st) && IsOriginal(st, o) && IsOverBudget(st.log[o].attrs)
    ensures forall c :: c in st.log && c in st.meta && st.meta[c].origin == o ==> c == o
    ensures st.log[o].url == sys.Main() && (o in st.handled || (o in st.live && o !in st.settled))
  {
    RunsTell(sys, st);
    forall c | c in st.log && c in st.meta && st.meta[c].origin == o ensures c == o {
      assert TellsIn(sys, st, c);
    }
    assert TellsIn(sys, st, o);
    if o !in st.handled {
      var c := SomePending(sys, st, o);
    }
  }

  lemma SomePending(sys: Setup, st: St, o: nat) returns (c: nat)
    requires sys.Good() && Runs(sys, Start(), st) && IsOriginal(st, o) && o !in st.handled
    ensures c in st.live && c !in st.settled && c in st.log && c in st.meta && st.meta[c].origin == o
  {
    RefinesProtocol(sys, st);
    var a := Abs(sys, st);
    assert P.IsOrigin(a, o) && P.Pending(a, o);
    c :| c in a.live && c !in a.settled && c in a.copies && a.copies[c].origin == o;
  }

  /**
   The delay of a later retry never grows: a message that was moved to retry and back waits
   twice the base, up to the cap, whatever its history.
   */
  lemma LaterDelayIsConstant(sys: Setup, m: A.Attrs, back: A.Attrs, key: string, inj: map<string, string>,
                             count: nat, key': string, inj': map<string, string>, n: nat)
    requires A.IsIdentity(m, A.ToRetry, key) && A.IsInjection(inj, A.Forward(A.Prepared(m, A.ToRetry)))
    requires var retry := A.Moved(m, A.ToRetry, key, inj);
             && A.IsCount(retry, count) && A.IsIdentity(retry, A.BackToMain(count), key')
             && A.IsInjection(inj', A.Forward(A.Prepared(retry, A.BackToMain(count))))
             && back == A.Moved(retry, A.BackToMain(count), key', inj')
    requires A.IsCount(back, n) && sys.Cfg().backoffBase < 0x8000_0000_0000
    ensures n == 1
    ensures DelayOf(sys.Cfg(), A.ToRetry, n)
         == Min(Min(sys.Cfg().backoffMax, 900_000_000_000), 2 * sys.Cfg().backoffBase) / 1_000_000_000
  {
    var retry := A.Moved(m, A.ToRetry, key, inj);
    A.HopKeeps(m, A.ToRetry, key, inj);
    A.PlainCount(retry, count);
    A.HopKeeps(retry, A.BackToMain(count), key', inj');
    A.PlainCount(back, n);
    Backoff.DelayAtOne(sys.Cfg().backoffBase, Min(sys.Cfg().backoffMax, Backoff.SQS_MAX_DELAY));
  }

  // ----- exhausting the budget -----------------------------------------------------------------

  predicate IsExhausted(st: St, c: nat) { c in st.log && c in st.meta && st.meta[c].why == P.Exhausted }

  /** The message may still be dead-lettered for its budget. */
  ghost predicate CanExhaust(sys: Setup, st: St, o: nat) {
    exists now, c :: Runs(sys, st, now) && IsExhausted(now, c) && now.meta[c].origin == o
  }

  /** A move of a message within the attribute budget can land, without any injected attribute. */
  lemma MoveStep(sys: Setup, st: St, from: nat, url: string, move: A.Move, count: nat, why: P.Why)
    returns (step: Step, key: string)
    requires sys.Good() && Inv(sys, st) && from in st.log && !IsOverBudget(st.log[from].attrs)
    requires Allowed(sys, st.log[from], url, move, count, why)
    ensures step.Send? && step.from == from && Enabled(sys, st, step) && step.acked && step.cause.why == why
    ensures A.IsIdentity(st.log[from].attrs, move, key)
    ensures step.msg.url == url && step.msg.attrs == A.Moved(st.log[from].attrs, move, key, map[])
  {
    var src := st.log[from];
    key := A.SomeIdentity(src.attrs, move);
    A.BudgetIff(src.attrs, move);
    FreshExists(st.log.Keys);
    var c: nat :| c !in st.log;
    var attrs := A.Moved(src.attrs, move, key, map[]);
    var msg := Msg(url, BodyOf(sys.Cfg(), src, move), attrs, DelayOf(sys.Cfg(), move, count));
    step := Send(from, c, msg, Cause(move, key, map[], count, count, why), true);
  }

  lemma MovesOn(sys: Setup, st: St, from: nat, url: string, move: A.Move, count: nat, why: P.Why)
    returns (b: St, c: nat, key: string)
    requires sys.Good() && Inv(sys, st) && from in st.log && !IsOverBudget(st.log[from].attrs)
    requires Allowed(sys, st.log[from], url, move, count, why)
    ensures Evolves(sys, st, b)
    ensures c in b.log && b.meta[c].origin == st.meta[from].origin && b.meta[c].why == why
    ensures A.IsIdentity(st.log[from].attrs, move, key)
    ensures b.log[c].url == url && b.log[c].attrs == A.Moved(st.log[from].attrs, move, key, map[])
  {
    var step;
    step, key := MoveStep(sys, st, from, url, move, count, why);
    EvolvesByStep(sys, st, step);
    b, c := Apply(sys, st, step), step.c;
  }

  /** Some consumer's publish of the message can land. */
  ghost predicate CanMove(sys: Setup, st: St, c: nat) {
    exists step :: Enabled(sys, st, step) && step.Send? && step.from == c
  }

  /** On the main and the retry queue, exactly the messages over the attribute budget can go nowhere. */
  lemma CanMoveIff(sys: Setup, st: St, c: nat)
    requires sys.Good() && Runs(sys, Start(), st) && c in st.log && st.log[c].url != sys.DlqURL()
    ensures CanMove(sys, st, c) <==> !IsOverBudget(st.log[c].attrs)
  {
    RefinesProtocol(sys, st);
    QueuesClosed(sys.Main(), sys.Sfx());
    var src := st.log[c];
    if CanMove(sys, st, c) {
      var step :| Enabled(sys, st, step) && step.Send? && step.from == c;
      SentCount(sys, src, step.msg, step.cause);
    }
    if !IsOverBudget(src.attrs) {
      var n := A.SomeCount(src.attrs);
      var step, key;
      if src.url == sys.Main() {
        step, key := MoveStep(sys, st, c, sys.DlqURL(), A.ToDlq(None), n, P.NonRetryable);
      } else {
        step, key := MoveStep(sys, st, c, sys.Main(), A.BackToMain(n), n, P.Returned);
      }
    }
  }

  /** A message of the main queue whose counter reaches the budget is given up. */
  lemma GivesUp(sys: Setup, st: St, from: nat, count: nat) returns (b: St, dead: nat)
    requires sys.Good() && Inv(sys, st) && from in st.log && st.log[from].url == sys.Main()
    requires !IsOverBudget(st.log[from].attrs)
    requires A.IsCount(st.log[from].attrs, count) && sys.Cfg().maxRetries <= count <= MAX_INT64
    ensures Evolves(sys, st, b) && IsExhausted(b, dead) && b.meta[dead].origin == st.meta[from].origin
  {
    var key;
    b, dead, key := MovesOn(sys, st, from, sys.DlqURL(), A.ToDlq(None), count, P.Exhausted);
  }

  lemma OneIsRead(m: A.Attrs)
    requires CountsOne(m)
    ensures A.IsCount(m, 1)
  {
    A.PlainReads(m, RETRY_COUNT, A.ReadPlain(m, RETRY_COUNT));
    assert A.ReadPlain(m, RETRY_COUNT) in A.ReadableValues(m, RETRY_COUNT);
  }

  /** A message below the budget comes back from the retry queue with a counter of one. */
  lemma ComesBack(sys: Setup, st: St, from: nat, count: nat) returns (b: St, back: nat)
    requires sys.Good() && Inv(sys, st) && from in st.log && st.log[from].url == sys.Main()
    requires !IsOverBudget(st.log[from].attrs) && A.IsCount(st.log[from].attrs, count) && count < sys.Cfg().maxRetries
    requires count <= MAX_INT64
    ensures Evolves(sys, st, b) && back in b.log && b.log[back].url == sys.Main()
    ensures b.meta[back].origin == st.meta[from].origin && !IsOverBudget(b.log[back].attrs)
    ensures A.IsCount(b.log[back].attrs, 1)
  {
    QueuesClosed(sys.Main(), sys.Sfx());
    var src := st.log[from].attrs;
    var m, failed, key := MovesOn(sys, st, from, sys.RetryURL(), A.ToRetry, count, P.Failed);
    var retry := m.log[failed].attrs;
    A.HopKeeps(src, A.ToRetry, key, map[]);
    A.PassingAfterMove(src, A.ToRetry, key, map[]);
    OneIsRead(retry);
    var key';
    b, back, key' := MovesOn(sys, m, failed, sys.Main(), A.BackToMain(1), 1, P.Returned);
    A.HopKeeps(retry, A.BackToMain(1), key', map[]);
    A.PassingAfterMove(retry, A.BackToMain(1), key', map[]);
    OneIsRead(b.log[back].attrs);
    EvolvesTrans(sys, st, m, b);
  }

  /**
   From every reachable state: a message may be dead-lettered for its budget if and only if it is
   within the attribute budget, and the retry budget is one or some read of the counter that it was
   published with returns that much.
   */
  lemma ExhaustionIff(sys: Setup, st: St, o: nat)
    requires sys.Good() && Runs(sys, Start(), st) && IsOriginal(st, o)
    ensures var m := st.log[o].attrs;
            CanExhaust(sys, st, o) <==> !IsOverBudget(m) && (sys.Cfg().maxRetries == 1 || CountsTo(sys, m))
  {
    RefinesProtocol(sys, st);
    RunsTell(sys, st);
    var m := st.log[o].attrs;
    if CanExhaust(sys, st, o) {
      ExhaustedBefore(sys, st, o);
    }
    if !IsOverBudget(m) && CountsTo(sys, m) {
      var n: nat :| A.IsCount(m, n) && n >= sys.Cfg().maxRetries;
      var now, dead := GivesUp(sys, st, o, n);
    } else if !IsOverBudget(m) && sys.Cfg().maxRetries == 1 {
      var n := A.SomeCount(m);
      var mid, back := ComesBack(sys, st, o, n);
      var now, dead := GivesUp(sys, mid, back, 1);
      EvolvesTrans(sys, st, mid, now);
    }
  }

  lemma ExhaustedBefore(sys: Setup, st: St, o: nat)
    requires sys.Good() && Runs(sys, Start(), st) && IsOriginal(st, o) && CanExhaust(sys, st, o)
    ensures !IsOverBudget(st.log[o].attrs) && (sys.Cfg().maxRetries == 1 || CountsTo(sys, st.log[o].attrs))
  {
    var now, c :| Runs(sys, st, now) && IsExhausted(now, c) && now.meta[c].origin == o;
    RefinesProtocol(sys, st);
    Steps.ReachesTrans(Take(sys), Start(), st, now);
    RunsKeep(sys, st, now);
    ExhaustedOnlyIf(sys, now, c);
    RunsTell(sys, now);
    assert TellsIn(sys, now, c);
  }

  // ----- the attribute budget over hops --------------------------------------------------------

  /** One hop's inputs. */
  datatype Hop = Hop(move: A.Move, key: string, inj: map<string, string>)

  function AfterHops(m: A.Attrs, hops: seq<Hop>): A.Attrs {
    if hops == [] then m
    else
      var h := hops[|hops| - 1];
      A.Moved(AfterHops(m, hops[..|hops| - 1]), h.move, h.key, h.inj)
  }

  /** Each hop's trace injection fits the attributes it is applied to. */
  predicate Injected(m: A.Attrs, hops: seq<Hop>) {
    hops == [] ||
    (var h := hops[|hops| - 1];
     var before := hops[..|hops| - 1];
     Injected(m, before) && A.CanInject(AfterHops(m, before), h.move, h.inj))
  }

  predicate SomeBaggage(hops: seq<Hop>) { exists h :: h in hops && BAGGAGE in h.inj }

  lemma OneMoreHop(before: seq<Hop>, h: Hop)
    ensures SomeBaggage(before + [h]) <==> SomeBaggage(before) || BAGGAGE in h.inj
  {
    if BAGGAGE in h.inj {
      assert h in before + [h];
    } else if g :| g in before && BAGGAGE in g.inj {
      assert g in before + [h];
    }
  }

  lemma PassingAfterHop(m: A.Attrs, h: Hop)
    requires A.CanInject(m, h.move, h.inj)
    ensures A.Passing(A.Moved(m, h.move, h.key, h.inj)) == A.Passing(m) + (if BAGGAGE in h.inj then {BAGGAGE} else {})
  {
    A.PassingAfterMove(m, h.move, h.key, h.inj);
  }

  /** The names that injections add. */
  function Added(hops: seq<Hop>): set<string> { if SomeBaggage(hops) then {BAGGAGE} else {} }

  lemma LastHop(m: A.Attrs, hops: seq<Hop>)
    requires hops != [] && Injected(m, hops)
    ensures var before, h := hops[..|hops| - 1], hops[|hops| - 1];
            && hops == before + [h] && Injected(m, before) && A.CanInject(AfterHops(m, before), h.move, h.inj)
            && AfterHops(m, hops) == A.Moved(AfterHops(m, before), h.move, h.key, h.inj)
  {
  }

  lemma AddedByHop(before: seq<Hop>, h: Hop)
    ensures Added(before + [h]) == Added(before) + (if BAGGAGE in h.inj then {BAGGAGE} else {})
  {
    OneMoreHop(before, h);
  }

  /** What passes after any number of hops: what passed before, and any injected baggage. */
  lemma {:induction false} PassingAfterHops(m: A.Attrs, hops: seq<Hop>)
    requires Injected(m, hops)
    ensures A.Passing(AfterHops(m, hops)) == A.Passing(m) + Added(hops)
    decreases |hops|
  {
    if hops == [] {
      assert Added(hops) == {};
    } else {
      var before, h := hops[..|hops| - 1], hops[|hops| - 1];
      LastHop(m, hops);
      PassingAfterHops(m, before);
      PassingAfterHop(AfterHops(m, before), h);
      AddedByHop(before, h);
    }
  }

  /**
   After any number of hops, for any attributes: a republish of any kind passes the producer's check
   exactly when at most six attributes pass, an injected baggage included.
   */
  lemma BudgetOverHops(m: A.Attrs, hops: seq<Hop>, next: A.Move)
    requires Injected(m, hops)
    ensures |A.Forward(A.Prepared(AfterHops(m, hops), next))| <= 7
       <==> |A.Passing(m) + Added(hops)| <= 6
  {
    PassingAfterHops(m, hops);
    A.BudgetIff(AfterHops(m, hops), next);
  }

  ghost predicate AlwaysStable(m: A.Attrs) {
    forall hops :: Injected(m, hops) ==> A.Passing(AfterHops(m, hops)) == A.Passing(m)
  }

  /**
   What passes never changes, over any number of hops, if and only if the baggage is settled: no
   passing attribute is a spelling of baggage, or one has exactly that name.
   */
  lemma StableIff(m: A.Attrs)
    ensures AlwaysStable(m) <==> A.BaggageSettled(m)
  {
    if A.BaggageSettled(m) {
      forall hops | Injected(m, hops) ensures A.Passing(AfterHops(m, hops)) == A.Passing(m) {
        SettledStays(m, hops);
      }
    } else {
      var hops := BaggageRound(m);
      PassingAfterHops(m, hops);
    }
  }

  lemma HopStable(m: A.Attrs, h: Hop)
    requires A.BaggageSettled(m) && A.CanInject(m, h.move, h.inj)
    ensures A.Passing(A.Moved(m, h.move, h.key, h.inj)) == A.Passing(m)
    ensures A.BaggageSettled(A.Moved(m, h.move, h.key, h.inj))
  {
    A.PassingAfterMove(m, h.move, h.key, h.inj);
    if BAGGAGE in h.inj {
      A.SettledBaggage(m, h.move, h.inj);
    }
  }

  lemma {:induction false} SettledStays(m: A.Attrs, hops: seq<Hop>)
    requires A.BaggageSettled(m) && Injected(m, hops)
    ensures A.Passing(AfterHops(m, hops)) == A.Passing(m) && A.BaggageSettled(AfterHops(m, hops))
    decreases |hops|
  {
    if hops != [] {
      var before := hops[..|hops| - 1];
      SettledStays(m, before);
      HopStable(AfterHops(m, before), hops[|hops| - 1]);
    }
  }

  /** One round through the retry queue in which the message's baggage is injected under its own name. */
  lemma BaggageRound(m: A.Attrs) returns (hops: seq<Hop>)
    requires !A.BaggageSettled(m)
    ensures |hops| == 2 && hops[0].move == A.ToRetry && hops[1].move == A.BackToMain(1)
    ensures Injected(m, hops) && SomeBaggage(hops)
  {
    var out := Hop(A.ToRetry, "u", map[]);
    OneHop(m, out);
    A.PassingAfterMove(m, out.move, out.key, out.inj);
    var inj := A.InjectsBaggage(AfterHops(m, [out]), 1);
    var back := Hop(A.BackToMain(1), "u", inj);
    hops := [out] + [back];
    assert hops[..1] == [out];
    assert back in hops && BAGGAGE in back.inj;
  }

  lemma OneHop(m: A.Attrs, h: Hop)
    requires A.CanInject(m, h.move, h.inj)
    ensures Injected(m, [h]) && AfterHops(m, [h]) == A.Moved(m, h.move, h.key, h.inj)
  {
    assert [h][..0] == [];
    assert AfterHops(m, []) == m && Injected(m, []);
  }

  /**
   So a message with room for one marker can lose it: with six passing attributes of which one is a
   spelling of baggage, every republish after such a round is refused.
   */
  lemma BaggageBreaksBudget(m: A.Attrs) returns (hops: seq<Hop>)
    requires |A.Passing(m)| == 6 && !A.BaggageSettled(m)
    ensures Injected(m, hops) && |hops| == 2
    ensures forall next :: |A.Forward(A.Prepared(m, next))| <= 7
                           && |A.Forward(A.Prepared(AfterHops(m, hops), next))| > 7
  {
    hops := BaggageRound(m);
    assert |A.Passing(m) + {BAGGAGE}| == 7;
    forall next ensures |A.Forward(A.Prepared(m, next))| <= 7
                        && |A.Forward(A.Prepared(AfterHops(m, hops), next))| > 7 {
      A.BudgetIff(m, next);
      BudgetOverHops(m, hops, next);
    }
  }

  const SPELLED := "Baggage"

  lemma SpelledPasses()
    ensures EqualFold(SPELLED, BAGGAGE) && SPELLED != BAGGAGE && !IsAppKey(SPELLED) && !IsReinjected(SPELLED)
    ensures A.Kept(SPELLED, A.StringAttr("v"))
  {
    assert SPELLED[0] != BAGGAGE[0] && |ToLower(SPELLED)| == 7;
    assert FoldChar('B') == 'b' && forall i :: 1 <= i < 7 ==> SPELLED[i] == BAGGAGE[i];
  }

  /** Such a message has any five application attributes and one named "Baggage". */
  lemma SixWithBaggage(others: set<string>) returns (m: A.Attrs)
    requires |others| == 5 && forall k :: k in others ==> IsAppKey(k)
    ensures m.Keys == others + {SPELLED} && |A.Passing(m)| == 6 && !A.BaggageSettled(m)
  {
    m := map k | k in others + {SPELLED} :: A.StringAttr("v");
    SpelledPasses();
    forall k | k in others ensures A.Kept(k, m[k]) && !IsReinjected(k) && k != BAGGAGE {
      AppKeysSurvive(k, "v");
      assert EqualFold(BAGGAGE, BAGGAGE);
    }
    assert A.Passing(m) == others + {SPELLED};
    assert |others + {SPELLED}| == |others| + 1;
  }
}
