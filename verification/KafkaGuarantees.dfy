/** What holds of a cluster however its producers, consumers and brokers interleave and fail. */
module KafkaGuarantees {
  import opened Base
  import opened Headers
  import opened Routing
  import opened KafkaCluster
  import opened KafkaClient
  import H = KafkaHeaders
  import P = Protocol
  import Backoff
  import GoStrings
  import Steps

  lemma StartIsSafe(sys: Setup)
    ensures Inv(sys, Start()) && Abs(sys, Start()) == P.Empty()
  {
    assert Abs(sys, Start()).copies == map[] && Abs(sys, Start()).live == {};
  }

  /** A record carries what the original message at `o` carried; in the DLQ its value may be cut. */
  predicate Carries(sys: Setup, st: St, s: Slot, o: Slot)
    requires s in st.recs && o in st.recs
  {
    var a, b := st.recs[o], st.recs[s];
    && b.key == a.key && H.App(b.headers) == H.App(a.headers)
    && (H.Get(a.headers, "x-idempotency-key") != "" ==>
          H.Get(b.headers, "x-idempotency-key") == H.Get(a.headers, "x-idempotency-key"))
    && (if s.topic == sys.DlqTopic()
        then b.value == Cut(a.value, WithDefaults(sys.cfg).dlqMaxPayloadBytes) || b.value == Cut(a.value, 65536)
        else b.value == a.value)
  }

  predicate IsOriginal(st: St, o: Slot) { o in st.recs && o in st.meta && st.meta[o].origin == o }

  /**
   Every state that a run of concrete steps leads to keeps the cluster's invariant and abstracts
   to a reachable state of the abstract protocol.
   */
  lemma RefinesProtocol(sys: Setup, st: St)
    requires sys.Good() && Runs(sys, Start(), st)
    ensures Inv(sys, st)
    ensures P.Reaches(sys.Protocol(), P.Empty(), Abs(sys, st)) && P.Inv(sys.Protocol(), Abs(sys, st))
  {
    StartIsSafe(sys);
    RunsKeep(sys, Start(), st);
    P.ReachesKeepsInv(sys.Protocol(), Abs(sys, Start()), Abs(sys, st));
  }

  /**
   No loss: in every reachable state, every message published to the main topic was handled, or
   a record that carries its identity, its headers and its value is still deliverable from the
   main or retry topic, or stored in the DLQ.
   */
  lemma NoLoss(sys: Setup, st: St, o: Slot)
    requires sys.Good() && Runs(sys, Start(), st)
    requires IsOriginal(st, o) && o !in st.handled
    ensures exists s :: s in st.recs && Deliverable(sys, st, s) && s in st.meta && st.meta[s].origin == o
                        && Carries(sys, st, s, o)
  {
    RefinesProtocol(sys, st);
    var a := Abs(sys, st);
    assert P.IsOrigin(a, o);
    assert P.Pending(a, o);
    var s :| s in a.live && s !in a.settled && s in a.copies && a.copies[s].origin == o;
    CopyCarries(sys, st, s, o);
  }

  lemma CopyCarries(sys: Setup, st: St, s: Slot, o: Slot)
    requires sys.Good() && Inv(sys, st) && s in st.recs && o in st.recs
    requires P.Faithful(sys.Protocol(), Abs(sys, st).copies[s], Abs(sys, st).copies[o])
    ensures Carries(sys, st, s, o)
  {
    TopicsDistinct(sys.main, Sfx(sys.cfg));
  }

  /** Every record in the three topics descends from one message and carries it. */
  lemma NothingInvented(sys: Setup, st: St, s: Slot)
    requires sys.Good() && Runs(sys, Start(), st) && s in st.recs
    ensures s in st.meta && IsOriginal(st, st.meta[s].origin) && Carries(sys, st, s, st.meta[s].origin)
    ensures s.topic == sys.main || s.topic == sys.RetryTopic() || s.topic == sys.DlqTopic()
  {
    RefinesProtocol(sys, st);
    var a := Abs(sys, st);
    var o := a.copies[s].origin;
    assert P.IsOrigin(a, o);
    assert P.Faithful(sys.Protocol(), a.copies[s], a.copies[o]);
    TopicsDistinct(sys.main, Sfx(sys.cfg));
  }

  /** In no run does a committed offset pass a record without an acknowledged outcome. */
  lemma CommittedIsSettled(sys: Setup, st: St, s: Slot)
    requires sys.Good() && Runs(sys, Start(), st) && s in st.recs
    requires s.topic == sys.main || s.topic == sys.RetryTopic()
    requires s.offset < Committed(st, PartOf(s))
    ensures s in st.settled
  {
    RefinesProtocol(sys, st);
    TopicsDistinct(sys.main, Sfx(sys.cfg));
    assert !Deliverable(sys, st, s);
  }

  /**
   In every run a record is dead-lettered for its budget only if the budget is one, or its original
   was published with a counter that reaches the budget.
   */
  lemma ExhaustedOnlyIf(sys: Setup, st: St, s: Slot)
    requires sys.Good() && Runs(sys, Start(), st) && IsExhausted(st, s)
    ensures WithDefaults(sys.cfg).maxRetries == 1 || CountsTo(sys, st, st.meta[s].origin)
  {
    RefinesProtocol(sys, st);
    P.ExhaustedOnlyIf(sys.Protocol(), Abs(sys, st), s);
  }

  lemma {:induction false} NextOffsetsBound(slots: seq<Slot>, s: Slot)
    requires s in slots
    ensures PartOf(s) in NextOffsets(slots) && s.offset < NextOffsets(slots)[PartOf(s)]
  {
    if s != slots[|slots| - 1] {
      assert s in slots[..|slots| - 1];
      NextOffsetsBound(slots[..|slots| - 1], s);
    }
  }

  /** Some steps settle one record and take nothing else out of the way. */
  lemma SettleOne(sys: Setup, st: St, s: Slot) returns (b: St)
    requires sys.Good() && Inv(sys, st) && s in st.recs && sys.Place(s.topic) != P.Dlq
    ensures Evolves(sys, st, b) && b.settled == st.settled + {s}
  {
    var step: Step;
    if s.topic == sys.main {
      step := Handled(s);
    } else {
      EndExists(st, sys.main, 0);
      var offset: nat :| IsEnd(st, Slot(sys.main, 0, offset));
      var src := st.recs[s];
      var rec := H.Rec(src.key, src.value, H.Moved(src.headers, H.BackToMain, "u", []));
      step := Send(s, Slot(sys.main, 0, offset), rec, Cause(H.BackToMain, "u", [], P.Returned), true);
    }
    assert Enabled(sys, st, step);
    EvolvesByStep(sys, st, step);
    b := Apply(sys, st, step);
  }

  lemma {:induction false} SettleAll(sys: Setup, st: St, slots: seq<Slot>) returns (b: St)
    requires sys.Good() && Inv(sys, st) && IsBatch(sys, st, slots)
    ensures Evolves(sys, st, b) && AllSettled(b, slots)
    ensures forall s :: s in b.settled ==> s in st.settled || s in slots
    decreases |slots|
  {
    if slots == [] {
      EvolvesSelf(sys, st);
      b := st;
    } else {
      var before, last := slots[..|slots| - 1], slots[|slots| - 1];
      assert last in slots;
      assert slots == before + [last];
      var m := SettleAll(sys, st, before);
      assert last in m.recs;
      b := SettleOne(sys, m, last);
      EvolvesTrans(sys, st, m, b);
      OneMoreSettled(m, b, before, last);
    }
  }

  lemma OneMoreSettled(m: St, b: St, before: seq<Slot>, last: Slot)
    requires AllSettled(m, before) && b.settled == m.settled + {last}
    ensures AllSettled(b, before + [last])
  {
  }

  /** However the cluster goes on, the finished first records of the batch are safe to commit. */
  ghost predicate SafeHowever(sys: Setup, st: St, batch: seq<Slot>) {
    forall now, k: nat :: Runs(sys, st, now) && k <= |batch| && AllSettled(now, batch[..k]) ==>
      CommitSafe(sys, CommitAll(now, batch[..k]))
  }

  /**
   The exact condition on a poll: each record between the committed offset and a polled record is
   earlier in the batch, or settled already.
   */
  predicate SkipsOnlySettled(st: St, batch: seq<Slot>) {
    forall i, r :: 0 <= i < |batch| && r in st.recs && Between(st, r, batch[i]) ==> r in batch[..i] || r in st.settled
  }

  lemma SkipsNothing(sys: Setup, st: St, batch: seq<Slot>)
    requires CommitSafe(sys, st) && IsBatch(sys, st, batch) && SkipsOnlySettled(st, batch)
    ensures BatchOk(sys, st, batch)
  {
    forall i, r | 0 <= i < |batch| && r in st.recs && PartOf(r) == PartOf(batch[i]) && r.offset < batch[i].offset
      ensures r in st.settled || r in batch[..i]
    {
      assert batch[i] in batch;
      if r.offset < Committed(st, PartOf(r)) {
        assert !Deliverable(sys, st, r);
      } else {
        assert Between(st, r, batch[i]);
      }
    }
  }

  /** Committing one record passes an unsettled one before it. */
  lemma PassedBy(sys: Setup, st: St, slots: seq<Slot>, s: Slot, r: Slot)
    requires s in slots && r in st.recs && PartOf(r) == PartOf(s) && r.offset <= s.offset && r !in st.settled
    requires sys.Place(s.topic) != P.Dlq
    ensures !CommitSafe(sys, CommitAll(st, slots))
  {
    NextOffsetsBound(slots, s);
    assert !Deliverable(sys, CommitAll(st, slots), r);
  }

  /** A skipped record that is not settled is passed by a commit of the batch. */
  lemma SkippedIsPassed(sys: Setup, st: St, batch: seq<Slot>, i: nat, r: Slot) returns (now: St)
    requires sys.Good() && Inv(sys, st) && IsBatch(sys, st, batch) && i < |batch|
    requires r in st.recs && PartOf(r) == PartOf(batch[i]) && r.offset < batch[i].offset
    requires r !in batch[..i] && r !in st.settled
    ensures Runs(sys, st, now) && AllSettled(now, batch[..i + 1])
    ensures !CommitSafe(sys, CommitAll(now, batch[..i + 1]))
  {
    var slots := batch[..i + 1];
    assert forall s :: s in slots ==> s in batch;
    now := SettleAll(sys, st, slots);
    assert slots == batch[..i] + [batch[i]];
    assert batch[i] in slots && r !in slots && r !in now.settled;
    assert sys.Place(r.topic) != P.Dlq;
    PassedBy(sys, now, slots, batch[i], r);
  }

  /**
   From every reachable state: whatever happens after a poll, committing the finished first records
   of the batch keeps commit safety if and only if the poll skipped nothing but settled records.
   */
  lemma PollSafeIff(sys: Setup, st: St, batch: seq<Slot>)
    requires sys.Good() && Runs(sys, Start(), st) && IsBatch(sys, st, batch)
    ensures SafeHowever(sys, st, batch) <==> SkipsOnlySettled(st, batch)
  {
    RefinesProtocol(sys, st);
    if SkipsOnlySettled(st, batch) {
      SkipsNothing(sys, st, batch);
      forall now, k: nat | Runs(sys, st, now) && k <= |batch| && AllSettled(now, batch[..k])
        ensures CommitSafe(sys, CommitAll(now, batch[..k]))
      {
        RunsKeep(sys, st, now);
        BatchStaysOk(sys, st, now, batch);
        PrefixIsSafe(now, batch, k);
        CommitKeepsSafe(sys, now, batch[..k]);
      }
    } else {
      var i, r :| 0 <= i < |batch| && r in st.recs && Between(st, r, batch[i]) && r !in batch[..i] && r !in st.settled;
      var now := SkippedIsPassed(sys, st, batch, i, r);
    }
  }

  /** Committing records keeps commit safety exactly when everything up to each is settled. */
  lemma CommitSafeIff(sys: Setup, st: St, slots: seq<Slot>)
    requires Inv(sys, st) && forall s :: s in slots ==> sys.Place(s.topic) != P.Dlq
    ensures CommitSafe(sys, CommitAll(st, slots)) <==> SettledUpTo(st, slots)
  {
    if SettledUpTo(st, slots) {
      CommitKeepsSafe(sys, st, slots);
    } else {
      var s, r :| s in slots && r in st.recs && PartOf(r) == PartOf(s) && r.offset <= s.offset && r !in st.settled;
      PassedBy(sys, st, slots, s, r);
    }
  }

  /** A message published to the main topic at the end of partition 0. */
  lemma Publishes(sys: Setup, st: St, offset: nat) returns (b: St)
    requires sys.Good() && Inv(sys, st) && IsEnd(st, Slot(sys.main, 0, offset))
    ensures Evolves(sys, st, b)
    ensures b == Appended(st, Slot(sys.main, 0, offset), H.Rec("", "", []), Meta(Slot(sys.main, 0, offset), 0, P.Fresh))
  {
    var step := Originate(Slot(sys.main, 0, offset), H.Rec("", "", []));
    assert Enabled(sys, st, step);
    EvolvesByStep(sys, st, step);
    b := Apply(sys, st, step);
  }

  /**
   The assumption on the client is needed: in a reachable state, a poll that continues behind a
   failed record instead of resuming at the committed offset leads to a commit that passes it.
   */
  lemma SkippingPollLosesARecord(sys: Setup) returns (st: St, batch: seq<Slot>)
    requires sys.Good()
    ensures Runs(sys, Start(), st) && IsBatch(sys, st, batch) && !ResumesAtCommitted(st, batch)
    ensures AllSettled(st, batch) && !CommitSafe(sys, CommitAll(st, batch))
  {
    st := FirstOfTwoFailed(sys);
    var failed, next := Slot(sys.main, 0, 0), Slot(sys.main, 0, 1);
    batch := [next];
    assert Between(st, failed, batch[0]) && failed !in batch[..0];
    PassedBy(sys, st, batch, next, failed);
  }

  lemma TwoMessages(sys: Setup) returns (st: St)
    requires sys.Good()
    ensures Evolves(sys, Start(), st) && st.committed == map[] && st.settled == {}
    ensures st.recs.Keys == {Slot(sys.main, 0, 0), Slot(sys.main, 0, 1)}
  {
    StartIsSafe(sys);
    var s1 := Publishes(sys, Start(), 0);
    st := Publishes(sys, s1, 1);
    EvolvesTrans(sys, Start(), s1, st);
  }

  /** Two messages on one partition, of which only the second was handled. */
  lemma FirstOfTwoFailed(sys: Setup) returns (st: St)
    requires sys.Good()
    ensures Evolves(sys, Start(), st) && st.committed == map[]
    ensures Slot(sys.main, 0, 0) in st.recs && Slot(sys.main, 0, 1) in st.recs && st.settled == {Slot(sys.main, 0, 1)}
  {
    var s2 := TwoMessages(sys);
    var second := Slot(sys.main, 0, 1);
    assert second in s2.recs.Keys;
    var step := Handled(second);
    EvolvesByStep(sys, s2, step);
    st := Apply(sys, s2, step);
    EvolvesTrans(sys, Start(), s2, st);
  }

  // ----- exhausting the budget -----------------------------------------------------------------

  predicate IsExhausted(st: St, s: Slot) { s in st.recs && s in st.meta && st.meta[s].why == P.Exhausted }

  /** An original message that was published with a counter of the budget or more. */
  predicate CountsTo(sys: Setup, st: St, o: Slot) {
    IsOriginal(st, o) && H.CountOf(st.recs[o].headers) >= WithDefaults(sys.cfg).maxRetries
  }

  /** The message may still be dead-lettered for its budget. */
  ghost predicate CanExhaust(sys: Setup, st: St, o: Slot) {
    exists now, s :: Runs(sys, st, now) && IsExhausted(now, s) && now.meta[s].origin == o
  }

  /** The value that a move of a record of the main topic carries. */
  function ValueOf(sys: Setup, src: H.Rec, move: H.Move): string {
    if move.ToDlq? then Cut(src.value, WithDefaults(sys.cfg).dlqMaxPayloadBytes) else src.value
  }

  /** One move lands at the end of partition 0 of its topic. */
  lemma MovesOn(sys: Setup, st: St, from: Slot, topic: string, value: string, move: H.Move, why: P.Why)
    returns (b: St, s: Slot)
    requires sys.Good() && Inv(sys, st) && from in st.recs
    requires Allowed(sys, from, st.recs[from], topic, value, move, why)
    ensures Evolves(sys, st, b)
    ensures s.topic == topic && s in b.recs && b.meta[s].origin == st.meta[from].origin && b.meta[s].why == why
    ensures b.recs[s] == H.Rec(st.recs[from].key, value, H.Moved(st.recs[from].headers, move, "u", []))
  {
    EndExists(st, topic, 0);
    var offset: nat :| IsEnd(st, Slot(topic, 0, offset));
    s := Slot(topic, 0, offset);
    var rec := H.Rec(st.recs[from].key, value, H.Moved(st.recs[from].headers, move, "u", []));
    var step := Send(from, s, rec, Cause(move, "u", [], why), true);
    assert Enabled(sys, st, step);
    EvolvesByStep(sys, st, step);
    b := Apply(sys, st, step);
  }

  /** A record of the main topic whose counter reaches the budget is given up. */
  lemma GivesUp(sys: Setup, st: St, from: Slot) returns (b: St, dead: Slot)
    requires sys.Good() && Inv(sys, st) && from in st.recs && from.topic == sys.main
    requires H.CountOf(st.recs[from].headers) >= WithDefaults(sys.cfg).maxRetries
    ensures Evolves(sys, st, b) && IsExhausted(b, dead) && b.meta[dead].origin == st.meta[from].origin
  {
    var move := H.ToDlq(None);
    b, dead := MovesOn(sys, st, from, sys.DlqTopic(), ValueOf(sys, st.recs[from], move), move, P.Exhausted);
  }

  /** A record without a counter comes back from the retry topic with a counter of one. */
  lemma ComesBack(sys: Setup, st: St, from: Slot) returns (b: St, back: Slot)
    requires sys.Good() && Inv(sys, st) && from in st.recs && from.topic == sys.main
    requires H.CountOf(st.recs[from].headers) == 0
    ensures Evolves(sys, st, b) && back in b.recs && back.topic == sys.main
    ensures H.CountOf(b.recs[back].headers) == 1 && b.meta[back].origin == st.meta[from].origin
  {
    TopicsDistinct(sys.main, Sfx(sys.cfg));
    TopicsClosed(sys.main, Sfx(sys.cfg));
    var headers := st.recs[from].headers;
    var m, failed := MovesOn(sys, st, from, sys.RetryTopic(), st.recs[from].value, H.ToRetry, P.Failed);
    H.HopKeeps(headers, H.ToRetry, "u", []);
    b, back := MovesOn(sys, m, failed, sys.main, st.recs[from].value, H.BackToMain, P.Returned);
    H.HopKeeps(H.Moved(headers, H.ToRetry, "u", []), H.BackToMain, "u", []);
    EvolvesTrans(sys, st, m, b);
  }

  /**
   From every reachable state: a message may be dead-lettered for its budget if and only if the budget
   is one, or the message was published with a counter that reaches it.
   */
  lemma ExhaustionIff(sys: Setup, st: St, o: Slot)
    requires sys.Good() && Runs(sys, Start(), st) && IsOriginal(st, o)
    ensures CanExhaust(sys, st, o) <==> WithDefaults(sys.cfg).maxRetries == 1 || CountsTo(sys, st, o)
  {
    RefinesProtocol(sys, st);
    if CanExhaust(sys, st, o) {
      var now, s :| Runs(sys, st, now) && IsExhausted(now, s) && now.meta[s].origin == o;
      Steps.ReachesTrans(Take(sys), Start(), st, now);
      RunsKeep(sys, st, now);
      ExhaustedOnlyIf(sys, now, s);
    }
    OriginalsOnMain(sys, st, o);
    if CountsTo(sys, st, o) {
      var now, dead := GivesUp(sys, st, o);
    } else if WithDefaults(sys.cfg).maxRetries == 1 {
      var m, back := ComesBack(sys, st, o);
      var now, dead := GivesUp(sys, m, back);
      EvolvesTrans(sys, st, m, now);
    }
  }

  lemma OriginalsOnMain(sys: Setup, st: St, o: Slot)
    requires sys.Good() && Runs(sys, Start(), st) && IsOriginal(st, o)
    ensures o.topic == sys.main
  {
    RefinesProtocol(sys, st);
    assert P.IsOrigin(Abs(sys, st), o);
  }

  // ----- the retry consumer's own failures -----------------------------------------------------

  /**
   What the nested Consume of the retry consumer does with a failed move, whatever limits are
   configured: a transient failure goes back to the retry topic it came from, with the counter at
   one, unless the counter is at 2^31 - 1; the DLQ value is cut at 65536.
   */
  lemma RetryConsumerRepublishes(sys: Setup, hs: seq<H.Header>, err: Error, uuid: string, inj: seq<H.Header>)
    requires sys.Good() && H.IsInjection(inj)
    ensures var cfg := sys.ConfigOf(sys.RetryTopic());
            && (KafkaRoute(Some(err), H.CountOf(hs), cfg.maxRetries) == RouteRetry <==>
                !err.canceled && !err.nonRetryable && H.CountOf(hs) < 0x7fff_ffff)
            && DestTopic(sys.RetryTopic(), Sfx(sys.cfg), false) == sys.RetryTopic()
            && H.CountOf(H.Moved(hs, H.ToRetry, uuid, inj)) == 1
            && cfg.dlqMaxPayloadBytes == 65536
  {
    TopicsDistinct(sys.main, Sfx(sys.cfg));
    TopicsClosed(sys.main, Sfx(sys.cfg));
    H.HopKeeps(hs, H.ToRetry, uuid, inj);
  }

  // ----- the retry budget along one message's way -------------------------------------------

  /** One round: a failed handling, and the way back to the main topic. */
  datatype Round = Round(out: H.Hop, back: H.Hop)

  predicate IsRound(r: Round) { H.IsInjection(r.out.inj) && H.IsInjection(r.back.inj) }

  function AfterRound(hs: seq<H.Header>, r: Round): seq<H.Header> {
    H.Moved(H.Moved(hs, H.ToRetry, r.out.uuid, r.out.inj), H.BackToMain, r.back.uuid, r.back.inj)
  }

  function AfterRounds(hs: seq<H.Header>, rounds: seq<Round>): seq<H.Header> {
    if rounds == [] then hs
    else AfterRound(AfterRounds(hs, rounds[..|rounds| - 1]), rounds[|rounds| - 1])
  }

  lemma CountAfterRound(hs: seq<H.Header>, r: Round)
    requires IsRound(r)
    ensures H.CountOf(AfterRound(hs, r)) == 1
  {
    H.HopKeeps(hs, H.ToRetry, r.out.uuid, r.out.inj);
    H.HopKeeps(H.Moved(hs, H.ToRetry, r.out.uuid, r.out.inj), H.BackToMain, r.back.uuid, r.back.inj);
  }

  /** After any positive number of rounds the counter is one, whatever it was at first. */
  lemma CountAfterRounds(hs: seq<H.Header>, rounds: seq<Round>)
    requires rounds != [] && forall r :: r in rounds ==> IsRound(r)
    ensures H.CountOf(AfterRounds(hs, rounds)) == 1
  {
    CountAfterRound(AfterRounds(hs, rounds[..|rounds| - 1]), rounds[|rounds| - 1]);
  }

  /** The route of a failing record after some rounds. */
  function RouteAfter(hs: seq<H.Header>, rounds: seq<Round>, text: string, maxRetries: int): Route {
    KafkaRoute(Some(Error(false, false, text)), H.CountOf(AfterRounds(hs, rounds)), maxRetries)
  }

  /**
   A record without a counter whose handler keeps failing reaches the DLQ by exhausting its
   budget exactly when the budget is one; the documented bound is maxRetries rounds.
   */
  lemma ExhaustsIffOne(hs: seq<H.Header>, text: string, maxRetries: int)
    requires H.CountOf(hs) == 0 && maxRetries >= 1
    ensures (exists rounds :: (forall r :: r in rounds ==> IsRound(r))
                              && RouteAfter(hs, rounds, text, maxRetries) == RouteDLQ)
       <==> maxRetries == 1
  {
    if maxRetries == 1 {
      var hop := H.Hop(H.ToRetry, "u", []);
      var rounds := [Round(hop, hop)];
      CountAfterRounds(hs, rounds);
      assert RouteAfter(hs, rounds, text, maxRetries) == RouteDLQ;
    } else {
      forall rounds | forall r :: r in rounds ==> IsRound(r)
        ensures RouteAfter(hs, rounds, text, maxRetries) != RouteDLQ
      {
        if rounds != [] {
          CountAfterRounds(hs, rounds);
        }
      }
    }
  }

  /** The documented rule: the retry record carries the source's counter plus one. */
  function IncrementSourceMoved(hs: seq<H.Header>, uuid: string, inj: seq<H.Header>): seq<H.Header> {
    H.Published(H.Set(H.Sanitize(hs), RETRY_COUNT, GoStrings.Itoa(GoStrings.Wrap64(H.CountOf(hs) + 1))), uuid, inj)
  }

  function IncrementSourceRounds(hs: seq<H.Header>, rounds: seq<Round>): seq<H.Header> {
    if rounds == [] then hs
    else IncrementSourceRound(IncrementSourceRounds(hs, rounds[..|rounds| - 1]), rounds[|rounds| - 1])
  }

  function IncrementSourceRound(hs: seq<H.Header>, r: Round): seq<H.Header> {
    H.Moved(IncrementSourceMoved(hs, r.out.uuid, r.out.inj), H.BackToMain, r.back.uuid, r.back.inj)
  }

  lemma IncrementSourceCount(hs: seq<H.Header>, uuid: string, inj: seq<H.Header>)
    requires H.IsInjection(inj) && H.CountOf(hs) < GoStrings.MAX_INT64
    ensures H.CountOf(IncrementSourceMoved(hs, uuid, inj)) == H.CountOf(hs) + 1
  {
    var n := H.CountOf(hs) + 1;
    H.WriteOverSanitized(hs, RETRY_COUNT, GoStrings.Itoa(n));
    H.CountAfterPublish(H.Set(H.Sanitize(hs), RETRY_COUNT, GoStrings.Itoa(n)), uuid, inj);
    ParsePrinted(n);
  }

  lemma {:induction false} IncrementSourceCounts(hs: seq<H.Header>, rounds: seq<Round>)
    requires forall r :: r in rounds ==> IsRound(r)
    requires H.CountOf(hs) + |rounds| <= GoStrings.MAX_INT64
    ensures H.CountOf(IncrementSourceRounds(hs, rounds)) == H.CountOf(hs) + |rounds|
  {
    if rounds != [] {
      IncrementSourceCounts(hs, rounds[..|rounds| - 1]);
      IncrementSourceRoundCounts(IncrementSourceRounds(hs, rounds[..|rounds| - 1]), rounds[|rounds| - 1]);
    }
  }

  lemma IncrementSourceRoundCounts(hs: seq<H.Header>, r: Round)
    requires IsRound(r) && H.CountOf(hs) < GoStrings.MAX_INT64
    ensures H.CountOf(IncrementSourceRound(hs, r)) == H.CountOf(hs) + 1
  {
    IncrementSourceCount(hs, r.out.uuid, r.out.inj);
    H.HopKeeps(IncrementSourceMoved(hs, r.out.uuid, r.out.inj), H.BackToMain, r.back.uuid, r.back.inj);
  }

  /**
   On that variant a failing record without a counter is dead-lettered after exactly maxRetries
   rounds, so its handler runs maxRetries + 1 times.
   */
  lemma IncrementSourceExhausts(hs: seq<H.Header>, rounds: seq<Round>, text: string, maxRetries: int)
    requires H.CountOf(hs) == 0 && 1 <= maxRetries && |rounds| <= GoStrings.MAX_INT64
    requires forall r :: r in rounds ==> IsRound(r)
    ensures var count := H.CountOf(IncrementSourceRounds(hs, rounds));
            (KafkaRoute(Some(Error(false, false, text)), count, maxRetries) == RouteDLQ <==> |rounds| >= maxRetries)
  {
    IncrementSourceCounts(hs, rounds);
  }

  /** The retry consumer's delay never grows: every record it receives from a consumer counts one. */
  lemma RetryDelayIsConstant(hs: seq<H.Header>, uuid: string, inj: seq<H.Header>, base: int, max: int)
    requires H.IsInjection(inj) && 0 < base < 0x8000_0000_0000 && 0 < max
    ensures Backoff.KafkaDelay(base, max, H.CountOf(H.Moved(hs, H.ToRetry, uuid, inj))) == Min(max, 2 * base)
  {
    H.HopKeeps(hs, H.ToRetry, uuid, inj);
    Backoff.DelayAtOne(base, max);
  }
}
