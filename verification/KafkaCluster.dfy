/**
 The Kafka side of the protocol: topic logs, committed offsets, and the steps that producers,
 consumers and brokers take on them. The state carries the protocol's history variables. What
 every run of steps keeps, and that it simulates the abstract protocol, is proved by induction.
 */
module KafkaCluster {
  import opened Base
  import opened GoStrings
  import opened Headers
  import opened Routing
  import H = KafkaHeaders
  import P = Protocol
  import Steps

  const MAX_INT32: int := 0x7fff_ffff

  datatype ConsumerConfig = ConsumerConfig(maxRetries: int, retrySuffix: string, dlqSuffix: string,
                                           dlqMaxPayloadBytes: int)

  /** The defaults that Consume fills in. */
  function WithDefaults(cfg: ConsumerConfig): (r: ConsumerConfig)
    ensures r.maxRetries == if cfg.maxRetries >= 1 then cfg.maxRetries else 3
    ensures r.dlqMaxPayloadBytes == if cfg.dlqMaxPayloadBytes >= 1 then cfg.dlqMaxPayloadBytes else 65536
    ensures r.retrySuffix == if cfg.retrySuffix != "" then cfg.retrySuffix else ".retry"
    ensures r.dlqSuffix == if cfg.dlqSuffix != "" then cfg.dlqSuffix else ".dlq"
  {
    ConsumerConfig(if cfg.maxRetries <= 0 then 3 else cfg.maxRetries,
                   if cfg.retrySuffix == "" then ".retry" else cfg.retrySuffix,
                   if cfg.dlqSuffix == "" then ".dlq" else cfg.dlqSuffix,
                   if cfg.dlqMaxPayloadBytes <= 0 then 65536 else cfg.dlqMaxPayloadBytes)
  }

  /** The configuration that ConsumeRetry passes to its own Consume. */
  function NestedConfig(cfg: ConsumerConfig): ConsumerConfig {
    ConsumerConfig(MAX_INT32, cfg.retrySuffix, cfg.dlqSuffix, 0)
  }

  function Sfx(cfg: ConsumerConfig): Suffixes {
    Suffixes(WithDefaults(cfg).retrySuffix, WithDefaults(cfg).dlqSuffix)
  }

  /** One main topic and its consumers' configuration. */
  datatype Setup = Setup(main: string, cfg: ConsumerConfig) {
    /** ConsumeRetry's handler uses the retry suffix without a default. */
    predicate Good() { cfg.retrySuffix != "" && Separable(main, Sfx(cfg)) }

    function RetryTopic(): string { DestTopic(main, Sfx(cfg), false) }

    function DlqTopic(): string { DestTopic(main, Sfx(cfg), true) }

    predicate Known(topic: string) { topic == main || topic == RetryTopic() || topic == DlqTopic() }

    function Place(topic: string): P.Place {
      if topic == main then P.Main else if topic == RetryTopic() then P.Retry else P.Dlq
    }

    /** The configuration of the consumer of `topic`. */
    function ConfigOf(topic: string): ConsumerConfig {
      WithDefaults(if topic == main then cfg else NestedConfig(cfg))
    }

    function Protocol(): P.Config {
      P.Config(WithDefaults(cfg).maxRetries, MAX_INT32, WithDefaults(cfg).dlqMaxPayloadBytes, 65536, P.ResetToOne)
    }
  }

  datatype Slot = Slot(topic: string, part: nat, offset: nat)

  datatype Part = Part(topic: string, part: nat)

  function PartOf(s: Slot): Part { Part(s.topic, s.part) }

  datatype Meta = Meta(origin: Slot, hops: nat, why: P.Why)

  /** `polled` holds the batches that polls returned; it is history, like settled and handled. */
  datatype St = St(recs: map<Slot, H.Rec>, meta: map<Slot, Meta>, committed: map<Part, nat>,
                   settled: set<Slot>, handled: set<Slot>, polled: set<seq<Slot>>)

  function Start(): St { St(map[], map[], map[], {}, {}, {}) }

  function Committed(st: St, p: Part): nat { if p in st.committed then st.committed[p] else 0 }

  // ----- the abstract protocol behind a cluster state ----------------------------------------

  function AbsCopy(sys: Setup, topic: string, rec: H.Rec, meta: Meta): P.Copy<Slot, (string, seq<H.Header>)> {
    var k := H.Get(rec.headers, IDEMPOTENCY_KEY);
    P.Copy(sys.Place(topic), meta.origin, if k != "" then Some(k) else None, Some((rec.key, H.App(rec.headers))),
           rec.value, Some(H.CountOf(rec.headers)), meta.hops, meta.why)
  }

  /** Nothing consumes the DLQ; elsewhere a record is deliverable from the committed offset on. */
  predicate Deliverable(sys: Setup, st: St, s: Slot) {
    sys.Place(s.topic) == P.Dlq || s.offset >= Committed(st, PartOf(s))
  }

  ghost function Abs(sys: Setup, st: St): P.State<Slot, (string, seq<H.Header>)>
    requires st.recs.Keys == st.meta.Keys
  {
    P.State(map s | s in st.recs :: AbsCopy(sys, s.topic, st.recs[s], st.meta[s]),
            (set s | s in st.recs && Deliverable(sys, st, s)), st.settled, st.handled)
  }

  // ----- moves of a record ---------------------------------------------------------------------

  /** How the record published from a consumed one follows from it, and why. */
  datatype Cause = Cause(move: H.Move, uuid: string, inj: seq<H.Header>, why: P.Why)

  /** A move that the consumer of `from` may make: destination, value and reason fit the route. */
  predicate Allowed(sys: Setup, from: Slot, src: H.Rec, topic: string, value: string, move: H.Move, why: P.Why) {
    var cfg := sys.ConfigOf(from.topic);
    && (from.topic == sys.main || from.topic == sys.RetryTopic())
    && value == (if move.ToDlq? then Cut(src.value, cfg.dlqMaxPayloadBytes) else src.value)
    && (match move
        case ToRetry =>
          && topic == DestTopic(from.topic, Sfx(sys.cfg), false)
          && why == P.Failed && H.CountOf(src.headers) < cfg.maxRetries
        case ToDlq(err) =>
          && topic == DestTopic(from.topic, Sfx(sys.cfg), true)
          && (why == P.NonRetryable || (why == P.Exhausted && H.CountOf(src.headers) >= cfg.maxRetries))
        case BackToMain =>
          from.topic == sys.RetryTopic() && topic == sys.main && why == P.Returned)
  }

  /** A record that the consumer of `from` may publish to `topic`. */
  predicate MayPublish(sys: Setup, from: Slot, src: H.Rec, topic: string, rec: H.Rec, cause: Cause) {
    && Allowed(sys, from, src, topic, rec.value, cause.move, cause.why)
    && H.IsInjection(cause.inj)
    && rec.key == src.key
    && rec.headers == H.Moved(src.headers, cause.move, cause.uuid, cause.inj)
  }

  function NewMeta(sys: Setup, st: St, from: Slot, topic: string, cause: Cause): Meta
    requires from in st.meta
  {
    var hop := if from.topic == sys.main && cause.move == H.ToRetry then 1 else 0;
    Meta(st.meta[from].origin, st.meta[from].hops + hop, cause.why)
  }

  function Appended(st: St, s: Slot, rec: H.Rec, meta: Meta): St {
    st.(recs := st.recs[s := rec], meta := st.meta[s := meta])
  }

  predicate IsEnd(st: St, s: Slot) {
    && (forall r :: r in st.recs && PartOf(r) == PartOf(s) ==> r.offset < s.offset)
    && s.offset >= Committed(st, PartOf(s))
  }

  function Sent(sys: Setup, st: St, from: Slot, s: Slot, rec: H.Rec, cause: Cause, acked: bool): St
    requires from in st.meta
  {
    var b := Appended(st, s, rec, NewMeta(sys, st, from, s.topic, cause));
    if acked then b.(settled := b.settled + {from}) else b
  }

  function Marked(st: St, from: Slot): St
    requires from in st.meta
  {
    st.(settled := st.settled + {from}, handled := st.handled + {st.meta[from].origin})
  }

  /** Per partition, the offset after the highest of the given records. */
  function NextOffsets(slots: seq<Slot>): (m: map<Part, nat>)
    ensures forall p :: p in m ==> exists s :: s in slots && PartOf(s) == p && m[p] == s.offset + 1
  {
    if slots == [] then map[]
    else
      var m := NextOffsets(slots[..|slots| - 1]);
      var s := slots[|slots| - 1];
      var p := PartOf(s);
      if p in m && m[p] > s.offset then m else m[p := s.offset + 1]
  }

  function CommitAll(st: St, slots: seq<Slot>): St { st.(committed := st.committed + NextOffsets(slots)) }

  // ----- steps -------------------------------------------------------------------------------

  /** `r` is in the partition of `s`, from the committed offset on and before `s`. */
  predicate Between(st: St, r: Slot, s: Slot) {
    PartOf(r) == PartOf(s) && Committed(st, PartOf(r)) <= r.offset < s.offset
  }

  /**
   The assumption about the client that the consumer's comments state: each poll resumes at the
   committed offset. In every partition the batch starts there and skips no record.
   */
  predicate ResumesAtCommitted(st: St, batch: seq<Slot>) {
    forall i, r :: 0 <= i < |batch| && r in st.recs && Between(st, r, batch[i]) ==> r in batch[..i]
  }

  /** Records of the consumed topics. */
  predicate IsBatch(sys: Setup, st: St, batch: seq<Slot>) {
    forall s :: s in batch ==> s in st.recs && sys.Place(s.topic) != P.Dlq
  }

  predicate AllSettled(st: St, slots: seq<Slot>) { forall s :: s in slots ==> s in st.settled }

  /**
   One step of anyone. Originate is an application's publish, Send a consumer's publish that
   lands, acknowledged or not. A failed publish that does not land changes nothing.
   */
  datatype Step =
    | Originate(s: Slot, rec: H.Rec)
    | Send(from: Slot, s: Slot, rec: H.Rec, cause: Cause, acked: bool)
    | Handled(from: Slot)
    | Poll(batch: seq<Slot>)
    | Commit(batch: seq<Slot>, k: nat)

  predicate Enabled(sys: Setup, st: St, step: Step) {
    match step
    case Originate(s, _) => s.topic == sys.main && IsEnd(st, s)
    case Send(from, s, rec, cause, _) =>
      from in st.recs && from in st.meta && IsEnd(st, s) && MayPublish(sys, from, st.recs[from], s.topic, rec, cause)
    case Handled(from) => from in st.recs && from in st.meta && from.topic == sys.main
    case Poll(batch) => IsBatch(sys, st, batch) && ResumesAtCommitted(st, batch)
    // A consumer commits the first records of a batch it polled, each with an acknowledged outcome.
    case Commit(batch, k) => batch in st.polled && k <= |batch| && AllSettled(st, batch[..k])
  }

  function Apply(sys: Setup, st: St, step: Step): St
    requires Enabled(sys, st, step)
  {
    match step
    case Originate(s, rec) => Appended(st, s, rec, Meta(s, 0, P.Fresh))
    case Send(from, s, rec, cause, acked) => Sent(sys, st, from, s, rec, cause, acked)
    case Handled(from) => Marked(st, from)
    case Poll(batch) => st.(polled := st.polled + {batch})
    case Commit(batch, k) => CommitAll(st, batch[..k])
  }

  /** A step, as a partial function. */
  function Take(sys: Setup): (St, Step) -> Option<St> {
    (st, step) => if Enabled(sys, st, step) then Some(Apply(sys, st, step)) else None
  }

  /** Some run of steps leads from one state to the other. */
  ghost predicate Runs(sys: Setup, a: St, b: St) { Steps.Reaches(Take(sys), a, b) }

  ghost predicate AtMostOneStep(sys: Setup, a: St, b: St) {
    a == b || exists step :: Enabled(sys, a, step) && b == Apply(sys, a, step)
  }

  // ----- what every step keeps -----------------------------------------------------------------

  /** Commit safety: no committed offset passes an unsettled record. */
  ghost predicate CommitSafe(sys: Setup, st: St) {
    forall s :: s in st.recs && !Deliverable(sys, st, s) ==> s in st.settled
  }

  /** A record before one of the batch, in its partition, is settled or earlier in the batch. */
  ghost predicate NothingSkipped(st: St, batch: seq<Slot>) {
    forall i, r :: 0 <= i < |batch| && r in st.recs && PartOf(r) == PartOf(batch[i]) && r.offset < batch[i].offset ==>
      r in st.settled || r in batch[..i]
  }

  ghost predicate BatchOk(sys: Setup, st: St, batch: seq<Slot>) { IsBatch(sys, st, batch) && NothingSkipped(st, batch) }

  ghost predicate Inv(sys: Setup, st: St) {
    && st.recs.Keys == st.meta.Keys
    && (forall s :: s in st.recs ==> sys.Known(s.topic))
    && (forall batch :: batch in st.polled ==> BatchOk(sys, st, batch))
    && CommitSafe(sys, st)
  }

  /** Logs only grow, and only at the end of a partition. */
  ghost predicate LogsGrow(a: St, b: St) {
    && (forall s :: s in a.recs ==> s in b.recs && b.recs[s] == a.recs[s])
    && (forall s :: s in a.meta ==> s in b.meta && b.meta[s] == a.meta[s])
    && (forall s, r :: s in b.recs && s !in a.recs && r in a.recs && PartOf(r) == PartOf(s) ==> r.offset < s.offset)
    && a.settled <= b.settled && a.handled <= b.handled && a.polled <= b.polled
  }

  lemma GrowTrans(a: St, b: St, c: St)
    requires LogsGrow(a, b) && LogsGrow(b, c)
    ensures LogsGrow(a, c)
  {
    forall s, r | s in c.recs && s !in a.recs && r in a.recs && PartOf(r) == PartOf(s) ensures r.offset < s.offset {
      assert r in b.recs;
    }
  }

  /** What any number of steps of any consumers, producers and brokers may do. */
  ghost predicate Evolves(sys: Setup, a: St, b: St) {
    Inv(sys, a) && Inv(sys, b) && LogsGrow(a, b) && Runs(sys, a, b)
  }

  lemma EvolvesSelf(sys: Setup, a: St)
    requires Inv(sys, a)
    ensures Evolves(sys, a, a)
  {
    Steps.ReachesSelf(Take(sys), a);
  }

  lemma EvolvesTrans(sys: Setup, a: St, b: St, c: St)
    requires Evolves(sys, a, b) && Evolves(sys, b, c)
    ensures Evolves(sys, a, c)
  {
    Steps.ReachesTrans(Take(sys), a, b, c);
    GrowTrans(a, b, c);
  }

  lemma AppendGrows(st: St, s: Slot, rec: H.Rec, meta: Meta)
    requires IsEnd(st, s) && st.recs.Keys == st.meta.Keys
    ensures LogsGrow(st, Appended(st, s, rec, meta))
  {
  }

  lemma StepGrows(sys: Setup, st: St, step: Step)
    requires Enabled(sys, st, step) && st.recs.Keys == st.meta.Keys
    ensures LogsGrow(st, Apply(sys, st, step))
  {
    match step
    case Originate(s, rec) => AppendGrows(st, s, rec, Meta(s, 0, P.Fresh));
    case Send(from, s, rec, cause, _) => AppendGrows(st, s, rec, NewMeta(sys, st, from, s.topic, cause));
    case _ =>
  }

  /** A batch stays without gaps: what is appended later comes behind its records. */
  lemma BatchStaysOk(sys: Setup, a: St, b: St, batch: seq<Slot>)
    requires BatchOk(sys, a, batch) && LogsGrow(a, b)
    ensures BatchOk(sys, b, batch)
  {
    forall i, r | 0 <= i < |batch| && r in b.recs && PartOf(r) == PartOf(batch[i]) && r.offset < batch[i].offset
      ensures r in b.settled || r in batch[..i]
    {
      assert batch[i] in a.recs;
      assert r in a.recs;
    }
  }

  /** A poll that resumes at the committed offset skips nothing: what is below it is settled. */
  lemma PolledIsOk(sys: Setup, st: St, batch: seq<Slot>)
    requires CommitSafe(sys, st) && IsBatch(sys, st, batch) && ResumesAtCommitted(st, batch)
    ensures BatchOk(sys, st, batch)
  {
    forall i, r | 0 <= i < |batch| && r in st.recs && PartOf(r) == PartOf(batch[i]) && r.offset < batch[i].offset
      ensures r in st.settled || r in batch[..i]
    {
      assert batch[i] in batch;
      if r.offset < Committed(st, PartOf(r)) {
        assert !Deliverable(sys, st, r);
      } else {
        assert Between(st, r, batch[i]);
      }
    }
  }

  /** Everything up to each of these records is settled. */
  ghost predicate SettledUpTo(st: St, slots: seq<Slot>) {
    forall s, r :: s in slots && r in st.recs && PartOf(r) == PartOf(s) && r.offset <= s.offset ==> r in st.settled
  }

  /** A settled prefix of a batch without gaps has nothing unsettled below it, in any partition. */
  lemma PrefixIsSafe(st: St, batch: seq<Slot>, k: nat)
    requires NothingSkipped(st, batch) && k <= |batch| && AllSettled(st, batch[..k])
    ensures SettledUpTo(st, batch[..k])
  {
    forall s, r | s in batch[..k] && r in st.recs && PartOf(r) == PartOf(s) && r.offset <= s.offset
      ensures r in st.settled
    {
      if r.offset < s.offset {
        var i :| 0 <= i < k && batch[i] == s;
        assert r in batch[..i] ==> r in batch[..k];
      } else {
        assert r == s;
      }
    }
  }

  lemma CommitKeepsSafe(sys: Setup, st: St, slots: seq<Slot>)
    requires CommitSafe(sys, st) && SettledUpTo(st, slots)
    ensures CommitSafe(sys, CommitAll(st, slots))
  {
    var b := CommitAll(st, slots);
    var next := NextOffsets(slots);
    forall r | r in st.recs && !Deliverable(sys, b, r) ensures r in st.settled {
      var p := PartOf(r);
      if p in next {
        var s :| s in slots && PartOf(s) == p && next[p] == s.offset + 1;
      } else {
        assert !Deliverable(sys, st, r);
      }
    }
  }

  lemma AppendKeepsSafe(sys: Setup, st: St, s: Slot, rec: H.Rec, meta: Meta)
    requires CommitSafe(sys, st) && IsEnd(st, s)
    ensures CommitSafe(sys, Appended(st, s, rec, meta))
  {
    var b := Appended(st, s, rec, meta);
    forall r | r in b.recs && !Deliverable(sys, b, r) ensures r in b.settled {
      assert r in st.recs && !Deliverable(sys, st, r);
    }
  }

  lemma StepKeepsCommitSafe(sys: Setup, st: St, step: Step)
    requires Inv(sys, st) && Enabled(sys, st, step)
    ensures CommitSafe(sys, Apply(sys, st, step))
  {
    match step
    case Originate(s, rec) => AppendKeepsSafe(sys, st, s, rec, Meta(s, 0, P.Fresh));
    case Send(from, s, rec, cause, _) => AppendKeepsSafe(sys, st, s, rec, NewMeta(sys, st, from, s.topic, cause));
    case Commit(batch, k) =>
      PrefixIsSafe(st, batch, k);
      CommitKeepsSafe(sys, st, batch[..k]);
    case _ =>
  }

  lemma StepKeepsKnown(sys: Setup, st: St, step: Step)
    requires sys.Good() && Inv(sys, st) && Enabled(sys, st, step)
    ensures Apply(sys, st, step).recs.Keys == Apply(sys, st, step).meta.Keys
    ensures forall s :: s in Apply(sys, st, step).recs ==> sys.Known(s.topic)
  {
    if step.Send? {
      PublishFollows(sys, st, step.from, step.s.topic, step.rec, step.cause);
    }
  }

  lemma StepKeepsInv(sys: Setup, st: St, step: Step)
    requires sys.Good() && Inv(sys, st) && Enabled(sys, st, step)
    ensures Inv(sys, Apply(sys, st, step)) && LogsGrow(st, Apply(sys, st, step))
  {
    var b := Apply(sys, st, step);
    StepGrows(sys, st, step);
    StepKeepsKnown(sys, st, step);
    StepKeepsCommitSafe(sys, st, step);
    forall batch | batch in b.polled ensures BatchOk(sys, b, batch) {
      if batch !in st.polled {
        PolledIsOk(sys, st, batch);
      }
      BatchStaysOk(sys, st, b, batch);
    }
  }

  lemma EvolvesByStep(sys: Setup, st: St, step: Step)
    requires sys.Good() && Inv(sys, st) && Enabled(sys, st, step)
    ensures Evolves(sys, st, Apply(sys, st, step))
  {
    Steps.ReachesByStep(Take(sys), st, step);
    StepKeepsInv(sys, st, step);
  }

  // ----- the simulation ------------------------------------------------------------------------

  /** The simulation of one publish: it is what the abstract protocol calls following. */
  lemma PublishFollows(sys: Setup, st: St, from: Slot, topic: string, rec: H.Rec, cause: Cause)
    requires sys.Good() && Inv(sys, st) && from in st.recs
    requires MayPublish(sys, from, st.recs[from], topic, rec, cause)
    ensures sys.Known(topic)
    ensures P.Follows(sys.Protocol(), AbsCopy(sys, from.topic, st.recs[from], st.meta[from]),
                      AbsCopy(sys, topic, rec, NewMeta(sys, st, from, topic, cause)))
  {
    H.HopKeeps(st.recs[from].headers, cause.move, cause.uuid, cause.inj);
    TopicsDistinct(sys.main, Sfx(sys.cfg));
    TopicsClosed(sys.main, Sfx(sys.cfg));
  }

  lemma AppendCopies(sys: Setup, st: St, s: Slot, rec: H.Rec, meta: Meta)
    requires st.recs.Keys == st.meta.Keys && s !in st.recs
    ensures Abs(sys, Appended(st, s, rec, meta)).copies == Abs(sys, st).copies[s := AbsCopy(sys, s.topic, rec, meta)]
  {
  }

  lemma AppendLive(sys: Setup, st: St, s: Slot, rec: H.Rec, meta: Meta)
    requires st.recs.Keys == st.meta.Keys && s !in st.recs && s.offset >= Committed(st, PartOf(s))
    ensures Abs(sys, Appended(st, s, rec, meta)).live == Abs(sys, st).live + {s}
  {
    var b := Appended(st, s, rec, meta);
    assert Deliverable(sys, b, s);
    assert forall r :: Deliverable(sys, b, r) == Deliverable(sys, st, r);
  }

  /** Appending a record adds one live copy and disturbs nothing else. */
  lemma AppendAbs(sys: Setup, st: St, s: Slot, rec: H.Rec, meta: Meta)
    requires st.recs.Keys == st.meta.Keys && IsEnd(st, s)
    ensures Abs(sys, Appended(st, s, rec, meta))
         == Abs(sys, st).(copies := Abs(sys, st).copies[s := AbsCopy(sys, s.topic, rec, meta)],
                          live := Abs(sys, st).live + {s})
  {
    AppendCopies(sys, st, s, rec, meta);
    AppendLive(sys, st, s, rec, meta);
  }

  /** The parts of the state that the abstraction of records depends on. */
  lemma AbsOfSame(sys: Setup, a: St, b: St)
    requires a.recs.Keys == a.meta.Keys && b.recs == a.recs && b.meta == a.meta && b.committed == a.committed
    ensures Abs(sys, b) == Abs(sys, a).(settled := b.settled, handled := b.handled)
  {
    assert forall s :: Deliverable(sys, b, s) == Deliverable(sys, a, s);
    assert Abs(sys, b).copies == Abs(sys, a).copies && Abs(sys, b).live == Abs(sys, a).live;
  }

  lemma SendSimulates(sys: Setup, st: St, from: Slot, s: Slot, rec: H.Rec, cause: Cause, acked: bool)
    requires sys.Good() && Inv(sys, st) && Enabled(sys, st, Send(from, s, rec, cause, acked))
    ensures var b := Sent(sys, st, from, s, rec, cause, acked);
            b.recs.Keys == b.meta.Keys && P.Reaches(sys.Protocol(), Abs(sys, st), Abs(sys, b))
  {
    var meta := NewMeta(sys, st, from, s.topic, cause);
    PublishFollows(sys, st, from, s.topic, rec, cause);
    AppendAbs(sys, st, s, rec, meta);
    AbsOfSame(sys, Appended(st, s, rec, meta), Sent(sys, st, from, s, rec, cause, acked));
    P.SendReaches(sys.Protocol(), Abs(sys, st), from, s, AbsCopy(sys, s.topic, rec, meta), acked);
  }

  /** Committing only takes settled records out of delivery, or puts records back. */
  lemma CommitSimulates(sys: Setup, st: St, slots: seq<Slot>)
    requires st.recs.Keys == st.meta.Keys && CommitSafe(sys, CommitAll(st, slots))
    ensures P.Reaches(sys.Protocol(), Abs(sys, st), Abs(sys, CommitAll(st, slots)))
  {
    var a, b := Abs(sys, st), Abs(sys, CommitAll(st, slots));
    assert a.live - b.live <= a.settled;
    P.ReachesByStep(sys.Protocol(), a, P.Redeliver(b.live));
    assert b.copies == a.copies;
  }

  /** Every step of the cluster is a run of at most one step of the abstract protocol. */
  lemma StepSimulates(sys: Setup, st: St, step: Step)
    requires sys.Good() && Inv(sys, st) && Enabled(sys, st, step)
    ensures Apply(sys, st, step).recs.Keys == Apply(sys, st, step).meta.Keys
    ensures P.Reaches(sys.Protocol(), Abs(sys, st), Abs(sys, Apply(sys, st, step)))
  {
    match step
    case Originate(s, rec) =>
      AppendAbs(sys, st, s, rec, Meta(s, 0, P.Fresh));
      P.OriginateReaches(sys.Protocol(), Abs(sys, st), s, AbsCopy(sys, s.topic, rec, Meta(s, 0, P.Fresh)));
    case Send(from, s, rec, cause, acked) =>
      SendSimulates(sys, st, from, s, rec, cause, acked);
    case Handled(from) =>
      AbsOfSame(sys, st, Marked(st, from));
      P.ReachesByStep(sys.Protocol(), Abs(sys, st), P.Handle(from));
    case Poll(batch) =>
      AbsOfSame(sys, st, st.(polled := st.polled + {batch}));
      P.ReachesSelf(sys.Protocol(), Abs(sys, st));
    case Commit(batch, k) =>
      StepKeepsCommitSafe(sys, st, step);
      CommitSimulates(sys, st, batch[..k]);
  }

  /** By induction over the steps: what every run keeps, and the abstract run behind it. */
  lemma {:induction false} RunSimulates(sys: Setup, a: St, steps: seq<Step>)
    requires sys.Good() && Inv(sys, a) && Steps.CanRun(Take(sys), a, steps)
    ensures var b := Steps.After(Take(sys), a, steps);
            Inv(sys, b) && LogsGrow(a, b) && P.Reaches(sys.Protocol(), Abs(sys, a), Abs(sys, b))
    decreases |steps|
  {
    if steps == [] {
      P.ReachesSelf(sys.Protocol(), Abs(sys, a));
    } else {
      var m, b := Apply(sys, a, steps[0]), Steps.After(Take(sys), a, steps);
      StepKeepsInv(sys, a, steps[0]);
      StepSimulates(sys, a, steps[0]);
      RunSimulates(sys, m, steps[1..]);
      GrowTrans(a, m, b);
      P.ReachesTrans(sys.Protocol(), Abs(sys, a), Abs(sys, m), Abs(sys, b));
    }
  }

  lemma RunsKeep(sys: Setup, a: St, b: St)
    requires sys.Good() && Inv(sys, a) && Runs(sys, a, b)
    ensures Inv(sys, b) && LogsGrow(a, b) && P.Reaches(sys.Protocol(), Abs(sys, a), Abs(sys, b))
  {
    var steps :| Steps.IsRun(Take(sys), a, steps, b);
    RunSimulates(sys, a, steps);
  }
}
