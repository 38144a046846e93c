/**
 The SQS side of the protocol: queues addressed by URL, messages that stay deliverable until they
 are deleted, and the steps that producers, consumers and the service take on them. The state
 carries the protocol's history variables. What every run of steps keeps, and that it simulates
 the abstract protocol, is proved by induction.
 */
module SqsBroker {
  import opened Base
  import opened GoStrings
  import opened Headers
  import opened Routing
  import Backoff
  import A = SqsAttributes
  import P = Protocol
  import Steps

  datatype ConsumerConfig = ConsumerConfig(queueURL: string, maxRetries: int, retrySuffix: string, dlqSuffix: string,
                                           dlqMaxPayloadBytes: int, backoffBase: int, backoffMax: int)

  /** defaultsForConsumer. */
  function WithDefaults(cfg: ConsumerConfig): (r: ConsumerConfig)
    ensures r.maxRetries == if cfg.maxRetries >= 1 then cfg.maxRetries else 3
    ensures r.dlqMaxPayloadBytes == if cfg.dlqMaxPayloadBytes >= 1 then cfg.dlqMaxPayloadBytes else 65536
    ensures r.retrySuffix == if cfg.retrySuffix != "" then cfg.retrySuffix else "-retry"
    ensures r.dlqSuffix == if cfg.dlqSuffix != "" then cfg.dlqSuffix else "-dlq"
    ensures r.backoffBase == if cfg.backoffBase >= 1 then cfg.backoffBase else 5_000_000_000
    ensures r.backoffMax == if cfg.backoffMax >= 1 then cfg.backoffMax else 900_000_000_000
    ensures r.queueURL == cfg.queueURL
  {
    cfg.(maxRetries := if cfg.maxRetries <= 0 then 3 else cfg.maxRetries,
         retrySuffix := if cfg.retrySuffix == "" then "-retry" else cfg.retrySuffix,
         dlqSuffix := if cfg.dlqSuffix == "" then "-dlq" else cfg.dlqSuffix,
         dlqMaxPayloadBytes := if cfg.dlqMaxPayloadBytes <= 0 then 65536 else cfg.dlqMaxPayloadBytes,
         backoffBase := if cfg.backoffBase <= 0 then 5 * Backoff.SECOND else cfg.backoffBase,
         backoffMax := if cfg.backoffMax <= 0 then Backoff.SQS_MAX_DELAY else cfg.backoffMax)
  }

  /** ConsumeRetry fills in the defaults, and its Consume does so again. */
  lemma DefaultsIdempotent(cfg: ConsumerConfig)
    ensures WithDefaults(WithDefaults(cfg)) == WithDefaults(cfg)
  {
  }

  datatype Setup = Setup(raw: ConsumerConfig) {
    function Cfg(): ConsumerConfig { WithDefaults(raw) }

    function Sfx(): Suffixes { Suffixes(Cfg().retrySuffix, Cfg().dlqSuffix) }

    function Main(): string { raw.queueURL }

    predicate Good() { SeparableURL(Main(), Sfx()) }

    function RetryURL(): string { DestQueueURL(Main(), Sfx(), false) }

    function DlqURL(): string { DestQueueURL(Main(), Sfx(), true) }

    predicate Known(url: string) { url == Main() || url == RetryURL() || url == DlqURL() }

    function Place(url: string): P.Place {
      if url == Main() then P.Main else if url == RetryURL() then P.Retry else P.Dlq
    }

    function Protocol(): P.Config {
      P.Config(Cfg().maxRetries, 2, Cfg().dlqMaxPayloadBytes, Cfg().dlqMaxPayloadBytes, P.ResetToOne)
    }
  }

  /** A message on a queue. */
  datatype Msg = Msg(url: string, body: string, attrs: A.Attrs, delaySeconds: nat)

  datatype Meta = Meta(origin: nat, hops: nat, why: P.Why)

  datatype St = St(log: map<nat, Msg>, meta: map<nat, Meta>, live: set<nat>, settled: set<nat>, handled: set<nat>)

  function Start(): St { St(map[], map[], {}, {}, {}) }

  // ----- the abstract protocol behind a broker state -----------------------------------------

  function AbsCopy(sys: Setup, msg: Msg, meta: Meta): P.Copy<nat, map<string, string>> {
    var k := A.ReadPlain(msg.attrs, IDEMPOTENCY_KEY);
    P.Copy(sys.Place(msg.url), meta.origin,
           if A.PlainFor(msg.attrs, IDEMPOTENCY_KEY) && k != "" then Some(k) else None,
           Some(A.App(msg.attrs)), msg.body,
           if A.PlainFor(msg.attrs, RETRY_COUNT) then Some(ParseCount(A.ReadPlain(msg.attrs, RETRY_COUNT))) else None,
           meta.hops, meta.why)
  }

  ghost function Abs(sys: Setup, st: St): P.State<nat, map<string, string>>
    requires st.log.Keys == st.meta.Keys
  {
    P.State(map c | c in st.log :: AbsCopy(sys, st.log[c], st.meta[c]), st.live, st.settled, st.handled)
  }

  // ----- moves of a message --------------------------------------------------------------------

  /** How the message sent for a received one follows from it, and why. */
  datatype Cause = Cause(move: A.Move, key: string, inj: map<string, string>, delayCount: nat, count: nat, why: P.Why)

  function BodyOf(cfg: ConsumerConfig, src: Msg, move: A.Move): string
    requires cfg.dlqMaxPayloadBytes >= 0
  {
    if move.ToDlq? then Cut(src.body, cfg.dlqMaxPayloadBytes) else src.body
  }

  function DelayOf(cfg: ConsumerConfig, move: A.Move, count: nat): nat {
    if move.ToRetry? then Backoff.DelaySeconds(Backoff.SqsDelay(cfg.backoffBase, cfg.backoffMax, count)) else 0
  }

  /** Only a move to the retry queue waits: the backoff for the counter, in whole seconds. */
  lemma DelayIs(cfg: ConsumerConfig, move: A.Move, count: nat)
    ensures !move.ToRetry? ==> DelayOf(cfg, move, count) == 0
    ensures move.ToRetry? && 0 < cfg.backoffBase < 0x8000_0000_0000 && 0 < cfg.backoffMax ==>
              var d := Backoff.Doubled(cfg.backoffBase, Min(count, 16));
              DelayOf(cfg, move, count) == Min(Min(cfg.backoffMax, 900_000_000_000), d) / 1_000_000_000
  {
    if move.ToRetry? && 0 < cfg.backoffBase < 0x8000_0000_0000 && 0 < cfg.backoffMax {
      Backoff.DelayExact(cfg.backoffBase, cfg.backoffMax, count);
      Backoff.SentDelay(cfg.backoffBase, cfg.backoffMax, count);
    }
  }

  /** A move that the consumer of the source's queue may make; `count` is a counter it read. */
  predicate Allowed(sys: Setup, src: Msg, url: string, move: A.Move, count: nat, why: P.Why) {
    var cfg := sys.Cfg();
    && A.IsCount(src.attrs, count) && count <= MAX_INT64
    && (match move
        case ToRetry =>
          && src.url == sys.Main() && url == DestQueueURL(src.url, sys.Sfx(), false)
          && why == P.Failed && count < cfg.maxRetries
        case ToDlq(err) =>
          && src.url == sys.Main() && url == DestQueueURL(src.url, sys.Sfx(), true)
          && (why == P.NonRetryable || (why == P.Exhausted && count >= cfg.maxRetries))
        case BackToMain(n) =>
          src.url == sys.RetryURL() && url == sys.Main() && why == P.Returned && n == count)
  }

  /** A message that the consumer of the source's queue may send. */
  predicate MaySend(sys: Setup, src: Msg, msg: Msg, cause: Cause) {
    && Allowed(sys, src, msg.url, cause.move, cause.count, cause.why)
    && A.IsIdentity(src.attrs, cause.move, cause.key)
    && A.IsInjection(cause.inj, A.Forward(A.Prepared(src.attrs, cause.move)))
    && A.IsCount(src.attrs, cause.delayCount)
    && |A.Forward(A.Prepared(src.attrs, cause.move))| <= A.MAX_CUSTOM_ATTRIBUTES
    && msg == Msg(msg.url, BodyOf(sys.Cfg(), src, cause.move), A.Moved(src.attrs, cause.move, cause.key, cause.inj),
                  DelayOf(sys.Cfg(), cause.move, cause.delayCount))
  }

  function MovedMeta(meta: Meta, cause: Cause): Meta {
    Meta(meta.origin, meta.hops + (if cause.move.ToRetry? then 1 else 0), cause.why)
  }

  function Appended(st: St, c: nat, msg: Msg, meta: Meta): St {
    st.(log := st.log[c := msg], meta := st.meta[c := meta], live := st.live + {c})
  }

  function Sent(st: St, from: nat, c: nat, msg: Msg, cause: Cause, acked: bool): St
    requires from in st.meta
  {
    var b := Appended(st, c, msg, MovedMeta(st.meta[from], cause));
    if acked then b.(settled := b.settled + {from}) else b
  }

  function Marked(st: St, from: nat): St
    requires from in st.meta
  {
    st.(settled := st.settled + {from}, handled := st.handled + {st.meta[from].origin})
  }

  // ----- steps -------------------------------------------------------------------------------

  /**
   One step of anyone. Originate is an application's publish, Send a consumer's publish that
   lands, acknowledged or not. A failed publish or deletion without effect changes nothing.
   */
  datatype Step =
    | Originate(c: nat, body: string, attrs: A.Attrs)
    | Send(from: nat, c: nat, msg: Msg, cause: Cause, acked: bool)
    | Handled(from: nat)
    | Delete(c: nat)

  predicate Enabled(sys: Setup, st: St, step: Step) {
    match step
    case Originate(c, _, _) => c !in st.log
    case Send(from, c, msg, cause, _) =>
      from in st.log && from in st.meta && c !in st.log && MaySend(sys, st.log[from], msg, cause)
    case Handled(from) => from in st.log && from in st.meta && st.log[from].url == sys.Main()
    // A consumer deletes a message after a nil result or an acknowledged publish.
    case Delete(c) => c in st.settled
  }

  function Apply(sys: Setup, st: St, step: Step): St
    requires Enabled(sys, st, step)
  {
    match step
    case Originate(c, body, attrs) => Appended(st, c, Msg(sys.Main(), body, attrs, 0), Meta(c, 0, P.Fresh))
    case Send(from, c, msg, cause, acked) => Sent(st, from, c, msg, cause, acked)
    case Handled(from) => Marked(st, from)
    case Delete(c) => st.(live := st.live - {c})
  }

  /** A step, as a partial function. */
  function Take(sys: Setup): (St, Step) -> Option<St> {
    (st, step) => if Enabled(sys, st, step) then Some(Apply(sys, st, step)) else None
  }

  /** Some run of steps leads from one state to the other. */
  ghost predicate Runs(sys: Setup, a: St, b: St) { Steps.Reaches(Take(sys), a, b) }

  ghost predicate AtMostOneStep(sys: Setup, a: St, b: St) {
    a == b || exists step :: Enabled(sys, a, step) && b == Apply(sys, a, step)
  }

  // ----- what every step keeps -----------------------------------------------------------------

  ghost predicate Inv(sys: Setup, st: St) {
    && st.log.Keys == st.meta.Keys && st.live <= st.log.Keys
    && (forall c :: c in st.log ==> sys.Known(st.log[c].url))
  }

  ghost predicate Grows(a: St, b: St) {
    && (forall c :: c in a.log ==> c in b.log && b.log[c] == a.log[c])
    && (forall c :: c in a.meta ==> c in b.meta && b.meta[c] == a.meta[c])
    && a.settled <= b.settled && a.handled <= b.handled
  }

  /** What any number of steps of any consumers, producers and the service may do. */
  ghost predicate Evolves(sys: Setup, a: St, b: St) {
    Inv(sys, a) && Inv(sys, b) && Grows(a, b) && Runs(sys, a, b)
  }

  lemma EvolvesSelf(sys: Setup, a: St)
    requires Inv(sys, a)
    ensures Evolves(sys, a, a)
  {
    Steps.ReachesSelf(Take(sys), a);
  }

  lemma EvolvesTrans(sys: Setup, a: St, b: St, c: St)
    requires Evolves(sys, a, b) && Evolves(sys, b, c)
    ensures Evolves(sys, a, c)
  {
    Steps.ReachesTrans(Take(sys), a, b, c);
  }

  lemma AppendKeepsInv(sys: Setup, st: St, c: nat, msg: Msg, meta: Meta)
    requires Inv(sys, st) && c !in st.log && sys.Known(msg.url)
    ensures Inv(sys, Appended(st, c, msg, meta)) && Grows(st, Appended(st, c, msg, meta))
  {
  }

  lemma StepKeepsInv(sys: Setup, st: St, step: Step)
    requires sys.Good() && Inv(sys, st) && Enabled(sys, st, step)
    ensures Inv(sys, Apply(sys, st, step)) && Grows(st, Apply(sys, st, step))
  {
    match step
    case Originate(c, body, attrs) =>
      AppendKeepsInv(sys, st, c, Msg(sys.Main(), body, attrs, 0), Meta(c, 0, P.Fresh));
    case Send(from, c, msg, cause, _) =>
      SendBody(sys, st.log[from], msg, cause);
      SendPlaces(sys, st.log[from], msg, cause);
      AppendKeepsInv(sys, st, c, msg, MovedMeta(st.meta[from], cause));
    case _ =>
  }

  lemma EvolvesByStep(sys: Setup, st: St, step: Step)
    requires sys.Good() && Inv(sys, st) && Enabled(sys, st, step)
    ensures Evolves(sys, st, Apply(sys, st, step))
  {
    Steps.ReachesByStep(Take(sys), st, step);
    StepKeepsInv(sys, st, step);
  }

  // ----- the simulation ------------------------------------------------------------------------

  /** Where a send goes, in the abstract protocol's places. */
  lemma SendPlaces(sys: Setup, src: Msg, msg: Msg, cause: Cause)
    requires sys.Good() && Allowed(sys, src, msg.url, cause.move, cause.count, cause.why)
    ensures sys.Known(msg.url)
    ensures sys.Place(src.url) == if cause.move.BackToMain? then P.Retry else P.Main
    ensures sys.Place(msg.url) == match cause.move
                                  case ToRetry => P.Retry
                                  case ToDlq(_) => P.Dlq
                                  case BackToMain(_) => P.Main
  {
    QueuesClosed(sys.Main(), sys.Sfx());
  }

  /** What a send keeps, in the abstract protocol's terms. */
  lemma SendKeeps(sys: Setup, src: Msg, meta: Meta, msg: Msg, meta': Meta, cause: Cause)
    requires MaySend(sys, src, msg, cause)
    ensures var a, b := AbsCopy(sys, src, meta), AbsCopy(sys, msg, meta');
            && (a.key.Some? ==> b.key == a.key) && b.app == a.app
            && (a.count.Some? ==> cause.count == a.count.value)
            && (cause.move.ToRetry? ==> b.count == Some(1))
            && (cause.move.BackToMain? ==> b.count == Some(cause.count))
  {
    A.HopKeeps(src.attrs, cause.move, cause.key, cause.inj);
    if A.PlainFor(src.attrs, RETRY_COUNT) {
      A.PlainCount(src.attrs, cause.count);
    }
  }

  /** The routing half of following. */
  lemma FollowsByParts(sys: Setup, src: Msg, msg: Msg, cause: Cause,
                       a: P.Copy<nat, map<string, string>>, b: P.Copy<nat, map<string, string>>)
    requires sys.Good() && Allowed(sys, src, msg.url, cause.move, cause.count, cause.why)
    requires a.place == sys.Place(src.url) && b.place == sys.Place(msg.url)
    requires a.body == src.body && b.body == BodyOf(sys.Cfg(), src, cause.move)
    requires b.origin == a.origin && b.why == cause.why && b.hops == a.hops + (if cause.move.ToRetry? then 1 else 0)
    requires (a.key.Some? ==> b.key == a.key) && b.app == a.app && (a.count.Some? ==> cause.count == a.count.value)
    requires cause.move.ToRetry? ==> b.count == Some(1)
    requires cause.move.BackToMain? ==> b.count == Some(cause.count)
    ensures P.Follows(sys.Protocol(), a, b)
  {
    SendPlaces(sys, src, msg, cause);
  }

  lemma SendBody(sys: Setup, src: Msg, msg: Msg, cause: Cause)
    requires MaySend(sys, src, msg, cause)
    ensures Allowed(sys, src, msg.url, cause.move, cause.count, cause.why)
    ensures msg.body == BodyOf(sys.Cfg(), src, cause.move)
  {
  }

  /** The simulation of one send: it is what the abstract protocol calls following. */
  lemma SendFollows(sys: Setup, src: Msg, meta: Meta, msg: Msg, cause: Cause)
    requires sys.Good() && MaySend(sys, src, msg, cause)
    ensures P.Follows(sys.Protocol(), AbsCopy(sys, src, meta), AbsCopy(sys, msg, MovedMeta(meta, cause)))
  {
    SendBody(sys, src, msg, cause);
    SendKeeps(sys, src, meta, msg, MovedMeta(meta, cause), cause);
    FollowsByParts(sys, src, msg, cause, AbsCopy(sys, src, meta), AbsCopy(sys, msg, MovedMeta(meta, cause)));
  }

  lemma AppendCopies(sys: Setup, st: St, c: nat, msg: Msg, meta: Meta)
    requires st.log.Keys == st.meta.Keys && c !in st.log
    ensures Abs(sys, Appended(st, c, msg, meta))
         == Abs(sys, st).(copies := Abs(sys, st).copies[c := AbsCopy(sys, msg, meta)], live := st.live + {c})
  {
    assert Abs(sys, Appended(st, c, msg, meta)).copies == Abs(sys, st).copies[c := AbsCopy(sys, msg, meta)];
  }

  /** The parts of the state that the abstraction of messages depends on. */
  lemma AbsOfSame(sys: Setup, a: St, b: St)
    requires a.log.Keys == a.meta.Keys && b.log == a.log && b.meta == a.meta
    ensures Abs(sys, b) == Abs(sys, a).(live := b.live, settled := b.settled, handled := b.handled)
  {
    assert Abs(sys, b).copies == Abs(sys, a).copies;
  }

  lemma SendSimulates(sys: Setup, st: St, from: nat, c: nat, msg: Msg, cause: Cause, acked: bool)
    requires sys.Good() && Inv(sys, st) && Enabled(sys, st, Send(from, c, msg, cause, acked))
    ensures var b := Sent(st, from, c, msg, cause, acked);
            b.log.Keys == b.meta.Keys && P.Reaches(sys.Protocol(), Abs(sys, st), Abs(sys, b))
  {
    var meta := MovedMeta(st.meta[from], cause);
    SendFollows(sys, st.log[from], st.meta[from], msg, cause);
    AppendCopies(sys, st, c, msg, meta);
    AbsOfSame(sys, Appended(st, c, msg, meta), Sent(st, from, c, msg, cause, acked));
    P.SendReaches(sys.Protocol(), Abs(sys, st), from, c, AbsCopy(sys, msg, meta), acked);
  }

  /** Every step of the queues is a run of at most one step of the abstract protocol. */
  lemma StepSimulates(sys: Setup, st: St, step: Step)
    requires sys.Good() && Inv(sys, st) && Enabled(sys, st, step)
    ensures Apply(sys, st, step).log.Keys == Apply(sys, st, step).meta.Keys
    ensures P.Reaches(sys.Protocol(), Abs(sys, st), Abs(sys, Apply(sys, st, step)))
  {
    match step
    case Originate(c, body, attrs) =>
      var msg := Msg(sys.Main(), body, attrs, 0);
      AppendCopies(sys, st, c, msg, Meta(c, 0, P.Fresh));
      P.OriginateReaches(sys.Protocol(), Abs(sys, st), c, AbsCopy(sys, msg, Meta(c, 0, P.Fresh)));
    case Send(from, c, msg, cause, acked) =>
      SendSimulates(sys, st, from, c, msg, cause, acked);
    case Handled(from) =>
      AbsOfSame(sys, st, Marked(st, from));
      P.ReachesByStep(sys.Protocol(), Abs(sys, st), P.Handle(from));
    case Delete(c) =>
      AbsOfSame(sys, st, st.(live := st.live - {c}));
      P.ReachesByStep(sys.Protocol(), Abs(sys, st), P.Redeliver(st.live - {c}));
  }

  /** By induction over the steps: what every run keeps, and the abstract run behind it. */
  lemma {:induction false} RunSimulates(sys: Setup, a: St, steps: seq<Step>)
    requires sys.Good() && Inv(sys, a) && Steps.CanRun(Take(sys), a, steps)
    ensures var b := Steps.After(Take(sys), a, steps);
            Inv(sys, b) && Grows(a, b) && P.Reaches(sys.Protocol(), Abs(sys, a), Abs(sys, b))
    decreases |steps|
  {
    if steps == [] {
      P.ReachesSelf(sys.Protocol(), Abs(sys, a));
    } else {
      var m, b := Apply(sys, a, steps[0]), Steps.After(Take(sys), a, steps);
      StepKeepsInv(sys, a, steps[0]);
      StepSimulates(sys, a, steps[0]);
      RunSimulates(sys, m, steps[1..]);
      P.ReachesTrans(sys.Protocol(), Abs(sys, a), Abs(sys, m), Abs(sys, b));
    }
  }

  lemma RunsKeep(sys: Setup, a: St, b: St)
    requires sys.Good() && Inv(sys, a) && Runs(sys, a, b)
    ensures Inv(sys, b) && Grows(a, b) && P.Reaches(sys.Protocol(), Abs(sys, a), Abs(sys, b))
  {
    var steps :| Steps.IsRun(Take(sys), a, steps, b);
    RunSimulates(sys, a, steps);
  }
}
