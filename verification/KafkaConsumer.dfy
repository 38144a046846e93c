/** The Kafka producer and the two consumers, as they run against a cluster. */
module KafkaConsumer {
  import opened Base
  import opened GoStrings
  import opened Headers
  import opened Routing
  import opened KafkaCluster
  import opened KafkaClient
  import opened KafkaRecord
  import H = KafkaHeaders
  import P = Protocol

  // ----- producer ------------------------------------------------------------------------------

  datatype PublishOpt = WithIdempotencyKey(key: string) | WithHeader(h: H.Header) | ForceSample

  class PublishConfig {
    var idempotencyKey: string
    var extraHeaders: seq<H.Header>
    var forceSample: bool

    constructor ()
      ensures idempotencyKey == "" && extraHeaders == []
    {
      idempotencyKey, extraHeaders, forceSample := "", [], false;
    }

    method Apply(o: PublishOpt)
      modifies this
      ensures extraHeaders == old(extraHeaders) + Extra([o])
      ensures idempotencyKey == if o.WithIdempotencyKey? then o.key else old(idempotencyKey)
    {
      match o {
        case WithIdempotencyKey(k) => idempotencyKey := k;
        case WithHeader(h) => extraHeaders := extraHeaders + [h];
        case ForceSample => forceSample := true;
      }
    }
  }

  /** The headers that options append, in order. */
  function Extra(opts: seq<PublishOpt>): seq<H.Header> {
    if opts == [] then []
    else Extra(opts[..|opts| - 1]) + (if opts[|opts| - 1].WithHeader? then [opts[|opts| - 1].h] else [])
  }

  /** The identity that options set: the last one given. */
  function KeyOf(opts: seq<PublishOpt>): string {
    if opts == [] then ""
    else if opts[|opts| - 1].WithIdempotencyKey? then opts[|opts| - 1].key
    else KeyOf(opts[..|opts| - 1])
  }

  lemma OneMoreOpt(opts: seq<PublishOpt>, o: PublishOpt)
    ensures Extra(opts + [o]) == Extra(opts) + Extra([o])
    ensures KeyOf(opts + [o]) == if o.WithIdempotencyKey? then o.key else KeyOf(opts)
    ensures Extra([o]) == if o.WithHeader? then [o.h] else []
  {
    assert (opts + [o])[..|opts|] == opts;
    assert [o][..0] == [];
  }

  /** The loop over the headers: an option for each that is not reinjected. */
  method ForwardOpts(hs: seq<H.Header>, start: seq<PublishOpt>) returns (opts: seq<PublishOpt>)
    requires Extra(start) == []
    ensures Extra(opts) == Filter(hs, H.Forwarded) && KeyOf(opts) == KeyOf(start)
  {
    opts := start;
    for i := 0 to |hs|
      invariant Extra(opts) == Filter(hs[..i], H.Forwarded) && KeyOf(opts) == KeyOf(start)
    {
      FilterSnoc(hs, i, H.Forwarded);
      if hs[i].key == IDEMPOTENCY_KEY || hs[i].key == TRACE_PARENT || hs[i].key == TRACE_STATE {
        continue;
      }
      OneMoreOpt(opts, WithHeader(hs[i]));
      opts := opts + [WithHeader(hs[i])];
    }
    assert hs[..|hs|] == hs;
  }

  /** The options both consumers build from a prepared record. */
  method BuildOpts(hs: seq<H.Header>, forceSample: bool) returns (opts: seq<PublishOpt>)
    ensures Extra(opts) == Filter(hs, H.Forwarded) && KeyOf(opts) == H.Get(hs, IDEMPOTENCY_KEY)
  {
    opts := [];
    if forceSample {
      OneMoreOpt(opts, ForceSample);
      opts := opts + [ForceSample];
    }
    var k := Get(hs, IDEMPOTENCY_KEY);
    if k != "" {
      OneMoreOpt(opts, WithIdempotencyKey(k));
      opts := opts + [WithIdempotencyKey(k)];
    }
    opts := ForwardOpts(hs, opts);
  }

  /** The record that a move of `src` publishes, up to the UUID and the trace headers. */
  predicate IsMoved(src: H.Rec, rec: H.Rec, value: string, cause: Cause) {
    && H.IsInjection(cause.inj) && cause.uuid != ""
    && rec == H.Rec(src.key, value, H.Moved(src.headers, cause.move, cause.uuid, cause.inj))
  }

  /** Since `before`, `topic` received a copy of the record at `from`, moved that way. */
  ghost predicate Delivered(before: St, now: St, from: Slot, topic: string, value: string, move: H.Move, why: P.Why)
    requires from in before.recs && from in before.meta
  {
    exists s, cause: Cause ::
      && s !in before.recs && s in now.recs && s in now.meta && s.topic == topic
      && cause.move == move && cause.why == why
      && IsMoved(before.recs[from], now.recs[s], value, cause)
      && now.meta[s].origin == before.meta[from].origin && now.meta[s].why == why
  }

  lemma DeliveredLater(sys: Setup, a: St, b: St, c: St, from: Slot, topic: string, value: string, move: H.Move,
                       why: P.Why)
    requires from in a.recs && from in a.meta && from in b.recs && from in b.meta
    requires LogsGrow(a, b) && LogsGrow(b, c)
    requires Delivered(b, c, from, topic, value, move, why) || Delivered(a, b, from, topic, value, move, why)
    ensures Delivered(a, c, from, topic, value, move, why)
  {
    if Delivered(b, c, from, topic, value, move, why) {
      var s, cause: Cause :|
        && s !in b.recs && s in c.recs && s in c.meta && s.topic == topic
        && cause.move == move && cause.why == why
        && IsMoved(b.recs[from], c.recs[s], value, cause)
        && c.meta[s].origin == b.meta[from].origin && c.meta[s].why == why;
      assert s !in a.recs && IsMoved(a.recs[from], c.recs[s], value, cause);
    } else {
      var s, cause: Cause :|
        && s !in a.recs && s in b.recs && s in b.meta && s.topic == topic
        && cause.move == move && cause.why == why
        && IsMoved(a.recs[from], b.recs[s], value, cause)
        && b.meta[s].origin == a.meta[from].origin && b.meta[s].why == why;
      assert IsMoved(a.recs[from], c.recs[s], value, cause);
    }
  }

  /** Publish, for a record whose options were built from the prepared headers of a move. */
  method Publish(c: Cluster, topic: string, key: string, value: string, opts: seq<PublishOpt>,
                 from: Slot, move: H.Move, why: P.Why) returns (err: Option<Error>)
    requires c.Valid() && from in c.st.recs && from in c.st.meta && key == c.st.recs[from].key
    requires Allowed(c.sys, from, c.st.recs[from], topic, value, move, why)
    requires var hs := H.Prepared(c.st.recs[from].headers, move);
             Extra(opts) == Filter(hs, H.Forwarded) && KeyOf(opts) == H.Get(hs, IDEMPOTENCY_KEY)
    modifies c`st, c`sends
    ensures c.Valid() && Evolves(c.sys, old(c.st), c.st) && c.sends == old(c.sends) + 1
    ensures err.None? ==> from in c.st.settled && Delivered(old(c.st), c.st, from, topic, value, move, why)
  {
    var rec, uuid, inj := BuildRecord(topic, key, value, opts);
    var cause := Cause(move, uuid, inj, why);
    err := c.ProduceSync(rec.topic, rec.Stored(), from, cause);
    if err.None? {
      LandedIsDelivered(c, old(c.st), from, topic, rec.Stored(), cause);
    }
  }

  lemma LandedIsDelivered(c: Cluster, before: St, from: Slot, topic: string, rec: H.Rec, cause: Cause)
    requires from in before.recs && from in before.meta
    requires c.Landed(before, from, topic, rec, cause) && IsMoved(before.recs[from], rec, rec.value, cause)
    ensures Delivered(before, c.st, from, topic, rec.value, cause.move, cause.why)
  {
    var s :| s !in before.recs && s in c.st.recs && s in c.st.meta && s.topic == topic
             && c.st.recs[s] == rec && c.st.meta[s] == NewMeta(c.sys, before, from, topic, cause);
    assert IsMoved(before.recs[from], c.st.recs[s], rec.value, cause);
  }

  /** The record that Publish hands to the client. */
  method BuildRecord(topic: string, key: string, value: string, opts: seq<PublishOpt>)
    returns (rec: Record, uuid: string, inj: seq<H.Header>)
    ensures fresh(rec) && rec.topic == topic && H.IsInjection(inj) && uuid != ""
    ensures rec.Stored() == H.Rec(key, value, H.Inject(H.Set(Extra(opts), IDEMPOTENCY_KEY, uuid), inj))
    ensures KeyOf(opts) != "" ==> uuid == KeyOf(opts)
  {
    var cfg := new PublishConfig();
    for i := 0 to |opts|
      invariant cfg.extraHeaders == Extra(opts[..i]) && cfg.idempotencyKey == KeyOf(opts[..i])
    {
      assert opts[..i + 1] == opts[..i] + [opts[i]];
      OneMoreOpt(opts[..i], opts[i]);
      cfg.Apply(opts[i]);
    }
    assert opts[..|opts|] == opts;
    rec := new Record(topic, key, value, cfg.extraHeaders);
    uuid := rec.SetIdempotencyKey(cfg.idempotencyKey);
    inj := rec.InjectTraceHeaders();
  }

  // ----- consumer ------------------------------------------------------------------------------

  /** The reason for a route other than commit and drop. */
  function WhyOf(err: Option<Error>, route: Route): P.Why {
    if route == RouteRetry then P.Failed
    else if err.Some? && err.value.nonRetryable then P.NonRetryable
    else P.Exhausted
  }

  function MoveOf(err: Option<Error>, toDLQ: bool): H.Move {
    if toDLQ then H.ToDlq(err) else H.ToRetry
  }

  function ValueOf(src: H.Rec, cfg: ConsumerConfig, toDLQ: bool): string
    requires cfg.dlqMaxPayloadBytes >= 0
  {
    if toDLQ then Cut(src.value, cfg.dlqMaxPayloadBytes) else src.value
  }

  /** The sanitized copy of a record, with its reason or its counter, and its options. */
  method BuildRepublish(src: H.Rec, dest: string, handlerErr: Option<Error>, cfg: ConsumerConfig, toDLQ: bool)
    returns (key: string, value: string, opts: seq<PublishOpt>)
    requires cfg.dlqMaxPayloadBytes >= 0
    ensures key == src.key && value == ValueOf(src, cfg, toDLQ)
    ensures var hs := H.Prepared(src.headers, MoveOf(handlerErr, toDLQ));
            Extra(opts) == Filter(hs, H.Forwarded) && KeyOf(opts) == H.Get(hs, IDEMPOTENCY_KEY)
  {
    var sanitized := SanitizeForRepublish(src, dest);
    if toDLQ {
      if |sanitized.value| > cfg.dlqMaxPayloadBytes {
        sanitized.value := sanitized.value[..cfg.dlqMaxPayloadBytes];
      }
      sanitized.SetErrorReason(handlerErr);
    } else {
      var n := sanitized.IncRetryCount();
    }
    assert sanitized.headers == H.Prepared(src.headers, MoveOf(handlerErr, toDLQ));
    opts := BuildOpts(sanitized.headers, true);
    key, value := sanitized.key, sanitized.value;
  }

  /** Sleeping between two attempts, with interference. */
  method Sleep(c: Cluster, ghost before: St)
    requires c.Valid() && Evolves(c.sys, before, c.st)
    modifies c`st
    ensures c.Valid() && Evolves(c.sys, before, c.st)
  {
    ghost var tried := c.st;
    c.Interfere();
    EvolvesTrans(c.sys, before, tried, c.st);
  }

  /** One attempt, seen from the state before the first one. */
  method Attempt(c: Cluster, topic: string, key: string, value: string, opts: seq<PublishOpt>, from: Slot, move: H.Move,
                 why: P.Why, ghost before: St)
    returns (err: Option<Error>)
    requires c.Valid() && from in before.recs && from in before.meta && key == before.recs[from].key
    requires Evolves(c.sys, before, c.st) && Allowed(c.sys, from, before.recs[from], topic, value, move, why)
    requires var hs := H.Prepared(before.recs[from].headers, move);
             Extra(opts) == Filter(hs, H.Forwarded) && KeyOf(opts) == H.Get(hs, IDEMPOTENCY_KEY)
    modifies c`st, c`sends
    ensures c.Valid() && Evolves(c.sys, before, c.st) && c.sends == old(c.sends) + 1
    ensures err.None? ==> from in c.st.settled && Delivered(before, c.st, from, topic, value, move, why)
  {
    ghost var start := c.st;
    err := Publish(c, topic, key, value, opts, from, move, why);
    EvolvesTrans(c.sys, before, start, c.st);
    if err.None? {
      DeliveredLater(c.sys, before, start, c.st, from, topic, value, move, why);
    }
  }

  /**
   Three publishes, with interference while sleeping between them: fewer only when one is acknowledged
   or the context ends (`cut`).
   */
  method Attempts(c: Cluster, topic: string, key: string, value: string, opts: seq<PublishOpt>, from: Slot,
                  move: H.Move, why: P.Why)
    returns (err: Option<Error>, tries: nat, cut: bool)
    requires c.Valid() && from in c.st.recs && from in c.st.meta && key == c.st.recs[from].key
    requires Allowed(c.sys, from, c.st.recs[from], topic, value, move, why)
    requires var hs := H.Prepared(c.st.recs[from].headers, move);
             Extra(opts) == Filter(hs, H.Forwarded) && KeyOf(opts) == H.Get(hs, IDEMPOTENCY_KEY)
    modifies c`st, c`sends
    ensures c.Valid() && Evolves(c.sys, old(c.st), c.st) && c.sends == old(c.sends) + tries
    ensures 1 <= tries <= 3 && (err.Some? ==> tries == 3 || cut)
    ensures err.None? ==> from in c.st.settled && Delivered(old(c.st), c.st, from, topic, value, move, why)
  {
    ghost var before := c.st;
    tries, cut, err := 0, false, None;
    EvolvesSelf(c.sys, c.st);
    for i := 0 to 3
      invariant c.Valid() && Evolves(c.sys, before, c.st) && c.sends == old(c.sends) + tries
      invariant tries == i && (i > 0 ==> err.Some?)
    {
      tries := tries + 1;
      err := Attempt(c, topic, key, value, opts, from, move, why, before);
      if err.None? {
        return;
      }
      cut := *;
      if cut {
        return;
      }
      Sleep(c, before);
    }
  }

  /** republish: nothing without a producer. */
  method Republish(c: Cluster, hasProducer: bool, from: Slot, src: H.Rec, dest: string, handlerErr: Option<Error>,
                   cfg: ConsumerConfig, toDLQ: bool, why: P.Why)
    returns (err: Option<Error>, tries: nat, cut: bool)
    requires c.Valid() && from in c.st.recs && from in c.st.meta && c.st.recs[from] == src
    requires cfg == c.sys.ConfigOf(from.topic)
    requires Allowed(c.sys, from, src, dest, ValueOf(src, cfg, toDLQ), MoveOf(handlerErr, toDLQ), why)
    modifies c`st, c`sends
    ensures c.Valid() && Evolves(c.sys, old(c.st), c.st)
    ensures c.sends == old(c.sends) + tries && tries <= 3
    ensures hasProducer ==> tries >= 1 && (err.Some? ==> tries == 3 || cut)
    ensures !hasProducer ==> err.Some? && tries == 0 && c.st == old(c.st)
    ensures err.None? ==> from in c.st.settled
    ensures err.None? ==>
              Delivered(old(c.st), c.st, from, dest, ValueOf(src, cfg, toDLQ), MoveOf(handlerErr, toDLQ), why)
  {
    if !hasProducer {
      EvolvesSelf(c.sys, c.st);
      return Some(Error(false, false, "kafka: producer not configured for retry/DLQ")), 0, false;
    }
    var key, value, opts := BuildRepublish(src, dest, handlerErr, cfg, toDLQ);
    err, tries, cut := Attempts(c, dest, key, value, opts, from, MoveOf(handlerErr, toDLQ), why);
  }

  /** The handlers the worker installs: the application's, and the closure of ConsumeRetry. */
  datatype Handler = Application | ReturnToMain

  predicate Fits(sys: Setup, h: Handler, topic: string) {
    match h
    case Application => topic == sys.main
    case ReturnToMain => topic == sys.RetryTopic()
  }

  /** The closure of ConsumeRetry: waits, and publishes the record to the main topic with the counter it read. */
  method MoveBack(c: Cluster, r: Polled) returns (err: Option<Error>)
    requires c.Valid() && r.slot in c.st.recs && r.slot in c.st.meta && c.st.recs[r.slot] == r.rec
    requires r.slot.topic == c.sys.RetryTopic()
    modifies c`st, c`sends
    ensures c.Valid() && Evolves(c.sys, old(c.st), c.st)
    ensures old(c.sends) <= c.sends <= old(c.sends) + 1
    ensures err.None? ==> r.slot in c.st.settled
    ensures err.None? ==> Delivered(old(c.st), c.st, r.slot, c.sys.main, r.rec.value, H.BackToMain, P.Returned)
  {
    EvolvesSelf(c.sys, c.st);
    // The backoff timer, or the context ending first.
    var cancelled := *;
    if cancelled {
      return Some(Error(true, false, "context canceled"));
    }
    var mainTopic := TrimSuffix(r.slot.topic, c.sys.cfg.retrySuffix);
    TopicsClosed(c.sys.main, Sfx(c.sys.cfg));
    TopicsDistinct(c.sys.main, Sfx(c.sys.cfg));
    var sanitized := SanitizeForRepublish(r.rec, mainTopic);
    var count := Get(r.rec.headers, RETRY_COUNT);
    sanitized.Set(RETRY_COUNT, count);
    assert sanitized.headers == H.Prepared(r.rec.headers, H.BackToMain);
    var opts := BuildOpts(sanitized.headers, false);
    err := Publish(c, mainTopic, sanitized.key, sanitized.value, opts, r.slot, H.BackToMain, P.Returned);
  }

  /** One handler call, with interference while it runs. */
  method Handle(c: Cluster, h: Handler, r: Polled) returns (err: Option<Error>)
    requires c.Valid() && r.slot in c.st.recs && r.slot in c.st.meta && c.st.recs[r.slot] == r.rec
    requires Fits(c.sys, h, r.slot.topic)
    modifies c`st, c`sends
    ensures c.Valid() && Evolves(c.sys, old(c.st), c.st)
    ensures old(c.sends) <= c.sends <= old(c.sends) + (if h == ReturnToMain then 1 else 0)
    ensures err.None? ==> r.slot in c.st.settled
    ensures err.None? && h == Application ==> c.st.meta[r.slot].origin in c.st.handled
    ensures err.None? && h == ReturnToMain ==>
              Delivered(old(c.st), c.st, r.slot, c.sys.main, r.rec.value, H.BackToMain, P.Returned)
  {
    ghost var before := c.st;
    c.Interfere();
    ghost var running := c.st;
    match h {
      case Application =>
        err := *;
        if err.None? {
          c.MarkHandled(r.slot);
          EvolvesTrans(c.sys, before, running, c.st);
        }
      case ReturnToMain =>
        err := MoveBack(c, r);
        EvolvesTrans(c.sys, before, running, c.st);
        if err.None? {
          DeliveredLater(c.sys, before, running, c.st, r.slot, c.sys.main, r.rec.value, H.BackToMain, P.Returned);
        }
    }
  }

  /**
   What became of one record of a batch: what the handler said, the decision, whether a republish was
   acknowledged, how often one was tried, and whether the context ended meanwhile.
   */
  datatype Outcome = Outcome(err: Option<Error>, route: Route, published: bool, tries: nat, cut: bool, producer: bool)

  /** The handler returned nil, or a copy of the record was acknowledged elsewhere. */
  predicate Finished(o: Outcome) { o.err.None? || o.published }

  /** A republish that was given up: without a producer, after three attempts, or as the context ended. */
  predicate GaveUp(o: Outcome) {
    !o.published && (!o.producer || (o.tries == 3 || (o.cut && 1 <= o.tries <= 3)))
  }

  /** A copy of the record stands in the topic, moved that way. */
  ghost predicate Stands(st: St, r: Polled, topic: string, value: string, move: H.Move) {
    exists s, cause: Cause ::
      && s in st.recs && s in st.meta && r.slot in st.meta && s.topic == topic && cause.move == move
      && IsMoved(r.rec, st.recs[s], value, cause) && st.meta[s].origin == st.meta[r.slot].origin
  }

  lemma DeliveredStands(before: St, now: St, r: Polled, topic: string, value: string, move: H.Move, why: P.Why)
    requires r.slot in before.recs && r.slot in before.meta && before.recs[r.slot] == r.rec && LogsGrow(before, now)
    requires Delivered(before, now, r.slot, topic, value, move, why)
    ensures Stands(now, r, topic, value, move)
  {
    var s, cause: Cause :|
      && s !in before.recs && s in now.recs && s in now.meta && s.topic == topic
      && cause.move == move && cause.why == why
      && IsMoved(before.recs[r.slot], now.recs[s], value, cause)
      && now.meta[s].origin == before.meta[r.slot].origin && now.meta[s].why == why;
    assert IsMoved(r.rec, now.recs[s], value, cause);
  }

  lemma StandsLater(a: St, b: St, r: Polled, topic: string, value: string, move: H.Move)
    requires LogsGrow(a, b) && Stands(a, r, topic, value, move)
    ensures Stands(b, r, topic, value, move)
  {
    var s, cause: Cause :|
      && s in a.recs && s in a.meta && r.slot in a.meta && s.topic == topic && cause.move == move
      && IsMoved(r.rec, a.recs[s], value, cause) && a.meta[s].origin == a.meta[r.slot].origin;
    assert IsMoved(r.rec, b.recs[s], value, cause);
  }

  /** Where the acknowledged copy of a failed record stands: dead, cut and with the error, or to be retried. */
  ghost predicate Rerouted(sys: Setup, st: St, cfg: ConsumerConfig, r: Polled, err: Error)
    requires cfg.dlqMaxPayloadBytes >= 0
  {
    if err.nonRetryable || H.CountOf(r.rec.headers) >= cfg.maxRetries
    then Stands(st, r, sys.DlqTopic(), Cut(r.rec.value, cfg.dlqMaxPayloadBytes), H.ToDlq(Some(err)))
    else Stands(st, r, sys.RetryTopic(), r.rec.value, H.ToRetry)
  }

  /**
   A record is finished when its handler returned nil, or when it failed without being cancelled and
   its copy was acknowledged: in the DLQ exactly when the error is final or the counter has reached
   the budget, in the retry topic otherwise. It is left behind a cancelled handler, or a republish
   that was given up.
   */
  ghost predicate Explains(sys: Setup, st: St, cfg: ConsumerConfig, r: Polled, o: Outcome) {
    && cfg.dlqMaxPayloadBytes >= 0
    && (o.err.None? || o.err.value.canceled ==> !o.published && o.tries == 0)
    && (o.err.Some? && !o.err.value.canceled ==> o.published || GaveUp(o))
    && (o.published ==> 1 <= o.tries <= 3 && Rerouted(sys, st, cfg, r, o.err.value))
    && (Finished(o) ==> r.slot in st.settled)
  }

  lemma ExplainsLater(sys: Setup, a: St, b: St, cfg: ConsumerConfig, r: Polled, o: Outcome)
    requires LogsGrow(a, b) && Explains(sys, a, cfg, r, o)
    ensures Explains(sys, b, cfg, r, o)
  {
    if o.published {
      if o.err.value.nonRetryable || H.CountOf(r.rec.headers) >= cfg.maxRetries {
        StandsLater(a, b, r, sys.DlqTopic(), Cut(r.rec.value, cfg.dlqMaxPayloadBytes), H.ToDlq(o.err));
      } else {
        StandsLater(a, b, r, sys.RetryTopic(), r.rec.value, H.ToRetry);
      }
    }
  }

  /** The retry and DLQ routes: republish to the topic and with the content that the route prescribes. */
  method Reroute(c: Cluster, cfg: ConsumerConfig, hasProducer: bool, r: Polled, err: Option<Error>, route: Route,
                 ghost before: St)
    returns (published: bool, tries: nat, cut: bool)
    requires c.Valid() && r.slot in before.recs && r.slot in before.meta && before.recs[r.slot] == r.rec
    requires Evolves(c.sys, before, c.st) && cfg == c.sys.ConfigOf(r.slot.topic)
    requires r.slot.topic == c.sys.main || r.slot.topic == c.sys.RetryTopic()
    requires (route == RouteRetry || route == RouteDLQ) && err.Some?
    requires route == KafkaRoute(err, H.CountOf(r.rec.headers), cfg.maxRetries)
    modifies c`st, c`sends
    ensures c.Valid() && Evolves(c.sys, before, c.st) && c.sends == old(c.sends) + tries && tries <= 3
    ensures hasProducer ==> tries >= 1 && (!published ==> tries == 3 || cut)
    ensures !hasProducer ==> !published
    ensures published ==>
              var toDLQ := route == RouteDLQ;
              && r.slot in c.st.settled
              && Delivered(before, c.st, r.slot, if toDLQ then c.sys.DlqTopic() else c.sys.RetryTopic(),
                           ValueOf(r.rec, cfg, toDLQ), MoveOf(err, toDLQ), WhyOf(err, route))
  {
    var toDLQ := route == RouteDLQ;
    ghost var handled := c.st;
    var dest := DestTopic(r.slot.topic, Suffixes(cfg.retrySuffix, cfg.dlqSuffix), toDLQ);
    DestIsKnown(c.sys, r.slot.topic, toDLQ);
    var produceErr;
    produceErr, tries, cut := Republish(c, hasProducer, r.slot, r.rec, dest, err, cfg, toDLQ, WhyOf(err, route));
    EvolvesTrans(c.sys, before, handled, c.st);
    published := produceErr.None?;
    if published {
      DeliveredLater(c.sys, before, handled, c.st, r.slot, dest, ValueOf(r.rec, cfg, toDLQ), MoveOf(err, toDLQ),
                     WhyOf(err, route));
    }
  }

  /** Which records are dead, in the routing decision. */
  lemma RouteOfFailed(err: Error, count: int, maxRetries: int)
    requires !err.canceled
    ensures KafkaRoute(Some(err), count, maxRetries)
         == if err.nonRetryable || count >= maxRetries then RouteDLQ else RouteRetry
  {
  }

  lemma PublishedIsRerouted(sys: Setup, before: St, now: St, cfg: ConsumerConfig, r: Polled, err: Error, why: P.Why)
    requires r.slot in before.recs && r.slot in before.meta && before.recs[r.slot] == r.rec && LogsGrow(before, now)
    requires cfg.dlqMaxPayloadBytes >= 0
    requires var dead := err.nonRetryable || H.CountOf(r.rec.headers) >= cfg.maxRetries;
             Delivered(before, now, r.slot, if dead then sys.DlqTopic() else sys.RetryTopic(),
                       ValueOf(r.rec, cfg, dead), MoveOf(Some(err), dead), why)
    ensures Rerouted(sys, now, cfg, r, err)
  {
    var dead := err.nonRetryable || H.CountOf(r.rec.headers) >= cfg.maxRetries;
    DeliveredStands(before, now, r, if dead then sys.DlqTopic() else sys.RetryTopic(),
                    ValueOf(r.rec, cfg, dead), MoveOf(Some(err), dead), why);
  }

  /** Handler, routing decision and republish for one record. */
  method ProcessRecord(c: Cluster, h: Handler, cfg: ConsumerConfig, hasProducer: bool, r: Polled) returns (o: Outcome)
    requires c.Valid() && r.slot in c.st.recs && r.slot in c.st.meta && c.st.recs[r.slot] == r.rec
    requires Fits(c.sys, h, r.slot.topic) && cfg == c.sys.ConfigOf(r.slot.topic)
    modifies c`st, c`sends
    ensures c.Valid() && Evolves(c.sys, old(c.st), c.st)
    ensures Explains(c.sys, c.st, cfg, r, o) && o.producer == hasProducer
    ensures o.route == RouteCommit <==> o.err.None?
    ensures o.err.None? && h == Application ==> c.st.meta[r.slot].origin in c.st.handled
    ensures old(c.sends) + o.tries <= c.sends <= old(c.sends) + o.tries + (if h == ReturnToMain then 1 else 0)
    ensures o.published ==>
              var dead := o.err.value.nonRetryable || H.CountOf(r.rec.headers) >= cfg.maxRetries;
              Delivered(old(c.st), c.st, r.slot, if dead then c.sys.DlqTopic() else c.sys.RetryTopic(),
                        ValueOf(r.rec, cfg, dead), if dead then H.ToDlq(o.err) else H.ToRetry, WhyOf(o.err, o.route))
  {
    ghost var before := c.st;
    var err := Handle(c, h, r);
    var retryCount := RetryCount(r.rec.headers);
    var route := KafkaRoute(err, retryCount, cfg.maxRetries);
    o := Outcome(err, route, false, 0, false, hasProducer);
    if err.Some? && !err.value.canceled {
      RouteOfFailed(err.value, retryCount, cfg.maxRetries);
    }
    if route == RouteRetry || route == RouteDLQ {
      var published, tries, cut := Reroute(c, cfg, hasProducer, r, err, route, before);
      o := Outcome(err, route, published, tries, cut, hasProducer);
      if published {
        PublishedIsRerouted(c.sys, before, c.st, cfg, r, err.value, WhyOf(err, route));
      }
    }
  }

  /** Both consumers send to the same two topics. */
  lemma DestIsKnown(sys: Setup, topic: string, toDLQ: bool)
    requires sys.Good() && (topic == sys.main || topic == sys.RetryTopic())
    ensures DestTopic(topic, Sfx(sys.cfg), toDLQ) == if toDLQ then sys.DlqTopic() else sys.RetryTopic()
  {
    TopicsClosed(sys.main, Sfx(sys.cfg));
  }

  /**
   The outcome of a batch so far: the committable records are exactly the prefix before the
   first record that is dropped or could not be republished, and that record was the last one.
   */
  ghost predicate BatchOutcome(sys: Setup, st: St, cfg: ConsumerConfig, batch: seq<Polled>,
                               committable: seq<Slot>, log: seq<Outcome>) {
    && |committable| <= |log| <= |batch| && |log| <= |committable| + 1
    && committable == SlotsOf(batch[..|committable|])
    && (forall i :: 0 <= i < |log| ==> Explains(sys, st, cfg, batch[i], log[i]))
    && (forall i :: 0 <= i < |log| ==> (Finished(log[i]) <==> i < |committable|))
  }

  /** Why a batch stops: the handler was cancelled, or the copy of a failed record was not acknowledged. */
  predicate StopsBehind(o: Outcome) { o.err.Some? && (o.err.value.canceled || GaveUp(o)) }

  lemma AllExplainLater(sys: Setup, a: St, b: St, cfg: ConsumerConfig, batch: seq<Polled>, log: seq<Outcome>)
    requires |log| <= |batch| && LogsGrow(a, b)
    requires forall i :: 0 <= i < |log| ==> Explains(sys, a, cfg, batch[i], log[i])
    ensures forall i :: 0 <= i < |log| ==> Explains(sys, b, cfg, batch[i], log[i])
  {
    forall i | 0 <= i < |log| ensures Explains(sys, b, cfg, batch[i], log[i]) {
      ExplainsLater(sys, a, b, cfg, batch[i], log[i]);
    }
  }

  lemma OneMoreSlot(batch: seq<Polled>, committable: seq<Slot>, n: nat)
    requires n < |batch| && committable == SlotsOf(batch[..n])
    ensures committable + [batch[n].slot] == SlotsOf(batch[..n + 1])
  {
    assert batch[..n + 1] == batch[..n] + [batch[n]];
  }

  lemma OneMoreOutcome(sys: Setup, a: St, b: St, cfg: ConsumerConfig, batch: seq<Polled>,
                       committable: seq<Slot>, log: seq<Outcome>, o: Outcome)
    requires BatchOutcome(sys, a, cfg, batch, committable, log) && |committable| == |log| < |batch|
    requires LogsGrow(a, b) && Explains(sys, b, cfg, batch[|log|], o)
    ensures BatchOutcome(sys, b, cfg, batch,
                         if Finished(o) then committable + [batch[|log|].slot] else committable, log + [o])
  {
    AllExplainLater(sys, a, b, cfg, batch, log);
    OneMoreSlot(batch, committable, |log|);
  }

  /** One batch. It stops early only behind a cancelled handler, or a republish that was given up. */
  method ConsumeBatch(c: Cluster, h: Handler, cfg: ConsumerConfig, hasProducer: bool, batch: seq<Polled>)
    returns (committable: seq<Slot>, log: seq<Outcome>)
    requires c.Valid()
    requires forall r :: r in batch ==> r.slot in c.st.recs && c.st.recs[r.slot] == r.rec
    requires forall r :: r in batch ==> Fits(c.sys, h, r.slot.topic) && cfg == c.sys.ConfigOf(r.slot.topic)
    modifies c`st, c`sends
    ensures c.Valid() && Evolves(c.sys, old(c.st), c.st)
    ensures BatchOutcome(c.sys, c.st, cfg, batch, committable, log)
    ensures forall o :: o in log ==> o.producer == hasProducer
    ensures |committable| < |batch| ==> |log| == |committable| + 1 && StopsBehind(log[|committable|])
  {
    committable, log := [], [];
    var stopProcessing := false;
    EvolvesSelf(c.sys, c.st);
    while |log| < |batch| && !stopProcessing
      invariant c.Valid() && Evolves(c.sys, old(c.st), c.st)
      invariant BatchOutcome(c.sys, c.st, cfg, batch, committable, log)
      invariant stopProcessing <==> |log| == |committable| + 1
      invariant stopProcessing ==> StopsBehind(log[|committable|])
      invariant forall o :: o in log ==> o.producer == hasProducer
      decreases |batch| - |log|
    {
      var r := batch[|log|];
      ghost var start := c.st;
      var o := ProcessRecord(c, h, cfg, hasProducer, r);
      EvolvesTrans(c.sys, old(c.st), start, c.st);
      OneMoreOutcome(c.sys, start, c.st, cfg, batch, committable, log, o);
      log := log + [o];
      if o.route == RouteCommit || o.published {
        committable := committable + [r.slot];
      } else {
        stopProcessing := true;
      }
    }
  }

  /** One turn of the loop: the states at the poll, after the batch, and after the commit. */
  datatype Pass = Pass(polled: St, processed: St, after: St, batch: seq<Polled>, committable: seq<Slot>,
                       log: seq<Outcome>, commitErr: Option<Error>)

  /**
   A turn polls at the committed offset, processes the batch up to the first record that is not
   committable, and commits exactly the records before it, or nothing when there are none.
   */
  ghost predicate PassOk(sys: Setup, cfg: ConsumerConfig, topic: string, p: Pass) {
    && FromLog(p.polled, topic, p.batch) && ResumesAtCommitted(p.polled, SlotsOf(p.batch))
    && Evolves(sys, p.polled, p.processed) && Evolves(sys, p.processed, p.after)
    && BatchOutcome(sys, p.processed, cfg, p.batch, p.committable, p.log)
    && (|p.committable| < |p.batch| ==> |p.log| == |p.committable| + 1 && StopsBehind(p.log[|p.committable|]))
    && (if p.committable == [] then p.after == p.processed
        else SettledUpTo(p.processed, p.committable)
             && (p.commitErr.None? ==> p.after == CommitAll(p.processed, p.committable)))
  }

  lemma CommittableIsPrefix(sys: Setup, st: St, cfg: ConsumerConfig, batch: seq<Polled>, committable: seq<Slot>,
                            log: seq<Outcome>)
    requires BatchOutcome(sys, st, cfg, batch, committable, log)
    ensures committable == SlotsOf(batch)[..|committable|] && AllSettled(st, committable)
  {
    forall s | s in committable ensures s in st.settled {
      var i :| 0 <= i < |committable| && committable[i] == s;
      assert Finished(log[i]) && Explains(sys, st, cfg, batch[i], log[i]);
    }
  }

  /** One turn of Consume's loop. */
  method ConsumeOnce(c: Cluster, h: Handler, cfg: ConsumerConfig, hasProducer: bool, topic: string)
    returns (ghost pass: Pass)
    requires c.Valid() && Fits(c.sys, h, topic) && cfg == c.sys.ConfigOf(topic)
    modifies c`st, c`sends
    ensures c.Valid() && Evolves(c.sys, old(c.st), c.st)
    ensures PassOk(c.sys, cfg, topic, pass) && Evolves(c.sys, old(c.st), pass.polled) && c.st == pass.after
  {
    TopicsDistinct(c.sys.main, Sfx(c.sys.cfg));
    ghost var before := c.st;
    c.Interfere();
    ghost var resumed := c.st;
    var batch := c.Poll(topic);
    EvolvesTrans(c.sys, before, resumed, c.st);
    ghost var polled := c.st;
    var committable, log := ConsumeBatch(c, h, cfg, hasProducer, batch);
    EvolvesTrans(c.sys, before, polled, c.st);
    ghost var processed := c.st;
    var commitErr: Option<Error> := None;
    EvolvesSelf(c.sys, c.st);
    if committable != [] {
      CommittableIsPrefix(c.sys, c.st, cfg, batch, committable, log);
      PrefixIsSafe(c.st, SlotsOf(batch), |committable|);
      commitErr := c.CommitRecords(committable, SlotsOf(batch), |committable|);
      EvolvesTrans(c.sys, before, processed, c.st);
    }
    pass := Pass(polled, processed, c.st, batch, committable, log, commitErr);
  }

  /** Turns of the loop, each in order, and each polling a state that evolved from the one before. */
  ghost predicate PassesOk(sys: Setup, cfg: ConsumerConfig, topic: string, passes: seq<Pass>) {
    && (forall p :: p in passes ==> PassOk(sys, cfg, topic, p))
    && (forall i {:trigger passes[i]} :: 0 < i < |passes| ==> Evolves(sys, passes[i - 1].after, passes[i].polled))
  }

  function LastState(start: St, passes: seq<Pass>): St { if passes == [] then start else passes[|passes| - 1].after }

  lemma OneMorePass(sys: Setup, cfg: ConsumerConfig, topic: string, start: St, passes: seq<Pass>, p: Pass)
    requires PassesOk(sys, cfg, topic, passes) && PassOk(sys, cfg, topic, p)
    requires Evolves(sys, LastState(start, passes), p.polled)
    ensures PassesOk(sys, cfg, topic, passes + [p]) && LastState(start, passes + [p]) == p.after
  {
  }

  /** Consume, for any number of polls before the context ends; `passes` are its turns. */
  method Consume(c: Cluster, h: Handler, rawCfg: ConsumerConfig, hasProducer: bool, topic: string, polls: nat)
    returns (ghost passes: seq<Pass>)
    requires c.Valid() && Fits(c.sys, h, topic) && WithDefaults(rawCfg) == c.sys.ConfigOf(topic)
    modifies c`st, c`sends
    ensures c.Valid() && Evolves(c.sys, old(c.st), c.st)
    ensures |passes| == polls && PassesOk(c.sys, WithDefaults(rawCfg), topic, passes)
    ensures c.st == LastState(old(c.st), passes)
  {
    var cfg := WithDefaults(rawCfg);
    ghost var before := c.st;
    passes := [];
    EvolvesSelf(c.sys, c.st);
    for i := 0 to polls
      invariant c.Valid() && Evolves(c.sys, before, c.st)
      invariant |passes| == i && PassesOk(c.sys, cfg, topic, passes) && c.st == LastState(before, passes)
    {
      ghost var start := c.st;
      ghost var pass := ConsumeOnce(c, h, cfg, hasProducer, topic);
      EvolvesTrans(c.sys, before, start, c.st);
      OneMorePass(c.sys, cfg, topic, before, passes, pass);
      passes := passes + [pass];
    }
  }

  /** ConsumeRetry: the same loop on the retry topic, with the returning handler. */
  method ConsumeRetry(c: Cluster, polls: nat) returns (ghost passes: seq<Pass>)
    requires c.Valid()
    modifies c`st, c`sends
    ensures c.Valid() && Evolves(c.sys, old(c.st), c.st)
    ensures |passes| == polls
    ensures PassesOk(c.sys, WithDefaults(NestedConfig(c.sys.cfg)), c.sys.RetryTopic(), passes)
  {
    TopicsDistinct(c.sys.main, Sfx(c.sys.cfg));
    passes := Consume(c, ReturnToMain, NestedConfig(c.sys.cfg), true, c.sys.RetryTopic(), polls);
  }
}
