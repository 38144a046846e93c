/** The SQS producer and the two consumers, as they run against the service. */
module SqsConsumer {
  import opened Base
  import opened GoStrings
  import opened Headers
  import opened Routing
  import opened SqsBroker
  import opened SqsClient
  import opened SqsMessage
  import Backoff
  import A = SqsAttributes
  import P = Protocol

  // ----- producer ------------------------------------------------------------------------------

  datatype PublishOpt =
    | WithIdempotencyKey(key: string)
    | WithAttribute(name: string, value: string)
    | WithDelay(d: int)
    | ForceSample

  /** What a list of options sets. */
  datatype Settings = Settings(idempotencyKey: string, extraAttrs: map<string, string>, delay: int)

  function Applied(s: Settings, o: PublishOpt): Settings {
    match o
    case WithIdempotencyKey(k) => s.(idempotencyKey := k)
    case WithAttribute(k, v) => s.(extraAttrs := s.extraAttrs[k := v])
    case WithDelay(d) => s.(delay := d)
    case ForceSample => s
  }

  function SettingsOf(opts: seq<PublishOpt>): Settings {
    if opts == [] then Settings("", map[], 0)
    else Applied(SettingsOf(opts[..|opts| - 1]), opts[|opts| - 1])
  }

  lemma OneMoreOpt(opts: seq<PublishOpt>, o: PublishOpt)
    ensures SettingsOf(opts + [o]) == Applied(SettingsOf(opts), o)
  {
    assert (opts + [o])[..|opts|] == opts;
  }

  class PublishConfig {
    var idempotencyKey: string
    var extraAttrs: map<string, string>
    var delay: int
    var forceSample: bool

    constructor ()
      ensures Value() == SettingsOf([])
    {
      idempotencyKey, extraAttrs, delay, forceSample := "", map[], 0, false;
    }

    function Value(): Settings
      reads this
    {
      Settings(idempotencyKey, extraAttrs, delay)
    }

    method Apply(o: PublishOpt)
      modifies this
      ensures Value() == Applied(old(Value()), o)
    {
      match o {
        case WithIdempotencyKey(k) => idempotencyKey := k;
        case WithAttribute(k, v) => extraAttrs := extraAttrs[k := v];
        case WithDelay(d) => delay := d;
        case ForceSample => forceSample := true;
      }
    }
  }

  /** What a consumer decided about a message. */
  datatype Plan = Plan(move: A.Move, count: nat, delayCount: nat, why: P.Why)

  /** The request that both consumers put together for a plan. */
  predicate Planned(sys: Setup, src: Msg, url: string, body: string, s: Settings, plan: Plan) {
    && Allowed(sys, src, url, plan.move, plan.count, plan.why)
    && A.IsCount(src.attrs, plan.delayCount)
    && body == BodyOf(sys.Cfg(), src, plan.move)
    && s.extraAttrs == A.Forward(A.Prepared(src.attrs, plan.move))
    && s.idempotencyKey in A.ReadableValues(A.Prepared(src.attrs, plan.move), IDEMPOTENCY_KEY)
    && Backoff.DelaySeconds(s.delay) == DelayOf(sys.Cfg(), plan.move, plan.delayCount)
  }

  /** Since `before`, `url` received a copy of the message at `from`, sent that way. */
  ghost predicate Delivered(sys: Setup, before: St, now: St, from: nat, url: string, plan: Plan)
    requires from in before.log && from in before.meta
  {
    exists c, cause: Cause ::
      && c !in before.log && c in now.log && c in now.meta && now.log[c].url == url
      && cause.move == plan.move && cause.count == plan.count
      && cause.why == plan.why && cause.delayCount == plan.delayCount
      && MaySend(sys, before.log[from], now.log[c], cause)
      && now.meta[c] == MovedMeta(before.meta[from], cause)
  }

  lemma DeliveredLater(sys: Setup, a: St, b: St, c: St, from: nat, url: string, plan: Plan)
    requires from in a.log && from in a.meta && from in b.log && from in b.meta
    requires Grows(a, b) && Grows(b, c)
    requires Delivered(sys, b, c, from, url, plan) || Delivered(sys, a, b, from, url, plan)
    ensures Delivered(sys, a, c, from, url, plan)
  {
    if Delivered(sys, b, c, from, url, plan) {
      var n, cause: Cause :|
        && n !in b.log && n in c.log && n in c.meta && c.log[n].url == url
        && cause.move == plan.move && cause.count == plan.count
        && cause.why == plan.why && cause.delayCount == plan.delayCount
        && MaySend(sys, b.log[from], c.log[n], cause)
        && c.meta[n] == MovedMeta(b.meta[from], cause);
      assert n !in a.log && MaySend(sys, a.log[from], c.log[n], cause);
    } else {
      var n, cause: Cause :|
        && n !in a.log && n in b.log && n in b.meta && b.log[n].url == url
        && cause.move == plan.move && cause.count == plan.count
        && cause.why == plan.why && cause.delayCount == plan.delayCount
        && MaySend(sys, a.log[from], b.log[n], cause)
        && b.meta[n] == MovedMeta(a.meta[from], cause);
      assert MaySend(sys, a.log[from], c.log[n], cause);
    }
  }

  method ApplyAll(opts: seq<PublishOpt>) returns (cfg: PublishConfig)
    ensures fresh(cfg) && cfg.Value() == SettingsOf(opts)
  {
    cfg := new PublishConfig();
    for i := 0 to |opts|
      invariant cfg.Value() == SettingsOf(opts[..i])
    {
      assert opts[..i + 1] == opts[..i] + [opts[i]];
      OneMoreOpt(opts[..i], opts[i]);
      cfg.Apply(opts[i]);
    }
    assert opts[..|opts|] == opts;
  }

  /** The attribute map that Publish fills. */
  method BuildAttrs(s: Settings) returns (attrs: A.Attrs, key: string, inj: map<string, string>)
    ensures key != "" && (s.idempotencyKey != "" ==> key == s.idempotencyKey)
    ensures A.IsInjection(inj, s.extraAttrs) && attrs == A.Outgoing(s.extraAttrs, key, inj)
  {
    var m := new AttrMap(map[]);
    var todo := s.extraAttrs.Keys;
    while todo != {}
      invariant todo <= s.extraAttrs.Keys
      invariant m.m == map k | k in s.extraAttrs && k !in todo :: A.StringAttr(s.extraAttrs[k])
      decreases todo
    {
      var k :| k in todo;
      todo := todo - {k};
      m.SetStringAttribute(k, s.extraAttrs[k]);
    }
    assert m.m == A.AsAttrs(s.extraAttrs);
    key := m.SetIdempotencyKey(s.idempotencyKey);
    inj := m.InjectTraceHeaders(s.extraAttrs);
    attrs := m.m;
  }

  method RequestDelay(delay: int) returns (seconds: nat)
    ensures seconds == Backoff.DelaySeconds(delay)
    ensures seconds == if delay <= 0 then 0 else Min(delay, 900_000_000_000) / 1_000_000_000
  {
    seconds := 0;
    if delay > 0 {
      var d := delay;
      if d > Backoff.SQS_MAX_DELAY {
        d := Backoff.SQS_MAX_DELAY;
      }
      seconds := d / Backoff.SECOND;
    }
  }

  /** Publish: refuses more than seven custom attributes, otherwise sends. */
  method Publish(b: Broker, url: string, body: string, opts: seq<PublishOpt>, from: nat, plan: Plan)
    returns (err: Option<Error>)
    requires b.Valid() && from in b.st.log && from in b.st.meta
    requires Planned(b.sys, b.st.log[from], url, body, SettingsOf(opts), plan)
    modifies b`st, b`sends
    ensures b.Valid() && Evolves(b.sys, old(b.st), b.st)
    ensures err.None? ==> from in b.st.settled && Delivered(b.sys, old(b.st), b.st, from, url, plan)
    ensures |SettingsOf(opts).extraAttrs| > 7 ==> err.Some? && b.st == old(b.st) && b.sends == old(b.sends)
    ensures |SettingsOf(opts).extraAttrs| <= 7 ==> b.sends == old(b.sends) + 1
  {
    var cfg := ApplyAll(opts);
    if |cfg.extraAttrs| > A.MAX_CUSTOM_ATTRIBUTES {
      EvolvesSelf(b.sys, b.st);
      return Some(Error(false, false, "sqs: too many message attributes"));
    }
    var attrs, key, inj := BuildAttrs(cfg.Value());
    var seconds := RequestDelay(cfg.delay);
    var msg := Msg(url, body, attrs, seconds);
    var cause := Cause(plan.move, key, inj, plan.delayCount, plan.count, plan.why);
    PlannedMaySend(b.sys, b.st.log[from], msg, cfg.Value(), plan, cause);
    err := b.SendMessage(msg, from, cause);
    if err.None? {
      LandedIsDelivered(b, old(b.st), from, msg, cause, plan);
    }
  }

  lemma PlannedMaySend(sys: Setup, src: Msg, msg: Msg, s: Settings, plan: Plan, cause: Cause)
    requires Planned(sys, src, msg.url, msg.body, s, plan) && |s.extraAttrs| <= A.MAX_CUSTOM_ATTRIBUTES
    requires cause.key != "" && (s.idempotencyKey != "" ==> cause.key == s.idempotencyKey)
    requires A.IsInjection(cause.inj, s.extraAttrs) && msg.attrs == A.Outgoing(s.extraAttrs, cause.key, cause.inj)
    requires msg.delaySeconds == Backoff.DelaySeconds(s.delay)
    requires cause == Cause(plan.move, cause.key, cause.inj, plan.delayCount, plan.count, plan.why)
    ensures MaySend(sys, src, msg, cause)
  {
    assert A.IsIdentity(src.attrs, plan.move, cause.key);
  }

  lemma LandedIsDelivered(b: Broker, before: St, from: nat, msg: Msg, cause: Cause, plan: Plan)
    requires from in before.log && from in before.meta && b.Landed(before, from, msg, cause)
    requires MaySend(b.sys, before.log[from], msg, cause)
    requires cause == Cause(plan.move, cause.key, cause.inj, plan.delayCount, plan.count, plan.why)
    ensures Delivered(b.sys, before, b.st, from, msg.url, plan)
  {
    var c :| c !in before.log && c in b.st.log && c in b.st.meta && b.st.log[c] == msg
             && b.st.meta[c] == MovedMeta(before.meta[from], cause);
    assert MaySend(b.sys, before.log[from], b.st.log[c], cause);
  }

  // ----- consumer ------------------------------------------------------------------------------

  /** What is forwarded of the attributes that a range has passed. */
  function ForwardedBut(attrs: A.Attrs, todo: set<string>): map<string, string> {
    map k | k in attrs && k !in todo && !IsReinjected(k) && attrs[k].str.Some? :: attrs[k].str.value
  }

  lemma ForwardedEnds(attrs: A.Attrs)
    ensures ForwardedBut(attrs, attrs.Keys) == map[] && ForwardedBut(attrs, {}) == A.Forward(attrs)
  {
  }

  lemma ForwardedStep(attrs: A.Attrs, todo: set<string>, k: string)
    requires k in todo && k in attrs
    ensures ForwardedBut(attrs, todo - {k})
         == if !IsReinjected(k) && attrs[k].str.Some? then ForwardedBut(attrs, todo)[k := attrs[k].str.value]
            else ForwardedBut(attrs, todo)
  {
  }

  /** The range over the attributes: an option for each string value that is not reinjected. */
  method ForwardOpts(attrs: A.Attrs, start: seq<PublishOpt>) returns (opts: seq<PublishOpt>)
    requires SettingsOf(start).extraAttrs == map[]
    ensures SettingsOf(opts) == SettingsOf(start).(extraAttrs := A.Forward(attrs))
  {
    opts := start;
    var todo := attrs.Keys;
    ForwardedEnds(attrs);
    while todo != {}
      invariant todo <= attrs.Keys
      invariant SettingsOf(opts) == SettingsOf(start).(extraAttrs := ForwardedBut(attrs, todo))
      decreases todo
    {
      var k :| k in todo;
      ForwardedStep(attrs, todo, k);
      todo := todo - {k};
      if k == TRACE_PARENT || k == TRACE_STATE || k == IDEMPOTENCY_KEY {
        continue;
      }
      if attrs[k].str.Some? {
        OneMoreOpt(opts, WithAttribute(k, attrs[k].str.value));
        opts := opts + [WithAttribute(k, attrs[k].str.value)];
      }
    }
  }

  /** The options both consumers build: forced sampling, identity, then the string attributes. */
  method BuildOpts(attrs: A.Attrs) returns (opts: seq<PublishOpt>)
    ensures SettingsOf(opts).idempotencyKey in A.ReadableValues(attrs, IDEMPOTENCY_KEY)
    ensures SettingsOf(opts).extraAttrs == A.Forward(attrs) && SettingsOf(opts).delay == 0
  {
    OneMoreOpt([], ForceSample);
    opts := [] + [ForceSample];
    var key := GetStringAttribute(attrs, IDEMPOTENCY_KEY);
    if key != "" {
      OneMoreOpt(opts, WithIdempotencyKey(key));
      opts := opts + [WithIdempotencyKey(key)];
    }
    opts := ForwardOpts(attrs, opts);
  }

  /** The count that backoff sees: one is added to it and subtracted again, in 64 bits. */
  lemma WrapBack(n: nat)
    requires n <= MAX_INT64
    ensures Wrap64(Wrap64(n + 1) - 1) == n
  {
  }

  /** The sanitized attributes of a republish, with its reason or its counter. */
  method PrepareAttrs(m: Message, handlerErr: Option<Error>, toDLQ: bool) returns (attrs: AttrMap)
    ensures fresh(attrs) && attrs.m == A.Prepared(m.attrs, MoveOf(handlerErr, toDLQ))
  {
    attrs := SanitizeForRepublish(m.attrs);
    if toDLQ {
      attrs.SetErrorReason(handlerErr);
    } else {
      CleanCount(m.attrs);
      var n := attrs.IncRetryCount();
    }
  }

  /** The delay of a republish to the retry queue, for the counter that the message has. */
  method AddDelay(start: seq<PublishOpt>, cfg: ConsumerConfig, count: nat) returns (opts: seq<PublishOpt>)
    requires SettingsOf(start).delay == 0 && count <= MAX_INT64
    ensures SettingsOf(opts) == SettingsOf(start).(delay := SettingsOf(opts).delay)
    ensures Backoff.DelaySeconds(SettingsOf(opts).delay)
         == Backoff.DelaySeconds(Backoff.SqsDelay(cfg.backoffBase, cfg.backoffMax, count))
  {
    opts := start;
    var retryCount := Wrap64(count + 1);
    WrapBack(count);
    var delay := Backoff.SqsDelay(cfg.backoffBase, cfg.backoffMax, Wrap64(retryCount - 1));
    if delay > 0 {
      OneMoreOpt(opts, WithDelay(delay));
      opts := opts + [WithDelay(delay)];
    }
  }

  /** The attributes, body and options of a republish. */
  method BuildRepublish(m: Message, handlerErr: Option<Error>, cfg: ConsumerConfig, toDLQ: bool)
    returns (body: string, opts: seq<PublishOpt>, delayCount: nat)
    requires cfg.dlqMaxPayloadBytes >= 1
    ensures body == if toDLQ then Cut(Body(m), cfg.dlqMaxPayloadBytes) else Body(m)
    ensures A.IsCount(m.attrs, delayCount)
    ensures var s, move := SettingsOf(opts), MoveOf(handlerErr, toDLQ);
            && s.extraAttrs == A.Forward(A.Prepared(m.attrs, move))
            && s.idempotencyKey in A.ReadableValues(A.Prepared(m.attrs, move), IDEMPOTENCY_KEY)
            && Backoff.DelaySeconds(s.delay) == DelayOf(cfg, move, delayCount)
  {
    var attrs := PrepareAttrs(m, handlerErr, toDLQ);
    body := Body(m);
    if toDLQ && |body| > cfg.dlqMaxPayloadBytes {
      body := body[..cfg.dlqMaxPayloadBytes];
    }
    opts := BuildOpts(attrs.m);
    delayCount := RetryCount(m.attrs);
    if !toDLQ {
      opts := AddDelay(opts, cfg, delayCount);
    }
  }

  /** Sanitized attributes hold no counter, so bumping them writes one. */
  lemma CleanCount(m: A.Attrs)
    ensures forall v :: A.IsRead(A.Sanitize(m), RETRY_COUNT, v) ==> v == "" && ParseCount(v) == 0
  {
    forall k | k in A.Sanitize(m) ensures !A.Matches(A.Sanitize(m), k, RETRY_COUNT) {
      StrippedKeys(k);
    }
  }

  function MoveOf(err: Option<Error>, toDLQ: bool): A.Move {
    if toDLQ then A.ToDlq(err) else A.ToRetry
  }

  function WhyOf(err: Option<Error>, route: Route): P.Why {
    if route == RouteRetry then P.Failed
    else if err.Some? && err.value.nonRetryable then P.NonRetryable
    else P.Exhausted
  }

  /** A republish would forward seven or more of the message's attributes. */
  predicate OverBudget(m: Message) { |A.Passing(m.attrs)| >= 7 }

  /** Sleeping between two attempts, with interference. */
  method Sleep(b: Broker, ghost before: St)
    requires b.Valid() && Evolves(b.sys, before, b.st)
    modifies b`st
    ensures b.Valid() && Evolves(b.sys, before, b.st)
  {
    ghost var tried := b.st;
    b.Interfere();
    EvolvesTrans(b.sys, before, tried, b.st);
  }

  /** One attempt, seen from the state before the first one. */
  method Attempt(b: Broker, url: string, body: string, opts: seq<PublishOpt>, from: nat, plan: Plan, ghost before: St)
    returns (err: Option<Error>)
    requires b.Valid() && from in before.log && from in before.meta && Evolves(b.sys, before, b.st)
    requires Planned(b.sys, before.log[from], url, body, SettingsOf(opts), plan)
    modifies b`st, b`sends
    ensures b.Valid() && Evolves(b.sys, before, b.st)
    ensures err.None? ==> from in b.st.settled && Delivered(b.sys, before, b.st, from, url, plan)
    ensures b.sends == old(b.sends) + (if |SettingsOf(opts).extraAttrs| <= 7 then 1 else 0)
    ensures |SettingsOf(opts).extraAttrs| > 7 ==> err.Some?
  {
    ghost var start := b.st;
    err := Publish(b, url, body, opts, from, plan);
    EvolvesTrans(b.sys, before, start, b.st);
    if err.None? {
      DeliveredLater(b.sys, before, start, b.st, from, url, plan);
    }
  }

  /**
   Three publishes, with interference while sleeping between them: fewer only when one is acknowledged
   or the context ends (`cut`).
   */
  method Attempts(b: Broker, url: string, body: string, opts: seq<PublishOpt>, from: nat, plan: Plan)
    returns (err: Option<Error>, tries: nat, cut: bool)
    requires b.Valid() && from in b.st.log && from in b.st.meta
    requires Planned(b.sys, b.st.log[from], url, body, SettingsOf(opts), plan)
    modifies b`st, b`sends
    ensures b.Valid() && Evolves(b.sys, old(b.st), b.st)
    ensures 1 <= tries <= 3 && (err.Some? ==> tries == 3 || cut)
    ensures b.sends == old(b.sends) + (if |SettingsOf(opts).extraAttrs| <= 7 then tries else 0)
    ensures |SettingsOf(opts).extraAttrs| > 7 ==> err.Some?
    ensures err.None? ==> from in b.st.settled && Delivered(b.sys, old(b.st), b.st, from, url, plan)
  {
    ghost var before := b.st;
    tries, cut, err := 0, false, None;
    EvolvesSelf(b.sys, b.st);
    for i := 0 to 3
      invariant b.Valid() && Evolves(b.sys, before, b.st) && tries == i && (i > 0 ==> err.Some?)
      invariant b.sends == old(b.sends) + (if |SettingsOf(opts).extraAttrs| <= 7 then tries else 0)
    {
      tries := tries + 1;
      err := Attempt(b, url, body, opts, from, plan, before);
      if err.None? {
        return;
      }
      cut := *;
      if cut {
        return;
      }
      Sleep(b, before);
    }
  }

  /** republish: nothing without a producer, and nothing is sent over the attribute budget. */
  method Republish(b: Broker, hasProducer: bool, m: Message, dest: string, handlerErr: Option<Error>,
                   cfg: ConsumerConfig, toDLQ: bool, count: nat, why: P.Why)
    returns (err: Option<Error>, plan: Plan, tries: nat, cut: bool)
    requires b.Valid() && cfg == b.sys.Cfg() && m.copy in b.st.log && m.copy in b.st.meta
    requires hasProducer ==> IsReceived(b.st, b.sys.Main(), m)
    requires hasProducer ==> Allowed(b.sys, b.st.log[m.copy], dest, MoveOf(handlerErr, toDLQ), count, why)
    modifies b`st, b`sends
    ensures b.Valid() && Evolves(b.sys, old(b.st), b.st)
    ensures tries <= 3 && b.sends == old(b.sends) + (if OverBudget(m) then 0 else tries)
    ensures hasProducer ==> tries >= 1 && (err.Some? ==> tries == 3 || cut)
    ensures !hasProducer ==> err.Some? && tries == 0 && b.st == old(b.st)
    ensures OverBudget(m) ==> err.Some?
    ensures err.None? ==> m.copy in b.st.settled && Delivered(b.sys, old(b.st), b.st, m.copy, dest, plan)
    ensures err.None? ==> plan == Plan(MoveOf(handlerErr, toDLQ), count, plan.delayCount, why)
  {
    plan := Plan(MoveOf(handlerErr, toDLQ), count, 0, why);
    tries, cut := 0, false;
    if !hasProducer {
      EvolvesSelf(b.sys, b.st);
      err := Some(Error(false, false, "sqs: producer not configured for retry/DLQ"));
      return;
    }
    var body, opts, delayCount := BuildRepublish(m, handlerErr, cfg, toDLQ);
    plan := plan.(delayCount := delayCount);
    A.BudgetIff(m.attrs, plan.move);
    err, tries, cut := Attempts(b, dest, body, opts, m.copy, plan);
  }

  /** The handlers the worker installs: the application's, and the closure of ConsumeRetry. */
  datatype Handler = Application | ReturnToMain

  function QueueOf(sys: Setup, h: Handler): string {
    match h
    case Application => sys.Main()
    case ReturnToMain => sys.RetryURL()
  }

  /** The closure of ConsumeRetry: back to the main queue, with the counter that was read. */
  method MoveBack(b: Broker, m: Message) returns (err: Option<Error>, plan: Plan)
    requires b.Valid() && IsReceived(b.st, b.sys.RetryURL(), m)
    modifies b`st, b`sends
    ensures b.Valid() && Evolves(b.sys, old(b.st), b.st)
    ensures b.sends == old(b.sends) + (if OverBudget(m) then 0 else 1)
    ensures plan.move == A.BackToMain(plan.count)
    ensures err.None? ==> m.copy in b.st.settled && Delivered(b.sys, old(b.st), b.st, m.copy, b.sys.Main(), plan)
    ensures OverBudget(m) ==> err.Some?
  {
    var retryCount := RetryCount(m.attrs);
    plan := Plan(A.BackToMain(retryCount), retryCount, retryCount, P.Returned);
    var attrs := SanitizeForRepublish(m.attrs);
    attrs.SetStringAttribute(RETRY_COUNT, Itoa(retryCount));
    assert attrs.m == A.Prepared(m.attrs, plan.move);
    var opts := BuildOpts(attrs.m);
    A.BudgetIff(m.attrs, plan.move);
    QueuesClosed(b.sys.Main(), b.sys.Sfx());
    var mainURL := TrimSuffix(b.sys.RetryURL(), b.sys.Cfg().retrySuffix);
    err := Publish(b, mainURL, Body(m), opts, m.copy, plan);
  }

  /** One handler call, with interference while it runs. */
  method Handle(b: Broker, h: Handler, m: Message) returns (err: Option<Error>)
    requires b.Valid() && IsReceived(b.st, QueueOf(b.sys, h), m)
    modifies b`st, b`sends
    ensures b.Valid() && Evolves(b.sys, old(b.st), b.st)
    ensures b.sends == old(b.sends) + (if h == ReturnToMain && !OverBudget(m) then 1 else 0)
    ensures err.None? ==> m.copy in b.st.settled
    ensures err.None? && h == Application ==> b.st.meta[m.copy].origin in b.st.handled
    ensures err.None? && h == ReturnToMain ==>
              exists plan: Plan ::
                plan.move.BackToMain? && Delivered(b.sys, old(b.st), b.st, m.copy, b.sys.Main(), plan)
    ensures h == ReturnToMain && OverBudget(m) ==> err.Some?
  {
    ghost var before := b.st;
    b.Interfere();
    ghost var running := b.st;
    match h {
      case Application =>
        err := *;
        if err.None? {
          b.MarkHandled(m.copy);
          EvolvesTrans(b.sys, before, running, b.st);
        }
      case ReturnToMain =>
        var plan;
        err, plan := MoveBack(b, m);
        EvolvesTrans(b.sys, before, running, b.st);
        if err.None? {
          DeliveredLater(b.sys, before, running, b.st, m.copy, b.sys.Main(), plan);
        }
    }
  }

  /** `deleted` says that the service reported the deletion. */
  method DeleteMessage(b: Broker, m: Message) returns (deleted: bool)
    requires b.Valid() && m.copy in b.st.settled && (m.receipt.Some? ==> m.receipt.value == m.copy)
    modifies b`st, b`asked
    ensures b.Valid() && Evolves(b.sys, old(b.st), b.st)
    ensures b.asked == old(b.asked) + (if m.receipt.Some? then [m.receipt.value] else [])
    ensures deleted ==> m.receipt.Some?
    ensures b.st == old(b.st)
         || (m.receipt.Some? && b.st == old(b.st).(live := old(b.st).live - {m.copy}))
  {
    EvolvesSelf(b.sys, b.st);
    if m.receipt.None? {
      return false;
    }
    var err := b.DeleteMessage(m.receipt.value);
    deleted := err.None?;
  }

  /**
   What became of a message: what the handler said, the counter that was read, the decision, whether a
   republish was acknowledged and a deletion reported, how often a republish was tried, and whether
   the context ended meanwhile.
   */
  datatype Outcome = Outcome(err: Option<Error>, count: nat, route: Route, published: bool, deleted: bool, tries: nat,
                             cut: bool, producer: bool)

  /** A republish that was given up: without a producer, after three attempts, or as the context ended. */
  predicate GaveUp(o: Outcome) {
    !o.published && (!o.producer || (o.tries == 3 || (o.cut && 1 <= o.tries <= 3)))
  }

  /** A copy of the message stands in the queue, moved that way. */
  ghost predicate Stands(sys: Setup, st: St, m: Message, url: string, move: A.Move, count: nat) {
    exists c, cause: Cause ::
      && c in st.log && c in st.meta && m.copy in st.log && m.copy in st.meta
      && st.log[c].url == url && cause.move == move && cause.count == count
      && MaySend(sys, st.log[m.copy], st.log[c], cause) && st.meta[c].origin == st.meta[m.copy].origin
  }

  lemma DeliveredStands(sys: Setup, before: St, now: St, m: Message, url: string, plan: Plan)
    requires m.copy in before.log && m.copy in before.meta && Grows(before, now)
    requires Delivered(sys, before, now, m.copy, url, plan)
    ensures Stands(sys, now, m, url, plan.move, plan.count)
  {
    var c, cause: Cause :|
      && c !in before.log && c in now.log && c in now.meta && now.log[c].url == url
      && cause.move == plan.move && cause.count == plan.count
      && cause.why == plan.why && cause.delayCount == plan.delayCount
      && MaySend(sys, before.log[m.copy], now.log[c], cause)
      && now.meta[c] == MovedMeta(before.meta[m.copy], cause);
    assert MaySend(sys, now.log[m.copy], now.log[c], cause);
  }

  lemma StandsLater(sys: Setup, a: St, b: St, m: Message, url: string, move: A.Move, count: nat)
    requires Grows(a, b) && Stands(sys, a, m, url, move, count)
    ensures Stands(sys, b, m, url, move, count)
  {
    var c, cause: Cause :|
      && c in a.log && c in a.meta && m.copy in a.log && m.copy in a.meta
      && a.log[c].url == url && cause.move == move && cause.count == count
      && MaySend(sys, a.log[m.copy], a.log[c], cause) && a.meta[c].origin == a.meta[m.copy].origin;
    assert MaySend(sys, b.log[m.copy], b.log[c], cause);
  }

  /** Where the acknowledged copy of a failed message stands: dead, with the error, or to be retried. */
  ghost predicate Rerouted(sys: Setup, st: St, m: Message, err: Error, count: nat) {
    if err.nonRetryable || count >= sys.Cfg().maxRetries
    then Stands(sys, st, m, sys.DlqURL(), A.ToDlq(Some(err)), count)
    else Stands(sys, st, m, sys.RetryURL(), A.ToRetry, count)
  }

  /**
   A message is done with when its handler returned nil, or when it failed without being cancelled and
   its copy was acknowledged: in the DLQ exactly when the error is final or the counter has reached
   the budget, in the retry queue otherwise. It is left alone behind a cancelled handler, or a
   republish that was given up, and over the attribute budget.
   */
  ghost predicate Explains(sys: Setup, st: St, h: Handler, m: Message, o: Outcome) {
    && IsReceived(st, QueueOf(sys, h), m) && A.IsCount(m.attrs, o.count) && (o.producer <==> h == Application)
    && (o.err.None? || o.err.value.canceled ==> !o.published && o.tries == 0)
    && (o.err.Some? && !o.err.value.canceled ==> o.published || GaveUp(o))
    && (o.published ==> h == Application && 1 <= o.tries <= 3 && Rerouted(sys, st, m, o.err.value, o.count))
    && (o.deleted ==> o.err.None? || o.published)
    && (o.err.None? || o.published ==> m.copy in st.settled)
    && (o.err.None? && h == Application ==> st.meta[m.copy].origin in st.handled)
    && (OverBudget(m) && o.err.Some? ==> !o.published && !o.deleted)
    && (OverBudget(m) && h == ReturnToMain ==> o.err.Some?)
  }

  lemma ReroutedLater(sys: Setup, a: St, b: St, m: Message, err: Error, count: nat)
    requires Grows(a, b) && Rerouted(sys, a, m, err, count)
    ensures Rerouted(sys, b, m, err, count)
  {
    if err.nonRetryable || count >= sys.Cfg().maxRetries {
      StandsLater(sys, a, b, m, sys.DlqURL(), A.ToDlq(Some(err)), count);
    } else {
      StandsLater(sys, a, b, m, sys.RetryURL(), A.ToRetry, count);
    }
  }

  /** Which messages are dead, in the routing decision. */
  lemma RouteOfFailed(err: Error, count: int, maxRetries: int)
    requires !err.canceled
    ensures SqsRoute(Some(err), count, maxRetries)
         == if err.nonRetryable || count >= maxRetries then RouteDLQ else RouteRetry
  {
  }

  /** The retry and DLQ routes: republish to the queue and with the content that the route prescribes. */
  method Reroute(b: Broker, h: Handler, hasProducer: bool, m: Message, err: Error, route: Route, count: nat)
    returns (published: bool, tries: nat, cut: bool)
    requires b.Valid() && IsReceived(b.st, QueueOf(b.sys, h), m) && (hasProducer <==> h == Application)
    requires (route == RouteRetry || route == RouteDLQ) && route == SqsRoute(Some(err), count, b.sys.Cfg().maxRetries)
    requires A.IsCount(m.attrs, count) && count <= MAX_INT64 && !err.canceled
    modifies b`st, b`sends
    ensures b.Valid() && Evolves(b.sys, old(b.st), b.st)
    ensures tries <= 3 && b.sends == old(b.sends) + (if OverBudget(m) then 0 else tries)
    ensures if hasProducer then tries >= 1 && (!published ==> tries == 3 || cut) else !published
    ensures published ==> !OverBudget(m) && m.copy in b.st.settled && Rerouted(b.sys, b.st, m, err, count)
  {
    ghost var before := b.st;
    var cfg := b.sys.Cfg();
    var toDLQ := route == RouteDLQ;
    var dest := DestQueueURL(QueueOf(b.sys, h), Suffixes(cfg.retrySuffix, cfg.dlqSuffix), toDLQ);
    var produceErr, plan;
    produceErr, plan, tries, cut := Republish(b, hasProducer, m, dest, Some(err), cfg, toDLQ, count,
                                              WhyOf(Some(err), route));
    published := produceErr.None?;
    if published {
      RouteOfFailed(err, count, cfg.maxRetries);
      DeliveredStands(b.sys, before, b.st, m, dest, plan);
    }
  }

  /** The deletion behind a nil result or an acknowledged republish. */
  method DeleteAfter(b: Broker, h: Handler, m: Message, o: Outcome, ghost before: St) returns (done: Outcome)
    requires b.Valid() && Evolves(b.sys, before, b.st) && Explains(b.sys, b.st, h, m, o)
    requires (o.err.None? || o.published) && !o.deleted
    modifies b`st, b`asked
    ensures b.Valid() && Evolves(b.sys, before, b.st) && Explains(b.sys, b.st, h, m, done)
    ensures done == o.(deleted := done.deleted)
    ensures b.asked == old(b.asked) + (if m.receipt.Some? then [m.receipt.value] else [])
  {
    ghost var settled := b.st;
    var deleted := DeleteMessage(b, m);
    EvolvesTrans(b.sys, before, settled, b.st);
    ExplainsLater(b.sys, settled, b.st, h, m, o);
    done := o.(deleted := deleted);
  }

  lemma ExplainsLater(sys: Setup, a: St, b: St, h: Handler, m: Message, o: Outcome)
    requires Grows(a, b) && Explains(sys, a, h, m, o)
    ensures Explains(sys, b, h, m, o)
  {
    if o.published {
      ReroutedLater(sys, a, b, m, o.err.value, o.count);
    }
  }

  /** The routing decision on what the handler returned, and the republish it asks for. */
  method Decide(b: Broker, h: Handler, hasProducer: bool, m: Message, err: Option<Error>, ghost before: St)
    returns (o: Outcome)
    requires b.Valid() && IsReceived(b.st, QueueOf(b.sys, h), m) && (hasProducer <==> h == Application)
    requires Evolves(b.sys, before, b.st)
    requires err.None? ==> m.copy in b.st.settled && (h == Application ==> b.st.meta[m.copy].origin in b.st.handled)
    requires h == ReturnToMain && OverBudget(m) ==> err.Some?
    modifies b`st, b`sends
    ensures b.Valid() && Evolves(b.sys, before, b.st)
    ensures Explains(b.sys, b.st, h, m, o) && o.err == err && !o.deleted
    ensures o.route == RouteCommit <==> err.None?
    ensures b.sends == old(b.sends) + (if OverBudget(m) then 0 else o.tries)
  {
    ghost var handled := b.st;
    var retryCount := RetryCount(m.attrs);
    var route := SqsRoute(err, retryCount, b.sys.Cfg().maxRetries);
    o := Outcome(err, retryCount, route, false, false, 0, false, hasProducer);
    if route == RouteRetry || route == RouteDLQ {
      var published, tries, cut := Reroute(b, h, hasProducer, m, err.value, route, retryCount);
      EvolvesTrans(b.sys, before, handled, b.st);
      o := Outcome(err, retryCount, route, published, false, tries, cut, hasProducer);
    }
  }

  /** What the routing decision needs of a handler call. */
  method Call(b: Broker, h: Handler, m: Message) returns (err: Option<Error>)
    requires b.Valid() && IsReceived(b.st, QueueOf(b.sys, h), m)
    modifies b`st, b`sends
    ensures b.Valid() && Evolves(b.sys, old(b.st), b.st) && IsReceived(b.st, QueueOf(b.sys, h), m)
    ensures h == Application ==> b.sends == old(b.sends)
    ensures err.None? ==> m.copy in b.st.settled && (h == Application ==> b.st.meta[m.copy].origin in b.st.handled)
    ensures h == ReturnToMain && OverBudget(m) ==> err.Some?
  {
    ghost var before := b.st;
    err := Handle(b, h, m);
    ReceivedLater(before, b.st, QueueOf(b.sys, h), m);
  }

  /** A deletion exactly after a nil result or an acknowledged republish. */
  method Conclude(b: Broker, h: Handler, m: Message, o: Outcome, ghost before: St) returns (done: Outcome)
    requires b.Valid() && Evolves(b.sys, before, b.st) && Explains(b.sys, b.st, h, m, o) && !o.deleted
    requires o.route == RouteCommit <==> o.err.None?
    modifies b`st, b`asked
    ensures b.Valid() && Evolves(b.sys, before, b.st) && Explains(b.sys, b.st, h, m, done)
    ensures done == o.(deleted := done.deleted)
    ensures b.asked == old(b.asked)
                       + (if (o.err.None? || o.published) && m.receipt.Some? then [m.receipt.value] else [])
  {
    done := o;
    if o.route == RouteCommit || o.published {
      done := DeleteAfter(b, h, m, o, before);
    }
  }

  /**
   One message: handler, routing decision, republish or not, delete or not. A deletion is asked for
   exactly after a nil result or an acknowledged republish.
   */
  method ProcessMessage(b: Broker, h: Handler, hasProducer: bool, m: Message) returns (o: Outcome)
    requires b.Valid() && IsReceived(b.st, QueueOf(b.sys, h), m)
    requires hasProducer <==> h == Application
    modifies b`st, b`sends, b`asked
    ensures b.Valid() && Evolves(b.sys, old(b.st), b.st)
    ensures Explains(b.sys, b.st, h, m, o)
    ensures b.asked == old(b.asked)
                       + (if (o.err.None? || o.published) && m.receipt.Some? then [m.receipt.value] else [])
    ensures h == Application ==> b.sends == old(b.sends) + (if OverBudget(m) then 0 else o.tries)
  {
    ghost var before := b.st;
    var err := Call(b, h, m);
    var decided := Decide(b, h, hasProducer, m, err, before);
    o := Conclude(b, h, m, decided, before);
  }

  /** A processed message. */
  datatype Processed = Processed(m: Message, o: Outcome)

  ghost predicate AllExplained(sys: Setup, st: St, h: Handler, log: seq<Processed>) {
    forall e :: e in log ==> Explains(sys, st, h, e.m, e.o)
  }

  lemma ExplainedLater(sys: Setup, a: St, b: St, h: Handler, log: seq<Processed>)
    requires Grows(a, b) && AllExplained(sys, a, h, log)
    ensures AllExplained(sys, b, h, log)
  {
    forall e | e in log ensures Explains(sys, b, h, e.m, e.o) {
      ExplainsLater(sys, a, b, h, e.m, e.o);
    }
  }

  /** The processed messages are the first ones received. */
  predicate InOrder(log: seq<Processed>, msgs: seq<Message>) {
    |log| <= |msgs| && forall i :: 0 <= i < |log| ==> log[i].m == msgs[i]
  }

  predicate AllReceived(st: St, url: string, msgs: seq<Message>) { forall m :: m in msgs ==> IsReceived(st, url, m) }

  /** The next message of a batch, behind the ones already processed. */
  method ProcessNext(b: Broker, h: Handler, hasProducer: bool, msgs: seq<Message>, log: seq<Processed>,
                     ghost received: St)
    returns (next: seq<Processed>)
    requires b.Valid() && (hasProducer <==> h == Application)
    requires AllReceived(received, QueueOf(b.sys, h), msgs) && Evolves(b.sys, received, b.st)
    requires AllExplained(b.sys, b.st, h, log) && InOrder(log, msgs) && |log| < |msgs|
    modifies b`st, b`sends, b`asked
    ensures b.Valid() && Evolves(b.sys, received, b.st) && AllExplained(b.sys, b.st, h, next)
    ensures |next| == |log| + 1 && InOrder(next, msgs)
  {
    ghost var before := b.st;
    var m := msgs[|log|];
    NextIsReceived(received, before, QueueOf(b.sys, h), msgs, |log|);
    var o := ProcessOne(b, h, hasProducer, m);
    OneMoreProcessed(b.sys, received, before, b.st, h, log, Processed(m, o));
    OneMoreInOrder(log, msgs, Processed(m, o));
    next := log + [Processed(m, o)];
  }

  lemma OneMoreProcessed(sys: Setup, received: St, before: St, now: St, h: Handler, log: seq<Processed>, e: Processed)
    requires Evolves(sys, received, before) && Evolves(sys, before, now)
    requires AllExplained(sys, before, h, log) && Explains(sys, now, h, e.m, e.o)
    ensures Evolves(sys, received, now) && AllExplained(sys, now, h, log + [e])
  {
    EvolvesTrans(sys, received, before, now);
    ExplainedLater(sys, before, now, h, log);
  }

  lemma OneMoreInOrder(log: seq<Processed>, msgs: seq<Message>, e: Processed)
    requires InOrder(log, msgs) && |log| < |msgs| && e.m == msgs[|log|]
    ensures InOrder(log + [e], msgs)
  {
  }

  /** processMessage as the loop sees it. */
  method ProcessOne(b: Broker, h: Handler, hasProducer: bool, m: Message) returns (o: Outcome)
    requires b.Valid() && IsReceived(b.st, QueueOf(b.sys, h), m) && (hasProducer <==> h == Application)
    modifies b`st, b`sends, b`asked
    ensures b.Valid() && Evolves(b.sys, old(b.st), b.st) && Explains(b.sys, b.st, h, m, o)
  {
    o := ProcessMessage(b, h, hasProducer, m);
  }

  /** The messages of one receive, in order, until the context ends. */
  method ConsumeBatch(b: Broker, h: Handler, hasProducer: bool, msgs: seq<Message>) returns (log: seq<Processed>,
                      done: bool)
    requires b.Valid() && (hasProducer <==> h == Application)
    requires AllReceived(b.st, QueueOf(b.sys, h), msgs)
    modifies b`st, b`sends, b`asked
    ensures b.Valid() && Evolves(b.sys, old(b.st), b.st) && AllExplained(b.sys, b.st, h, log)
    ensures InOrder(log, msgs) && (!done ==> |log| == |msgs|)
  {
    ghost var received := b.st;
    EvolvesSelf(b.sys, b.st);
    log, done := [], false;
    while |log| < |msgs| && !done
      invariant b.Valid() && Evolves(b.sys, received, b.st) && AllExplained(b.sys, b.st, h, log)
      invariant InOrder(log, msgs)
      decreases |msgs| - |log|
    {
      log := ProcessNext(b, h, hasProducer, msgs, log, received);
      done := *;
    }
  }

  lemma NextIsReceived(received: St, now: St, url: string, msgs: seq<Message>, i: nat)
    requires AllReceived(received, url, msgs) && Grows(received, now) && i < |msgs|
    ensures IsReceived(now, url, msgs[i])
  {
    assert msgs[i] in msgs;
    ReceivedLater(received, now, url, msgs[i]);
  }

  lemma ReceivedLater(a: St, b: St, url: string, m: Message)
    requires Grows(a, b) && IsReceived(a, url, m)
    ensures IsReceived(b, url, m)
  {
  }

  /** Consume, for any number of receives before the context ends; `log` is what it processed. */
  method Consume(b: Broker, h: Handler, hasProducer: bool, receives: nat) returns (log: seq<Processed>)
    requires b.Valid() && (hasProducer <==> h == Application)
    modifies b`st, b`sends, b`asked
    ensures b.Valid() && Evolves(b.sys, old(b.st), b.st) && AllExplained(b.sys, b.st, h, log)
  {
    EvolvesSelf(b.sys, b.st);
    log := [];
    for i := 0 to receives
      invariant b.Valid() && Evolves(b.sys, old(b.st), b.st) && AllExplained(b.sys, b.st, h, log)
    {
      ghost var start := b.st;
      b.Interfere();
      EvolvesTrans(b.sys, old(b.st), start, b.st);
      ghost var received := b.st;
      var msgs := b.ReceiveMessage(QueueOf(b.sys, h));
      var processed, done := ConsumeBatch(b, h, hasProducer, msgs);
      EvolvesTrans(b.sys, old(b.st), received, b.st);
      ExplainedLater(b.sys, start, received, h, log);
      ExplainedLater(b.sys, received, b.st, h, log);
      log := log + processed;
      if done {
        return;
      }
    }
  }

  /** ConsumeRetry: the same loop on the retry queue, without a producer for nested retries. */
  method ConsumeRetry(b: Broker, receives: nat) returns (log: seq<Processed>)
    requires b.Valid()
    modifies b`st, b`sends, b`asked
    ensures b.Valid() && Evolves(b.sys, old(b.st), b.st) && AllExplained(b.sys, b.st, ReturnToMain, log)
  {
    log := Consume(b, ReturnToMain, false, receives);
  }
}
