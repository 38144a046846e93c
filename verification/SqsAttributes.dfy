/**
 SQS message attributes: a map with case-sensitive keys that is read case-insensitively. Go
 ranges over maps in no particular order, so when a map holds several spellings of one name a
 read returns any of their values.
 */
module SqsAttributes {
  import opened Base
  import opened GoStrings
  import opened Headers

  /** An attribute; binary ones have no string value. */
  datatype Attr = Attr(dataType: string, str: Option<string>)

  type Attrs = map<string, Attr>

  const MAX_ATTRIBUTES := 10
  const RESERVED_ATTRIBUTES := 3
  const MAX_CUSTOM_ATTRIBUTES := MAX_ATTRIBUTES - RESERVED_ATTRIBUTES

  function StringAttr(v: string): Attr { Attr("String", Some(v)) }

  // ----- what the operations compute --------------------------------------------------------

  /** `k` is a spelling of `name` in `m` with a string value. */
  predicate Matches(m: Attrs, k: string, name: string) {
    k in m && EqualFold(k, name) && m[k].str.Some?
  }

  /** A value that reading `name` may return. */
  predicate IsRead(m: Attrs, name: string, v: string) {
    || (exists k :: k in m && Matches(m, k, name) && v == m[k].str.value)
    || (v == "" && forall k :: k in m ==> !Matches(m, k, name))
  }

  predicate IsCount(m: Attrs, n: nat) {
    exists k :: k in ReadableValues(m, RETRY_COUNT) && n == ParseCount(k)
  }

  function ReadableValues(m: Attrs, name: string): (s: set<string>)
    ensures forall v :: v in s <==> IsRead(m, name, v)
  {
    var found := set k | k in m && Matches(m, k, name) :: m[k].str.value;
    if (forall k :: k in m ==> !Matches(m, k, name)) then {""} else found
  }

  predicate Kept(k: string, a: Attr) {
    && !IsStrippedKey(k)
    && (ToLower(k) == TRACE_PARENT ==> a.str.Some? && ValidTraceparent(a.str.value))
  }

  /** Sanitizing drops the counter, the reason and malformed traceparents, in any case of their letters. */
  lemma KeptIff(k: string, a: Attr)
    ensures Kept(k, a) <==>
            && ToLower(k) != "x-retry-count" && ToLower(k) != "x-error-reason"
            && (ToLower(k) == "traceparent" ==>
                  a.str.Some?
                  && exists version, trace, parent, flags :: IsTraceparent(a.str.value, version, trace, parent, flags))
  {
    if a.str.Some? {
      TraceparentIff(a.str.value);
    }
  }

  function Sanitize(m: Attrs): Attrs { map k | k in m && Kept(k, m[k]) :: m[k] }

  /** The attributes a republish hands to the producer as custom ones: string values only. */
  function Forward(m: Attrs): map<string, string> {
    map k | k in m && !IsReinjected(k) && m[k].str.Some? :: m[k].str.value
  }

  datatype Move = ToRetry | ToDlq(err: Option<Error>) | BackToMain(count: nat)

  function Prepared(m: Attrs, move: Move): Attrs {
    match move
    case ToRetry => Sanitize(m)[RETRY_COUNT := StringAttr(Itoa(1))]
    case ToDlq(err) => Sanitize(m)[ERROR_REASON := StringAttr(ErrorReason(err))]
    case BackToMain(n) => Sanitize(m)[RETRY_COUNT := StringAttr(Itoa(n))]
  }

  function AsAttrs(m: map<string, string>): Attrs { map k | k in m :: StringAttr(m[k]) }

  /** What Publish sends: custom attributes, the identity, and the propagator's. */
  function Outgoing(extra: map<string, string>, key: string, inj: map<string, string>): Attrs {
    AsAttrs(extra)[IDEMPOTENCY_KEY := StringAttr(key)] + AsAttrs(inj)
  }

  /**
   The propagator's attributes over `extra`. A consumer's context carries no baggage but the
   message's own.
   */
  predicate IsInjection(inj: map<string, string>, extra: map<string, string>) {
    && (forall k :: k in inj ==> IsTraceName(k))
    && (BAGGAGE in inj ==> exists k :: k in extra && EqualFold(k, BAGGAGE))
  }

  /** The identity a move publishes under: a non-empty one that was read, or a UUID. */
  predicate IsIdentity(m: Attrs, move: Move, key: string) {
    && key != ""
    && exists k :: k in ReadableValues(Prepared(m, move), IDEMPOTENCY_KEY) && (k != "" ==> key == k)
  }

  function Moved(m: Attrs, move: Move, key: string, inj: map<string, string>): Attrs {
    Outgoing(Forward(Prepared(m, move)), key, inj)
  }

  // ----- names without case variants -----------------------------------------

  /** `name` has no spelling in `m` but its own. */
  predicate PlainFor(m: Attrs, name: string) {
    forall k :: k in m && EqualFold(k, name) ==> k == name
  }

  function ReadPlain(m: Attrs, name: string): string {
    if name in m && m[name].str.Some? then m[name].str.value else ""
  }

  /** Then every read has one result. */
  lemma PlainReads(m: Attrs, name: string, v: string)
    requires PlainFor(m, name)
    ensures IsRead(m, name, v) <==> v == ReadPlain(m, name)
  {
    assert EqualFold(name, name);
    assert name in m && m[name].str.Some? ==> Matches(m, name, name);
  }

  lemma PlainCount(m: Attrs, n: nat)
    requires PlainFor(m, RETRY_COUNT) && IsCount(m, n)
    ensures n == ParseCount(ReadPlain(m, RETRY_COUNT))
  {
    var v :| v in ReadableValues(m, RETRY_COUNT) && n == ParseCount(v);
    PlainReads(m, RETRY_COUNT, v);
  }

  /** The application's string-valued attributes. */
  function App(m: Attrs): map<string, string> {
    map k | k in m && IsAppKey(k) && m[k].str.Some? :: m[k].str.value
  }

  /** A key of what a move sends: one that was forwarded, the identity's or a trace name. */
  lemma MovedKey(m: Attrs, move: Move, key: string, inj: map<string, string>, k: string)
    requires IsInjection(inj, Forward(Prepared(m, move))) && k in Moved(m, move, key, inj)
    ensures (k in m && Kept(k, m[k])) || IsPlatformName(k)
  {
    assert k in inj || k == IDEMPOTENCY_KEY || k in Forward(Prepared(m, move));
    assert k in Prepared(m, move) ==> k in Sanitize(m) || k == RETRY_COUNT || k == ERROR_REASON;
  }

  lemma PlainAfterMove(m: Attrs, move: Move, key: string, inj: map<string, string>)
    requires IsInjection(inj, Forward(Prepared(m, move)))
    ensures PlainFor(m, IDEMPOTENCY_KEY) ==> PlainFor(Moved(m, move, key, inj), IDEMPOTENCY_KEY)
    ensures PlainFor(Moved(m, move, key, inj), RETRY_COUNT)
  {
    forall k | k in Moved(m, move, key, inj)
      ensures (k in m && !EqualFold(k, RETRY_COUNT)) || IsPlatformName(k)
    {
      MovedKey(m, move, key, inj, k);
      StrippedKeys(k);
    }
    NamesFoldToThemselves();
  }

  lemma NamesFoldToThemselves()
    ensures forall k :: IsPlatformName(k) && EqualFold(k, RETRY_COUNT) ==> k == RETRY_COUNT
    ensures forall k :: IsPlatformName(k) && EqualFold(k, IDEMPOTENCY_KEY) ==> k == IDEMPOTENCY_KEY
  {
    forall k | IsPlatformName(k) && EqualFold(k, RETRY_COUNT) ensures k == RETRY_COUNT {
      OneNamePerKey(k, k, RETRY_COUNT);
    }
    forall k | IsPlatformName(k) && EqualFold(k, IDEMPOTENCY_KEY) ensures k == IDEMPOTENCY_KEY {
      OneNamePerKey(k, k, IDEMPOTENCY_KEY);
    }
  }

  lemma AppKeysAreNoNames(k: string)
    requires IsAppKey(k)
    ensures !IsPlatformName(k)
  {
    assert EqualFold(k, k);
  }

  lemma AppAfterMove(m: Attrs, move: Move, key: string, inj: map<string, string>)
    requires IsInjection(inj, Forward(Prepared(m, move)))
    ensures App(Moved(m, move, key, inj)) == App(m)
  {
    var out := Moved(m, move, key, inj);
    forall k: string ensures k in App(out) <==> k in App(m)
                     ensures k in App(m) && k in App(out) ==> App(out)[k] == App(m)[k] {
      if IsAppKey(k) {
        AppKeysAreNoNames(k);
        if k in m {
          AppKeysSurvive(k, if m[k].str.Some? then m[k].str.value else "");
        }
      }
    }
  }

  predicate OnlyTraceNames(inj: map<string, string>) { forall k :: k in inj ==> IsTraceName(k) }

  /** What reading the published attributes gives: the identity, and the forwarded counter. */
  lemma ReadOutgoing(extra: map<string, string>, key: string, inj: map<string, string>)
    requires OnlyTraceNames(inj)
    ensures ReadPlain(Outgoing(extra, key, inj), IDEMPOTENCY_KEY) == key
    ensures ReadPlain(Outgoing(extra, key, inj), RETRY_COUNT) == if RETRY_COUNT in extra then extra[RETRY_COUNT] else ""
  {
    assert !IsTraceName(IDEMPOTENCY_KEY) && !IsTraceName(RETRY_COUNT);
  }

  lemma IdentityKept(m: Attrs, move: Move)
    ensures ReadPlain(Prepared(m, move), IDEMPOTENCY_KEY) == ReadPlain(m, IDEMPOTENCY_KEY)
  {
    LowerOfNames();
  }

  /** The counter a move forwards. */
  lemma ForwardedCount(m: Attrs, move: Move)
    requires !move.ToDlq?
    ensures RETRY_COUNT in Forward(Prepared(m, move))
    ensures Forward(Prepared(m, move))[RETRY_COUNT] == if move.ToRetry? then Itoa(1) else Itoa(move.count)
  {
    assert !IsReinjected(RETRY_COUNT);
  }

  lemma IdentityRead(m: Attrs, move: Move, key: string)
    requires PlainFor(m, IDEMPOTENCY_KEY) && IsIdentity(m, move, key)
    ensures ReadPlain(m, IDEMPOTENCY_KEY) != "" ==> key == ReadPlain(m, IDEMPOTENCY_KEY)
  {
    var ready := Prepared(m, move);
    IdentityKept(m, move);
    assert PlainFor(ready, IDEMPOTENCY_KEY);
    var k :| k in ReadableValues(ready, IDEMPOTENCY_KEY) && (k != "" ==> key == k);
    PlainReads(ready, IDEMPOTENCY_KEY, k);
  }

  /**
   One hop of any kind, for any attributes: the application's string attributes stay, and the
   counter becomes one on the way to retry whatever it was, what was read on the way back. A
   non-empty identity without case variants stays too.
   */
  lemma HopKeeps(m: Attrs, move: Move, key: string, inj: map<string, string>)
    requires IsIdentity(m, move, key) && IsInjection(inj, Forward(Prepared(m, move)))
    requires move.BackToMain? ==> move.count <= MAX_INT64
    ensures App(Moved(m, move, key, inj)) == App(m) && PlainFor(Moved(m, move, key, inj), RETRY_COUNT)
    ensures PlainFor(m, IDEMPOTENCY_KEY) && ReadPlain(m, IDEMPOTENCY_KEY) != "" ==>
              var out := Moved(m, move, key, inj);
              PlainFor(out, IDEMPOTENCY_KEY) && ReadPlain(out, IDEMPOTENCY_KEY) == ReadPlain(m, IDEMPOTENCY_KEY)
    ensures var out := Moved(m, move, key, inj);
            && "x-idempotency-key" in out && out["x-idempotency-key"] == Attr("String", Some(key))
            && (move.ToDlq? ==>
                  "x-error-reason" in out && out["x-error-reason"] == Attr("String", Some(ErrorReason(move.err))))
            && (!move.ToDlq? ==> "x-retry-count" in out && out["x-retry-count"]
                                 == Attr("String", Some(if move.ToRetry? then "1" else Itoa(move.count))))
    ensures move.ToRetry? ==> ParseCount(ReadPlain(Moved(m, move, key, inj), RETRY_COUNT)) == 1
    ensures move.BackToMain? ==> ParseCount(ReadPlain(Moved(m, move, key, inj), RETRY_COUNT)) == move.count
  {
    AppAfterMove(m, move, key, inj);
    PlainAfterMove(m, move, key, inj);
    if PlainFor(m, IDEMPOTENCY_KEY) {
      IdentityRead(m, move, key);
    }
    ReadOutgoing(Forward(Prepared(m, move)), key, inj);
    MarkersSent(m, move, key, inj);
    if !move.ToDlq? {
      ForwardedCount(m, move);
      ParsePrinted(if move.ToRetry? then 1 else move.count);
    }
  }

  /** The marker and the identity, as they are sent. */
  lemma MarkersSent(m: Attrs, move: Move, key: string, inj: map<string, string>)
    requires OnlyTraceNames(inj)
    ensures var out := Moved(m, move, key, inj);
            && IDEMPOTENCY_KEY in out && out[IDEMPOTENCY_KEY] == Attr("String", Some(key))
            && (move.ToDlq? ==> ERROR_REASON in out && out[ERROR_REASON] == Attr("String", Some(ErrorReason(move.err))))
            && (!move.ToDlq? ==> RETRY_COUNT in out && out[RETRY_COUNT]
                                 == Attr("String", Some(if move.ToRetry? then "1" else Itoa(move.count))))
  {
    assert !IsTraceName(IDEMPOTENCY_KEY) && !IsTraceName(RETRY_COUNT) && !IsTraceName(ERROR_REASON);
    assert !IsReinjected(RETRY_COUNT) && !IsReinjected(ERROR_REASON);
    assert Digit(1) == '1' && Itoa(1) == "1";
  }

  /** A trace attribute that was sent is a new one: the source's are never passed on under the exact names. */
  lemma TraceIsNew(m: Attrs, move: Move, key: string, inj: map<string, string>, k: string)
    requires k == "traceparent" || k == "tracestate"
    ensures var out := Moved(m, move, key, inj);
            (k in out <==> k in inj) && (k in inj ==> out[k] == Attr("String", Some(inj[k])))
  {
    assert IsReinjected(k) && |IDEMPOTENCY_KEY| != |k|;
  }

  // ----- the attribute budget --------------------------------------------------------------

  /** The attributes that a republish forwards. */
  function Passing(m: Attrs): set<string> {
    set k | k in m && m[k].str.Some? && !IsReinjected(k) && Kept(k, m[k])
  }

  function Marker(move: Move): string { if move.ToDlq? then ERROR_REASON else RETRY_COUNT }

  lemma LowerOfNames()
    ensures IsStrippedKey(RETRY_COUNT) && IsStrippedKey(ERROR_REASON) && !IsStrippedKey(IDEMPOTENCY_KEY)
    ensures ToLower(IDEMPOTENCY_KEY) != TRACE_PARENT
  {
    assert EqualFold(RETRY_COUNT, RETRY_COUNT);
    StrippedKeys(RETRY_COUNT);
    assert forall i :: 0 <= i < |ERROR_REASON| ==> 'a' <= ERROR_REASON[i] <= 'z' || ERROR_REASON[i] == '-';
    assert ToLower(ERROR_REASON) == ERROR_REASON;
    assert |ToLower(IDEMPOTENCY_KEY)| == 17;
  }

  /** A republish offers what passes and one marker. */
  lemma ForwardKeys(m: Attrs, move: Move)
    ensures Forward(Prepared(m, move)).Keys == Passing(m) + {Marker(move)} && Marker(move) !in Passing(m)
  {
    LowerOfNames();
  }

  /**
   Every republish, of any kind and for any attributes, passes the producer's check exactly when at
   most six attributes pass, one fewer than a first publish may have.
   */
  lemma BudgetIff(m: Attrs, move: Move)
    ensures |Forward(Prepared(m, move))| <= 7 <==> |Passing(m)| <= 6
  {
    ForwardKeys(m, move);
    assert |Forward(Prepared(m, move))| == |Forward(Prepared(m, move)).Keys|;
  }

  /** A hop changes what passes by the injected baggage alone. */
  lemma PassingAfterMove(m: Attrs, move: Move, key: string, inj: map<string, string>)
    requires IsInjection(inj, Forward(Prepared(m, move)))
    ensures Passing(Moved(m, move, key, inj)) == Passing(m) + (if BAGGAGE in inj then {BAGGAGE} else {})
  {
    var fwd := Forward(Prepared(m, move));
    ForwardKeys(m, move);
    forall k: string ensures k in Passing(Moved(m, move, key, inj)) <==>
                             k in Passing(m) || (k == BAGGAGE && BAGGAGE in inj) {
      PassingKey(m, move, key, inj, k);
    }
  }

  lemma OutgoingAt(extra: map<string, string>, key: string, inj: map<string, string>, k: string)
    requires k != IDEMPOTENCY_KEY && k !in inj
    ensures k in Outgoing(extra, key, inj) <==> k in extra
    ensures k in extra ==> Outgoing(extra, key, inj)[k] == StringAttr(extra[k])
  {
  }

  lemma PassingKey(m: Attrs, move: Move, key: string, inj: map<string, string>, k: string)
    requires IsInjection(inj, Forward(Prepared(m, move)))
    ensures k in Passing(Moved(m, move, key, inj)) <==> k in Passing(m) || (k == BAGGAGE && BAGGAGE in inj)
  {
    var fwd := Forward(Prepared(m, move));
    ForwardKeys(m, move);
    if k in inj {
      InjectedPasses(fwd, key, inj, k);
    } else if k != IDEMPOTENCY_KEY {
      OutgoingAt(fwd, key, inj, k);
      if k in fwd {
        ForwardedPasses(m, move, k);
      }
    }
  }

  lemma InjectedPasses(extra: map<string, string>, key: string, inj: map<string, string>, k: string)
    requires OnlyTraceNames(inj) && k in inj
    ensures k in Passing(Outgoing(extra, key, inj)) <==> k == BAGGAGE
  {
    BaggageIsKept();
  }

  lemma ForwardedPasses(m: Attrs, move: Move, k: string)
    requires k in Forward(Prepared(m, move))
    ensures k in Passing(m) <==> Kept(k, StringAttr(Forward(Prepared(m, move))[k]))
  {
    ForwardKeys(m, move);
    LowerOfNames();
    if k != Marker(move) {
      assert Forward(Prepared(m, move))[k] == m[k].str.value;
    }
  }

  lemma BaggageIsKept()
    ensures forall v :: Kept(BAGGAGE, StringAttr(v))
  {
    assert |ToLower(BAGGAGE)| == 7;
  }

  /** Injected baggage finds its key taken, or there is none to inject. */
  predicate BaggageSettled(m: Attrs) { BAGGAGE in Passing(m) || forall k :: k in Passing(m) ==> !EqualFold(k, BAGGAGE) }

  lemma SettledBaggage(m: Attrs, move: Move, inj: map<string, string>)
    requires BaggageSettled(m) && IsInjection(inj, Forward(Prepared(m, move))) && BAGGAGE in inj
    ensures BAGGAGE in Passing(m) && BAGGAGE in Forward(Prepared(m, move))
  {
    ForwardKeys(m, move);
  }

  /** What the propagator may write on a hop: only the retry consumer publishes with the message's baggage. */
  predicate CanInject(m: Attrs, move: Move, inj: map<string, string>) {
    IsInjection(inj, Forward(Prepared(m, move))) && (BAGGAGE in inj ==> move.BackToMain?)
  }

  /** Unsettled baggage that is injected on the way back. */
  lemma InjectsBaggage(m: Attrs, n: nat) returns (inj: map<string, string>)
    requires !BaggageSettled(m)
    ensures CanInject(m, BackToMain(n), inj) && inj.Keys == {TRACE_PARENT, TRACE_STATE, BAGGAGE}
  {
    inj := map[TRACE_PARENT := "", TRACE_STATE := "", BAGGAGE := ""];
    ForwardKeys(m, BackToMain(n));
  }

  /** Every hop of the message is sent with at most ten attributes. */
  ghost predicate AlwaysWithinLimit(m: Attrs) {
    forall move, key, inj :: CanInject(m, move, inj) ==> |Moved(m, move, key, inj)| <= 10
  }

  /**
   What passes the producer's check fits the broker's limit of ten attributes, for every hop, if and
   only if the baggage is settled or there is room for one more.
   */
  lemma WithinLimitIff(m: Attrs)
    requires |Passing(m)| <= 6
    ensures AlwaysWithinLimit(m) <==> BaggageSettled(m) || |Passing(m)| <= 5
  {
    if BaggageSettled(m) || |Passing(m)| <= MAX_CUSTOM_ATTRIBUTES - 2 {
      forall move, key, inj | CanInject(m, move, inj) ensures |Moved(m, move, key, inj)| <= MAX_ATTRIBUTES {
        SentSize(m, move, key, inj);
      }
    } else {
      var inj := InjectsBaggage(m, 1);
      var fwd := Forward(Prepared(m, BackToMain(1)));
      ForwardKeys(m, BackToMain(1));
      FullOutgoing(fwd, "u", inj);
      assert |Moved(m, BackToMain(1), "u", inj)| == MAX_ATTRIBUTES + 1;
    }
  }

  /** Seven forwarded attributes, the identity, and three injected names. */
  lemma FullOutgoing(extra: map<string, string>, key: string, inj: map<string, string>)
    requires inj.Keys == {TRACE_PARENT, TRACE_STATE, BAGGAGE} && BAGGAGE !in extra
    requires forall k :: k in extra ==> !IsReinjected(k)
    ensures |Outgoing(extra, key, inj)| == |extra| + RESERVED_ATTRIBUTES + 1
  {
    var out, added := Outgoing(extra, key, inj), {IDEMPOTENCY_KEY} + {TRACE_PARENT, TRACE_STATE, BAGGAGE};
    assert out.Keys == extra.Keys + added && extra.Keys !! added;
    AddedSize();
    assert |out| == |out.Keys| && |extra| == |extra.Keys|;
  }

  lemma AddedSize()
    ensures |{IDEMPOTENCY_KEY} + {TRACE_PARENT, TRACE_STATE, BAGGAGE}| == RESERVED_ATTRIBUTES + 1
  {
    ReservedSize();
    assert {IDEMPOTENCY_KEY} + {TRACE_PARENT, TRACE_STATE, BAGGAGE}
        == {IDEMPOTENCY_KEY, TRACE_PARENT, TRACE_STATE} + {BAGGAGE};
    assert |BAGGAGE| == 7;
  }

  lemma SentSize(m: Attrs, move: Move, key: string, inj: map<string, string>)
    requires CanInject(m, move, inj) && |Passing(m)| <= MAX_CUSTOM_ATTRIBUTES - 1
    requires BaggageSettled(m) || |Passing(m)| <= MAX_CUSTOM_ATTRIBUTES - 2
    ensures |Moved(m, move, key, inj)| <= MAX_ATTRIBUTES
  {
    var fwd := Forward(Prepared(m, move));
    ForwardKeys(m, move);
    assert |fwd| == |fwd.Keys|;
    if BAGGAGE in inj && BAGGAGE !in fwd {
      if BaggageSettled(m) {
        SettledBaggage(m, move, inj);
      }
      OutgoingBound(fwd, key, inj);
    } else {
      OutgoingSize(fwd, key, inj);
    }
  }

  lemma OutgoingBound(extra: map<string, string>, key: string, inj: map<string, string>)
    requires OnlyTraceNames(inj)
    ensures |Outgoing(extra, key, inj)| <= |extra| + RESERVED_ATTRIBUTES + 1
  {
    var added := {IDEMPOTENCY_KEY} + {TRACE_PARENT, TRACE_STATE, BAGGAGE};
    SizeOfUnion(extra.Keys, added, Outgoing(extra, key, inj).Keys);
    AddedSize();
  }

  lemma OutgoingSize(extra: map<string, string>, key: string, inj: map<string, string>)
    requires OnlyTraceNames(inj) && (BAGGAGE in inj ==> BAGGAGE in extra)
    ensures |Outgoing(extra, key, inj)| <= |extra| + RESERVED_ATTRIBUTES
  {
    var out := Outgoing(extra, key, inj);
    var reserved := {IDEMPOTENCY_KEY, TRACE_PARENT, TRACE_STATE};
    forall k | k in out ensures k in extra.Keys + reserved {
      OutgoingKey(extra, key, inj, k);
    }
    SizeOfUnion(extra.Keys, reserved, out.Keys);
    ReservedSize();
  }

  lemma OutgoingKey(extra: map<string, string>, key: string, inj: map<string, string>, k: string)
    requires OnlyTraceNames(inj) && (BAGGAGE in inj ==> BAGGAGE in extra) && k in Outgoing(extra, key, inj)
    ensures k in extra || k == IDEMPOTENCY_KEY || k == TRACE_PARENT || k == TRACE_STATE
  {
    assert k in extra || k == IDEMPOTENCY_KEY || k in inj;
  }

  lemma ReservedSize()
    ensures |{IDEMPOTENCY_KEY, TRACE_PARENT, TRACE_STATE}| == RESERVED_ATTRIBUTES
  {
    assert |IDEMPOTENCY_KEY| != |TRACE_PARENT| && |TRACE_PARENT| != |TRACE_STATE| && |IDEMPOTENCY_KEY| != |TRACE_STATE|;
  }

  lemma SizeOfSubset(a: set<string>, b: set<string>)
    requires a <= b
    ensures |a| <= |b|
  {
    assert a + (b - a) == b;
  }

  lemma SizeOfUnion(a: set<string>, b: set<string>, c: set<string>)
    requires c <= a + b
    ensures |c| <= |a| + |b|
  {
    SizeOfSubset(c, a + b);
  }

  // ----- what a hop loses -------------------------------------------------------------------

  function AllApp(m: Attrs): Attrs { map k | k in m && IsAppKey(k) :: m[k] }

  /**
   Application attributes survive as they are, type included, exactly when each is a String with
   a value: binary ones are dropped and number ones come back as strings.
   */
  lemma TypesSurviveIff(m: Attrs, move: Move, key: string, inj: map<string, string>)
    requires IsInjection(inj, Forward(Prepared(m, move)))
    ensures AllApp(Moved(m, move, key, inj)) == AllApp(m)
       <==> forall k :: k in m && IsAppKey(k) ==> m[k].str.Some? && m[k].dataType == "String"
  {
    var out := Moved(m, move, key, inj);
    if AllStrings(m) {
      forall k ensures k in AllApp(out) <==> k in AllApp(m)
               ensures k in AllApp(out) && k in AllApp(m) ==> AllApp(out)[k] == AllApp(m)[k] {
        MovedApp(m, move, key, inj, k);
      }
    } else {
      var k :| k in m && IsAppKey(k) && !(m[k].str.Some? && m[k].dataType == "String");
      MovedApp(m, move, key, inj, k);
      assert AllApp(m)[k] == m[k];
    }
  }

  /** Every application attribute is a String with a value. */
  predicate AllStrings(m: Attrs) { forall k :: k in m && IsAppKey(k) ==> m[k].str.Some? && m[k].dataType == "String" }

  /** An application key after a hop: a String with the value, if there was one. */
  lemma MovedApp(m: Attrs, move: Move, key: string, inj: map<string, string>, k: string)
    requires IsInjection(inj, Forward(Prepared(m, move)))
    ensures IsAppKey(k) ==>
              var out := Moved(m, move, key, inj);
              && (k in out <==> k in m && m[k].str.Some?)
              && (k in out ==> out[k] == StringAttr(m[k].str.value))
  {
    if IsAppKey(k) {
      var out := Moved(m, move, key, inj);
      AppAfterMove(m, move, key, inj);
      AppKeysAreNoNames(k);
      assert k in App(out) <==> k in App(m);
      assert k in App(out) ==> App(out)[k] == App(m)[k];
    }
  }

  // ----- what can always be read ---------------------------------------------------------------

  lemma SomeRead(m: Attrs, name: string) returns (v: string)
    ensures v in ReadableValues(m, name)
  {
    if k :| k in m && Matches(m, k, name) {
      v := m[k].str.value;
    } else {
      v := "";
    }
  }

  lemma SomeIdentity(m: Attrs, move: Move) returns (key: string)
    ensures IsIdentity(m, move, key)
  {
    var k := SomeRead(Prepared(m, move), IDEMPOTENCY_KEY);
    key := if k != "" then k else "u";
  }

  lemma SomeCount(m: Attrs) returns (n: nat)
    ensures IsCount(m, n) && n <= MAX_INT64
  {
    var v := SomeRead(m, RETRY_COUNT);
    n := ParseCount(v);
  }
}
