/**
 Kafka record headers: an ordered list that may repeat keys, read and written by
 case-insensitive first match.
 */
module KafkaHeaders {
  import opened Base
  import opened GoStrings
  import opened Headers

  datatype Header = Header(key: string, value: string)

  /** What a log keeps of a record. */
  datatype Rec = Rec(key: string, value: string, headers: seq<Header>)

  // ----- what the operations compute --------------------------------------------------------

  function Get(hs: seq<Header>, key: string): string {
    if hs == [] then ""
    else if EqualFold(hs[0].key, key) then hs[0].value
    else Get(hs[1..], key)
  }

  function Set(hs: seq<Header>, key: string, value: string): seq<Header> {
    if hs == [] then [Header(key, value)]
    else if EqualFold(hs[0].key, key) then [Header(hs[0].key, value)] + hs[1..]
    else [hs[0]] + Set(hs[1..], key, value)
  }

  predicate Kept(h: Header) { Survives(h.key, h.value) }

  predicate Forwarded(h: Header) { !IsReinjected(h.key) }

  predicate IsApp(h: Header) { IsAppKey(h.key) }

  function Sanitize(hs: seq<Header>): seq<Header> { Filter(hs, Kept) }

  /** The application's headers, in order. */
  function App(hs: seq<Header>): seq<Header> { Filter(hs, IsApp) }

  function CountOf(hs: seq<Header>): nat { ParseCount(Get(hs, RETRY_COUNT)) }

  /** IncRetryCount; the sum wraps like a Go int. */
  function Bump(hs: seq<Header>): seq<Header> { Set(hs, RETRY_COUNT, Itoa(Wrap64(CountOf(hs) + 1))) }

  function RetryHeaders(hs: seq<Header>): seq<Header> { Bump(Sanitize(hs)) }

  function DlqHeaders(hs: seq<Header>, err: Option<Error>): seq<Header> {
    Set(Sanitize(hs), ERROR_REASON, ErrorReason(err))
  }

  function ReturnHeaders(hs: seq<Header>): seq<Header> {
    Set(Sanitize(hs), RETRY_COUNT, Get(hs, RETRY_COUNT))
  }

  /** The trace headers a propagator sets, in its order. */
  predicate IsInjection(inj: seq<Header>) {
    forall h :: h in inj ==> IsTraceName(h.key)
  }

  function Inject(hs: seq<Header>, inj: seq<Header>): seq<Header>
    decreases |inj|
  {
    if inj == [] then hs else Inject(Set(hs, inj[0].key, inj[0].value), inj[1..])
  }

  /** What a record published with headers `hs` carries, given a fresh UUID and an injection. */
  function Published(hs: seq<Header>, uuid: string, inj: seq<Header>): seq<Header> {
    var k := Get(hs, IDEMPOTENCY_KEY);
    Inject(Set(Filter(hs, Forwarded), IDEMPOTENCY_KEY, if k != "" then k else uuid), inj)
  }

  // ----- reading and writing ----------------------------------------------------------------

  lemma {:induction false} GetAfterSet(hs: seq<Header>, key: string, value: string)
    ensures Get(Set(hs, key, value), key) == value
  {
    if hs != [] && !EqualFold(hs[0].key, key) {
      GetAfterSet(hs[1..], key, value);
    }
  }

  /** No header folds to the key. */
  predicate NoneFolds(hs: seq<Header>, key: string) { forall h :: h in hs ==> !EqualFold(h.key, key) }

  /** Reading and writing are about the first header that folds to the key; without one, writing appends. */
  lemma {:induction false} FirstMatch(a: seq<Header>, h: Header, b: seq<Header>, key: string, value: string)
    requires NoneFolds(a, key)
    ensures Get(a, key) == "" && Set(a, key, value) == a + [Header(key, value)]
    ensures EqualFold(h.key, key) ==>
              Get(a + [h] + b, key) == h.value && Set(a + [h] + b, key, value) == a + [Header(h.key, value)] + b
  {
    if a == [] {
      assert a + [h] + b == [h] + b && ([h] + b)[1..] == b;
    } else {
      assert a[0] in a;
      assert (a + [h] + b)[0] == a[0] && (a + [h] + b)[1..] == a[1..] + [h] + b;
      FirstMatch(a[1..], h, b, key, value);
    }
  }

  /** Writing one name does not change what is read under a name it does not fold to. */
  lemma {:induction false} GetAfterOtherSet(hs: seq<Header>, key: string, value: string, other: string)
    requires !EqualFold(key, other)
    ensures Get(Set(hs, key, value), other) == Get(hs, other)
  {
    if hs != [] && !EqualFold(hs[0].key, key) {
      GetAfterOtherSet(hs[1..], key, value, other);
    }
  }

  /** Writing a name leaves the headers that do not fold to it, in order. */
  lemma {:induction false} OthersAfterSet(hs: seq<Header>, name: string, value: string, p: Header -> bool)
    requires forall h: Header :: EqualFold(h.key, name) ==> !p(h)
    ensures Filter(Set(hs, name, value), p) == Filter(hs, p)
  {
    if hs == [] {
      assert EqualFold(name, name);
    } else if EqualFold(hs[0].key, name) {
      assert Set(hs, name, value)[1..] == hs[1..];
    } else {
      OthersAfterSet(hs[1..], name, value, p);
      assert Set(hs, name, value)[1..] == Set(hs[1..], name, value);
    }
  }

  lemma AppAfterSet(hs: seq<Header>, name: string, value: string)
    requires IsPlatformName(name)
    ensures App(Set(hs, name, value)) == App(hs)
  {
    OthersAfterSet(hs, name, value, IsApp);
  }

  lemma {:induction false} AppAfterInject(hs: seq<Header>, inj: seq<Header>)
    requires IsInjection(inj)
    ensures App(Inject(hs, inj)) == App(hs)
    decreases |inj|
  {
    if inj != [] {
      AppAfterSet(hs, inj[0].key, inj[0].value);
      AppAfterInject(Set(hs, inj[0].key, inj[0].value), inj[1..]);
    }
  }

  lemma {:induction false} GetAfterInject(hs: seq<Header>, inj: seq<Header>, name: string)
    requires IsInjection(inj) && IsPlatformName(name) && !IsTraceName(name)
    ensures Get(Inject(hs, inj), name) == Get(hs, name)
    decreases |inj|
  {
    if inj != [] {
      GetAfterOtherSet(hs, inj[0].key, inj[0].value, name);
      GetAfterInject(Set(hs, inj[0].key, inj[0].value), inj[1..], name);
    }
  }

  /** Dropping headers that do not fold to `name` keeps what is read under it. */
  lemma {:induction false} GetAfterFilter(hs: seq<Header>, keep: Header -> bool, name: string)
    requires forall h :: h in hs && EqualFold(h.key, name) ==> keep(h)
    ensures Get(Filter(hs, keep), name) == Get(hs, name)
  {
    if hs != [] {
      GetAfterFilter(hs[1..], keep, name);
    }
  }

  lemma {:induction false} GetNone(hs: seq<Header>, name: string)
    requires forall h :: h in hs ==> !EqualFold(h.key, name)
    ensures Get(hs, name) == ""
  {
    if hs != [] {
      GetNone(hs[1..], name);
    }
  }

  // ----- what a hop keeps -------------------------------------------------------------------

  lemma AppAfterSanitize(hs: seq<Header>)
    ensures App(Sanitize(hs)) == App(hs)
  {
    forall h | h in hs && IsApp(h) ensures Kept(h) {
      AppKeysSurvive(h.key, h.value);
    }
    FilterAbsorbs(hs, Kept, IsApp);
  }

  /** Publishing keeps the application's headers, in order, whatever UUID and trace are added. */
  lemma AppAfterPublish(hs: seq<Header>, uuid: string, inj: seq<Header>)
    requires IsInjection(inj)
    ensures App(Published(hs, uuid, inj)) == App(hs)
  {
    var k := Get(hs, IDEMPOTENCY_KEY);
    var fwd := Filter(hs, Forwarded);
    forall h | h in hs && IsApp(h) ensures Forwarded(h) {
      AppKeysSurvive(h.key, h.value);
    }
    FilterAbsorbs(hs, Forwarded, IsApp);
    AppAfterSet(fwd, IDEMPOTENCY_KEY, if k != "" then k else uuid);
    AppAfterInject(Set(fwd, IDEMPOTENCY_KEY, if k != "" then k else uuid), inj);
  }

  /** A non-empty identity survives publishing; an empty one is replaced by the UUID. */
  lemma KeyAfterPublish(hs: seq<Header>, uuid: string, inj: seq<Header>)
    requires IsInjection(inj)
    ensures Get(Published(hs, uuid, inj), IDEMPOTENCY_KEY)
         == if Get(hs, IDEMPOTENCY_KEY) != "" then Get(hs, IDEMPOTENCY_KEY) else uuid
  {
    var k := Get(hs, IDEMPOTENCY_KEY);
    var fwd := Filter(hs, Forwarded);
    GetAfterSet(fwd, IDEMPOTENCY_KEY, if k != "" then k else uuid);
    GetAfterInject(Set(fwd, IDEMPOTENCY_KEY, if k != "" then k else uuid), inj, IDEMPOTENCY_KEY);
  }

  lemma CountAfterPublish(hs: seq<Header>, uuid: string, inj: seq<Header>)
    requires IsInjection(inj)
    ensures Get(Published(hs, uuid, inj), RETRY_COUNT) == Get(hs, RETRY_COUNT)
  {
    var k := Get(hs, IDEMPOTENCY_KEY);
    var fwd := Filter(hs, Forwarded);
    GetAfterFilter(hs, Forwarded, RETRY_COUNT);
    GetAfterOtherSet(fwd, IDEMPOTENCY_KEY, if k != "" then k else uuid, RETRY_COUNT);
    GetAfterInject(Set(fwd, IDEMPOTENCY_KEY, if k != "" then k else uuid), inj, RETRY_COUNT);
  }

  lemma KeyAfterSanitize(hs: seq<Header>)
    ensures Get(Sanitize(hs), IDEMPOTENCY_KEY) == Get(hs, IDEMPOTENCY_KEY)
    ensures Get(Sanitize(hs), RETRY_COUNT) == ""
  {
    forall h | h in hs ensures EqualFold(h.key, IDEMPOTENCY_KEY) ==> Kept(h) {
      StrippedKeys(h.key);
    }
    GetAfterFilter(hs, Kept, IDEMPOTENCY_KEY);
    forall h | h in Sanitize(hs) ensures !EqualFold(h.key, RETRY_COUNT) {
      StrippedKeys(h.key);
    }
    GetNone(Sanitize(hs), RETRY_COUNT);
  }

  /** The ways a record moves on: to the retry topic, to the DLQ, and back to the main topic. */
  datatype Move = ToRetry | ToDlq(err: Option<Error>) | BackToMain

  /** The headers of the record built for a move, before it is published. */
  function Prepared(hs: seq<Header>, move: Move): seq<Header> {
    match move
    case ToRetry => RetryHeaders(hs)
    case ToDlq(err) => DlqHeaders(hs, err)
    case BackToMain => ReturnHeaders(hs)
  }

  function Moved(hs: seq<Header>, move: Move, uuid: string, inj: seq<Header>): seq<Header> {
    Published(Prepared(hs, move), uuid, inj)
  }

  /** Writing one more platform header over sanitized ones keeps identity and application headers. */
  lemma WriteOverSanitized(hs: seq<Header>, name: string, value: string)
    requires name == RETRY_COUNT || name == ERROR_REASON
    ensures App(Set(Sanitize(hs), name, value)) == App(hs)
    ensures Get(Set(Sanitize(hs), name, value), IDEMPOTENCY_KEY) == Get(hs, IDEMPOTENCY_KEY)
    ensures Get(Set(Sanitize(hs), name, value), name) == value
  {
    AppAfterSanitize(hs);
    KeyAfterSanitize(hs);
    AppAfterSet(Sanitize(hs), name, value);
    GetAfterOtherSet(Sanitize(hs), name, value, IDEMPOTENCY_KEY);
    GetAfterSet(Sanitize(hs), name, value);
  }

  lemma PreparedKeeps(hs: seq<Header>, move: Move)
    ensures App(Prepared(hs, move)) == App(hs)
    ensures Get(Prepared(hs, move), IDEMPOTENCY_KEY) == Get(hs, IDEMPOTENCY_KEY)
    ensures move == ToRetry ==> Get(Prepared(hs, move), RETRY_COUNT) == Itoa(1)
    ensures move.ToDlq? ==> Get(Prepared(hs, move), ERROR_REASON) == ErrorReason(move.err)
    ensures move == BackToMain ==> Get(Prepared(hs, move), RETRY_COUNT) == Get(hs, RETRY_COUNT)
  {
    match move
    case ToRetry =>
      KeyAfterSanitize(hs);
      assert CountOf(Sanitize(hs)) == 0;
      WriteOverSanitized(hs, RETRY_COUNT, Itoa(Wrap64(1)));
    case ToDlq(err) =>
      WriteOverSanitized(hs, ERROR_REASON, ErrorReason(err));
    case BackToMain =>
      WriteOverSanitized(hs, RETRY_COUNT, Get(hs, RETRY_COUNT));
  }

  /**
   One hop of any kind, for any header list: the application's headers stay, in order, a
   non-empty identity stays, and the counter becomes 1 on the way to retry whatever it was,
   keeps its reading on the way back.
   */
  lemma HopKeeps(hs: seq<Header>, move: Move, uuid: string, inj: seq<Header>)
    requires IsInjection(inj)
    ensures App(Moved(hs, move, uuid, inj)) == App(hs)
    ensures Get(hs, "x-idempotency-key") != "" ==>
              Get(Moved(hs, move, uuid, inj), "x-idempotency-key") == Get(hs, "x-idempotency-key")
    ensures Get(hs, "x-idempotency-key") == "" ==> Get(Moved(hs, move, uuid, inj), "x-idempotency-key") == uuid
    ensures move == ToRetry ==> Get(Moved(hs, move, uuid, inj), "x-retry-count") == "1"
    ensures move == BackToMain ==> Get(Moved(hs, move, uuid, inj), "x-retry-count") == Get(hs, "x-retry-count")
    ensures move.ToDlq? ==> Get(Moved(hs, move, uuid, inj), "x-error-reason") == ErrorReason(move.err)
    ensures move == ToRetry ==> CountOf(Moved(hs, move, uuid, inj)) == 1
    ensures move == BackToMain ==> CountOf(Moved(hs, move, uuid, inj)) == CountOf(hs)
  {
    var ready := Prepared(hs, move);
    PreparedKeeps(hs, move);
    AppAfterPublish(ready, uuid, inj);
    KeyAfterPublish(ready, uuid, inj);
    CountAfterPublish(ready, uuid, inj);
    ReasonAfterPublish(ready, uuid, inj);
    ParsePrinted(1);
    PrintedOne();
  }

  /** A printed counter is the count. */
  lemma CountReads(hs: seq<Header>, n: nat)
    requires Get(hs, "x-retry-count") == Itoa(n) && n <= 0x7fff_ffff_ffff_ffff
    ensures CountOf(hs) == n
  {
    ParsePrinted(n);
  }

  lemma PrintedOne()
    ensures Itoa(1) == "1"
  {
    assert Digit(1) == '1';
  }

  lemma ReasonAfterPublish(hs: seq<Header>, uuid: string, inj: seq<Header>)
    requires IsInjection(inj)
    ensures Get(Published(hs, uuid, inj), ERROR_REASON) == Get(hs, ERROR_REASON)
  {
    var k := Get(hs, IDEMPOTENCY_KEY);
    var fwd := Filter(hs, Forwarded);
    GetAfterFilter(hs, Forwarded, ERROR_REASON);
    GetAfterOtherSet(fwd, IDEMPOTENCY_KEY, if k != "" then k else uuid, ERROR_REASON);
    GetAfterInject(Set(fwd, IDEMPOTENCY_KEY, if k != "" then k else uuid), inj, ERROR_REASON);
  }

  /** Keys of other lengths than the six names have. */
  predicate OtherLength(h: Header) { |h.key| !in {7, 10, 11, 13, 14, 17} }

  /** So whatever the platform does with names, headers with keys of other lengths stay, in order. */
  lemma OtherLengthsStay(hs: seq<Header>, move: Move, uuid: string, inj: seq<Header>)
    requires IsInjection(inj)
    ensures Filter(Moved(hs, move, uuid, inj), OtherLength) == Filter(hs, OtherLength)
  {
    HopKeeps(hs, move, uuid, inj);
    FilterAbsorbs(hs, IsApp, OtherLength);
    FilterAbsorbs(Moved(hs, move, uuid, inj), IsApp, OtherLength);
  }

  predicate IsExactTrace(key: string) { key == "traceparent" || key == "tracestate" }

  /** A trace header that was sent is a new one: the source's are never passed on under the exact names. */
  lemma TraceIsNew(hs: seq<Header>, move: Move, uuid: string, inj: seq<Header>, h: Header)
    requires IsInjection(inj) && h in Moved(hs, move, uuid, inj) && IsExactTrace(h.key)
    ensures h in inj
  {
    var ready := Prepared(hs, move);
    var k := if Get(ready, IDEMPOTENCY_KEY) != "" then Get(ready, IDEMPOTENCY_KEY) else uuid;
    var fwd := Filter(ready, Forwarded);
    InjectAdds(Set(fwd, IDEMPOTENCY_KEY, k), inj, h);
    assert h !in fwd && h.key != IDEMPOTENCY_KEY;
    if h !in inj {
      SetAdds(fwd, IDEMPOTENCY_KEY, k, h);
    }
  }

  lemma {:induction false} SetAdds(hs: seq<Header>, key: string, value: string, h: Header)
    requires IsPlatformName(key) && h in Set(hs, key, value) && IsExactTrace(h.key)
    ensures h in hs || h == Header(key, value)
  {
    if hs != [] {
      if EqualFold(hs[0].key, key) {
        if h == Header(hs[0].key, value) {
          assert EqualFold(h.key, h.key);
          OneNamePerKey(h.key, h.key, key);
        }
      } else if h != hs[0] {
        SetAdds(hs[1..], key, value, h);
      }
    }
  }

  lemma {:induction false} InjectAdds(hs: seq<Header>, inj: seq<Header>, h: Header)
    requires IsInjection(inj) && h in Inject(hs, inj) && IsExactTrace(h.key)
    ensures h in hs || h in inj
    decreases |inj|
  {
    if inj != [] {
      InjectAdds(Set(hs, inj[0].key, inj[0].value), inj[1..], h);
      if h !in inj[1..] {
        SetAdds(hs, inj[0].key, inj[0].value, h);
      }
    }
  }

  /** One hop's inputs. */
  datatype Hop = Hop(move: Move, uuid: string, inj: seq<Header>)

  function AfterHops(hs: seq<Header>, hops: seq<Hop>): seq<Header>
    decreases |hops|
  {
    if hops == [] then hs
    else AfterHops(Moved(hs, hops[0].move, hops[0].uuid, hops[0].inj), hops[1..])
  }

  /** Any number of hops keeps the application's headers and a non-empty identity. */
  lemma {:induction false} HopsKeep(hs: seq<Header>, hops: seq<Hop>)
    requires forall h :: h in hops ==> IsInjection(h.inj)
    ensures App(AfterHops(hs, hops)) == App(hs)
    ensures Get(hs, IDEMPOTENCY_KEY) != "" ==> Get(AfterHops(hs, hops), IDEMPOTENCY_KEY) == Get(hs, IDEMPOTENCY_KEY)
    decreases |hops|
  {
    if hops != [] {
      HopKeeps(hs, hops[0].move, hops[0].uuid, hops[0].inj);
      HopsKeep(Moved(hs, hops[0].move, hops[0].uuid, hops[0].inj), hops[1..]);
    }
  }

  // ----- baggage ---------------------------------------------------------------------------------

  /** The spellings of the baggage header, which the propagator reads and may write. */
  predicate IsBaggage(h: Header) { EqualFold(h.key, BAGGAGE) }

  /** What an injection makes of a baggage that read `v` before. */
  function LastBaggage(inj: seq<Header>, v: string): string {
    if inj == [] then v
    else LastBaggage(inj[1..], if inj[0].key == BAGGAGE then inj[0].value else v)
  }

  lemma OneFoldsToBaggage(name: string)
    requires IsPlatformName(name) && name != BAGGAGE
    ensures forall h: Header :: EqualFold(h.key, name) ==> !IsBaggage(h)
  {
  }

  lemma {:induction false} BaggageAfterInject(hs: seq<Header>, inj: seq<Header>)
    requires IsInjection(inj)
    ensures Get(Inject(hs, inj), BAGGAGE) == LastBaggage(inj, Get(hs, BAGGAGE))
    ensures (forall h :: h in inj ==> h.key != BAGGAGE) ==> Filter(Inject(hs, inj), IsBaggage) == Filter(hs, IsBaggage)
    decreases |inj|
  {
    if inj != [] {
      var name, value := inj[0].key, inj[0].value;
      if name == BAGGAGE {
        GetAfterSet(hs, BAGGAGE, value);
      } else {
        OneFoldsToBaggage(name);
        assert !EqualFold(name, BAGGAGE);
        GetAfterOtherSet(hs, name, value, BAGGAGE);
        OthersAfterSet(hs, name, value, IsBaggage);
      }
      BaggageAfterInject(Set(hs, name, value), inj[1..]);
    }
  }

  /** Writing a platform header over a filtered list keeps the baggage. */
  lemma BaggageAfterWrite(hs: seq<Header>, keep: Header -> bool, name: string, value: string)
    requires IsPlatformName(name) && name != BAGGAGE && forall h :: h in hs && IsBaggage(h) ==> keep(h)
    ensures Filter(Set(Filter(hs, keep), name, value), IsBaggage) == Filter(hs, IsBaggage)
    ensures Get(Set(Filter(hs, keep), name, value), BAGGAGE) == Get(hs, BAGGAGE)
  {
    OneFoldsToBaggage(name);
    assert !EqualFold(name, BAGGAGE);
    OthersAfterSet(Filter(hs, keep), name, value, IsBaggage);
    FilterAbsorbs(hs, keep, IsBaggage);
    GetAfterOtherSet(Filter(hs, keep), name, value, BAGGAGE);
    GetAfterFilter(hs, keep, BAGGAGE);
  }

  lemma BaggageAfterPrepare(hs: seq<Header>, move: Move)
    ensures Filter(Prepared(hs, move), IsBaggage) == Filter(hs, IsBaggage)
    ensures Get(Prepared(hs, move), BAGGAGE) == Get(hs, BAGGAGE)
  {
    forall h | h in hs && IsBaggage(h) ensures Kept(h) {
      StrippedKeys(h.key);
      assert |ToLower(h.key)| == 7;
    }
    match move
    case ToRetry => BaggageAfterWrite(hs, Kept, RETRY_COUNT, Itoa(Wrap64(CountOf(Sanitize(hs)) + 1)));
    case ToDlq(err) => BaggageAfterWrite(hs, Kept, ERROR_REASON, ErrorReason(err));
    case BackToMain => BaggageAfterWrite(hs, Kept, RETRY_COUNT, Get(hs, RETRY_COUNT));
  }

  /**
   The baggage over a hop, which is not the application's: what is read is the last value injected,
   or what was read before when none is. Without an injected one all its spellings stay, in order.
   */
  lemma BaggageAfterHop(hs: seq<Header>, move: Move, uuid: string, inj: seq<Header>)
    requires IsInjection(inj)
    ensures Get(Moved(hs, move, uuid, inj), BAGGAGE) == LastBaggage(inj, Get(hs, BAGGAGE))
    ensures (forall h :: h in inj ==> h.key != BAGGAGE) ==>
              Filter(Moved(hs, move, uuid, inj), IsBaggage) == Filter(hs, IsBaggage)
  {
    var ready := Prepared(hs, move);
    var k := Get(ready, IDEMPOTENCY_KEY);
    var x := Set(Filter(ready, Forwarded), IDEMPOTENCY_KEY, if k != "" then k else uuid);
    BaggageAfterPrepare(hs, move);
    BaggageAfterWrite(ready, Forwarded, IDEMPOTENCY_KEY, if k != "" then k else uuid);
    BaggageAfterInject(x, inj);
  }
}
