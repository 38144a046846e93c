/**
 What the Kafka and the SQS packages share about headers: the platform's names, the retry
 counter, the error reason and the grammar of a traceparent value.
 */
module Headers {
  import opened Base
  import opened GoStrings

  const TRACE_PARENT := "traceparent"
  const TRACE_STATE := "tracestate"
  const IDEMPOTENCY_KEY := "x-idempotency-key"
  const RETRY_COUNT := "x-retry-count"
  const ERROR_REASON := "x-error-reason"
  // Written by the process-wide propagator next to the two trace names.
  const BAGGAGE := "baggage"

  const MAX_ERROR_REASON_LEN := 256

  /** The names the propagator may write. */
  predicate IsTraceName(name: string) {
    name == TRACE_PARENT || name == TRACE_STATE || name == BAGGAGE
  }

  predicate IsPlatformName(name: string) {
    name == IDEMPOTENCY_KEY || name == RETRY_COUNT || name == ERROR_REASON || IsTraceName(name)
  }

  /** Headers that belong to the application: no platform name case-folds to their key. */
  predicate IsAppKey(key: string) {
    && !EqualFold(key, IDEMPOTENCY_KEY) && !EqualFold(key, RETRY_COUNT) && !EqualFold(key, ERROR_REASON)
    && !EqualFold(key, TRACE_PARENT) && !EqualFold(key, TRACE_STATE) && !EqualFold(key, BAGGAGE)
  }

  /** A key folds to at most one platform name: their lengths differ. */
  lemma OneNamePerKey(key: string, a: string, b: string)
    requires IsPlatformName(a) && IsPlatformName(b) && EqualFold(key, a) && EqualFold(key, b)
    ensures a == b
  {
  }

  /** The keys that sanitizing removes whatever their value. */
  predicate IsStrippedKey(key: string) {
    ToLower(key) == RETRY_COUNT || ToLower(key) == ERROR_REASON
  }

  lemma StrippedKeys(key: string)
    ensures ToLower(key) == RETRY_COUNT <==> EqualFold(key, RETRY_COUNT)
    ensures ToLower(key) == TRACE_PARENT <==> EqualFold(key, TRACE_PARENT)
    ensures ToLower(key) == ERROR_REASON ==> EqualFold(key, ERROR_REASON)
  {
    LowerIsFold(key, RETRY_COUNT);
    LowerIsFold(key, TRACE_PARENT);
    if ToLower(key) == ERROR_REASON {
      forall i | 0 <= i < |key| ensures FoldChar(key[i]) == FoldChar(ERROR_REASON[i]) {
        assert ERROR_REASON[i] != 'i' && ('a' <= ERROR_REASON[i] <= 'z' || ERROR_REASON[i] == '-');
        assert ToLower(key)[i] == ERROR_REASON[i];
      }
    }
  }

  /** RetryCount's reading of a header value: 0 for anything but a non-negative int64. */
  function ParseCount(v: string): (n: nat)
    ensures n <= MAX_INT64
  {
    match Atoi(v)
    case Some(n) => if n < 0 then 0 else n
    case None => 0
  }

  /** A count is a number that reads as one and is not negative. */
  lemma CountIff(v: string)
    ensures ParseCount(v) > 0 <==> Atoi(v).Some? && Atoi(v).value > 0
    ensures ParseCount(v) > 0 ==> Some(ParseCount(v) as int) == Atoi(v)
  {
  }

  lemma ParsePrinted(n: nat)
    requires n <= MAX_INT64
    ensures ParseCount(Itoa(n)) == n
  {
    AtoiOfItoa(n);
  }

  // ----- error reasons ------------------------------------------------------------------

  /** An application error, as far as errors.Is and Error() can tell. */
  datatype Error = Error(canceled: bool, nonRetryable: bool, text: string)

  predicate Printable(c: char) { ' ' <= c <= '\U{7F}' }

  function CleanText(text: string): (r: string)
    ensures |r| == |text| && forall i :: 0 <= i < |r| ==> r[i] == if Printable(text[i]) then text[i] else '?'
  {
    seq(|text|, i requires 0 <= i < |text| => if Printable(text[i]) then text[i] else '?')
  }

  function ErrorReason(err: Option<Error>): string {
    match err
    case None => "unknown"
    case Some(e) => Cut(CleanText(e.text), MAX_ERROR_REASON_LEN)
  }

  /** Printing into the builder character by character, then cutting. */
  method SanitizeError(err: Option<Error>) returns (reason: string)
    ensures reason == ErrorReason(err)
    ensures |reason| <= MAX_ERROR_REASON_LEN && forall c :: c in reason ==> Printable(c)
  {
    if err.None? {
      return "unknown";
    }
    var msg := err.value.text;
    reason := "";
    for i := 0 to |msg|
      invariant reason == CleanText(msg)[..i]
    {
      reason := reason + [if msg[i] > '\U{7F}' || msg[i] < ' ' then '?' else msg[i]];
    }
    if |reason| > MAX_ERROR_REASON_LEN {
      reason := reason[..MAX_ERROR_REASON_LEN];
    }
  }

  /** The first 256 characters, those outside printable ASCII and DEL replaced. */
  lemma ReasonExact(e: Error)
    ensures ErrorReason(None) == "unknown"
    ensures |ErrorReason(Some(e))| == Min(|e.text|, 256)
    ensures forall i :: 0 <= i < |ErrorReason(Some(e))| ==>
              ErrorReason(Some(e))[i] == if 32 <= e.text[i] as int <= 127 then e.text[i] else '?'
  {
  }

  /** A sanitized reason is its own sanitized form. */
  lemma ErrorReasonIdempotent(err: Option<Error>, canceled: bool, nonRetryable: bool)
    ensures ErrorReason(Some(Error(canceled, nonRetryable, ErrorReason(err)))) == ErrorReason(err)
  {
    var r := ErrorReason(err);
    assert forall i :: 0 <= i < |r| ==> Printable(r[i]);
    assert CleanText(r) == r;
  }

  // ----- traceparent, section 3.2 of W3C Trace Context --------------------------------------

  predicate HexDigit(c: char) { '0' <= c <= '9' || 'a' <= c <= 'f' }

  predicate ValidTraceparent(v: string) {
    && |v| == 55
    && forall i :: 0 <= i < |v| ==>
         if i == 2 || i == 35 || i == 52 then v[i] == '-' else HexDigit(v[i])
  }

  predicate IsHex(s: string) { forall c :: c in s ==> 48 <= c as int <= 57 || 97 <= c as int <= 102 }

  predicate IsTraceparent(v: string, version: string, trace: string, parent: string, flags: string) {
    && |version| == 2 && |trace| == 32 && |parent| == 16 && |flags| == 2
    && IsHex(version) && IsHex(trace) && IsHex(parent) && IsHex(flags)
    && v == version + "-" + trace + "-" + parent + "-" + flags
  }

  /** The grammar: four fields in lower-case hexadecimal. */
  lemma TraceparentIff(v: string)
    ensures ValidTraceparent(v) <==>
            exists version, trace, parent, flags :: IsTraceparent(v, version, trace, parent, flags)
  {
    if ValidTraceparent(v) {
      FieldsOf(v);
      assert IsTraceparent(v, v[..2], v[3..35], v[36..52], v[53..]);
    }
    if version, trace, parent, flags :| IsTraceparent(v, version, trace, parent, flags) {
      FieldsAt(v, version, trace, parent, flags);
    }
  }

  lemma FieldsOf(v: string)
    requires ValidTraceparent(v)
    ensures IsTraceparent(v, v[..2], v[3..35], v[36..52], v[53..])
  {
    HexPart(v, 0, 2);
    HexPart(v, 3, 35);
    HexPart(v, 36, 52);
    HexPart(v, 53, 55);
    assert v[0..2] == v[..2] && v[53..55] == v[53..];
    assert v[2..3] == "-" && v[35..36] == "-" && v[52..53] == "-";
    assert v == v[..2] + v[2..3] + v[3..35] + v[35..36] + v[36..52] + v[52..53] + v[53..];
  }

  lemma HexPart(v: string, i: nat, j: nat)
    requires i <= j <= |v| && forall k :: i <= k < j ==> HexDigit(v[k])
    ensures IsHex(v[i..j])
  {
  }

  lemma FieldsAt(v: string, version: string, trace: string, parent: string, flags: string)
    requires IsTraceparent(v, version, trace, parent, flags)
    ensures ValidTraceparent(v)
  {
    assert |v| == 55 && v[2] == '-' && v[35] == '-' && v[52] == '-';
    forall i | 0 <= i < 55 && i != 2 && i != 35 && i != 52 ensures HexDigit(v[i]) {
      assert v[i] in version || v[i] in trace || v[i] in parent || v[i] in flags;
    }
  }

  /** Whether sanitizing keeps a header: not a counter or reason, and no malformed traceparent. */
  predicate Survives(key: string, value: string) {
    && !IsStrippedKey(key)
    && (ToLower(key) == TRACE_PARENT ==> ValidTraceparent(value))
  }

  /** The names that a republish does not forward as they are: it or the producer writes them. */
  predicate IsReinjected(key: string) {
    key == IDEMPOTENCY_KEY || key == TRACE_PARENT || key == TRACE_STATE
  }

  const SIX_NAMES := ["x-idempotency-key", "x-retry-count", "x-error-reason", "traceparent", "tracestate", "baggage"]

  /** The application's keys fold to none of the six names. */
  lemma AppKeyIff(key: string)
    ensures IsAppKey(key) <==> forall name :: name in SIX_NAMES ==> !EqualFold(key, name)
  {
    assert SIX_NAMES[0] == IDEMPOTENCY_KEY && SIX_NAMES[1] == RETRY_COUNT && SIX_NAMES[2] == ERROR_REASON;
    assert SIX_NAMES[3] == TRACE_PARENT && SIX_NAMES[4] == TRACE_STATE && SIX_NAMES[5] == BAGGAGE;
    assert IDEMPOTENCY_KEY in SIX_NAMES && RETRY_COUNT in SIX_NAMES && ERROR_REASON in SIX_NAMES;
    assert TRACE_PARENT in SIX_NAMES && TRACE_STATE in SIX_NAMES && BAGGAGE in SIX_NAMES;
  }

  /** Sanitizing drops the counter, the reason and malformed traceparents, in any case of their letters. */
  lemma SurvivesIff(key: string, value: string)
    ensures Survives(key, value) <==>
            && ToLower(key) != "x-retry-count" && ToLower(key) != "x-error-reason"
            && (ToLower(key) == "traceparent" ==>
                  exists version, trace, parent, flags :: IsTraceparent(value, version, trace, parent, flags))
  {
    TraceparentIff(value);
  }

  lemma AppKeysSurvive(key: string, value: string)
    requires IsAppKey(key)
    ensures Survives(key, value) && !IsReinjected(key)
  {
    StrippedKeys(key);
  }
}
