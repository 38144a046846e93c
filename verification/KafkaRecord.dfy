/** The record under construction and the in-place header operations of the Kafka package. */
module KafkaRecord {
  import opened Base
  import opened GoStrings
  import opened Headers
  import H = KafkaHeaders

  /** What Set does to the rest of the list depends on the header at `i` only. */
  lemma SetSplits(hs: seq<H.Header>, i: nat, key: string, value: string)
    requires i < |hs|
    ensures hs[..i] + H.Set(hs[i..], key, value)
         == if EqualFold(hs[i].key, key) then hs[i := H.Header(hs[i].key, value)]
            else hs[..i + 1] + H.Set(hs[i + 1..], key, value)
  {
    assert hs[i..][1..] == hs[i + 1..];
  }

  class Record {
    var topic: string
    var key: string
    var value: string
    var headers: seq<H.Header>

    constructor (topic: string, key: string, value: string, headers: seq<H.Header>)
      ensures this.topic == topic && this.key == key && this.value == value && this.headers == headers
    {
      this.topic, this.key, this.value, this.headers := topic, key, value, headers;
    }

    /** What the broker stores. */
    function Stored(): H.Rec
      reads this
    {
      H.Rec(key, value, headers)
    }

    /** Overwrites the first header that case-folds to `key`, or appends one. */
    method Set(key: string, value: string)
      modifies this`headers
      ensures headers == H.Set(old(headers), key, value)
    {
      for i := 0 to |headers|
        invariant headers == old(headers)
        invariant H.Set(headers, key, value) == headers[..i] + H.Set(headers[i..], key, value)
      {
        SetSplits(headers, i, key, value);
        if EqualFold(headers[i].key, key) {
          headers := headers[i := H.Header(headers[i].key, value)];
          return;
        }
      }
      assert headers[|headers|..] == [];
      headers := headers + [H.Header(key, value)];
    }

    /** SetIdempotencyKey: generates a UUID for the empty key. */
    method SetIdempotencyKey(key: string) returns (k: string)
      modifies this`headers
      ensures k != "" && (key != "" ==> k == key)
      ensures headers == H.Set(old(headers), IDEMPOTENCY_KEY, k)
    {
      k := key;
      if k == "" {
        k := NewUUID();
      }
      Set(IDEMPOTENCY_KEY, k);
    }

    /** IncRetryCount: reads, adds one and writes back. */
    method IncRetryCount() returns (n: int)
      modifies this`headers
      ensures headers == H.Bump(old(headers)) && n == Wrap64(H.CountOf(old(headers)) + 1)
    {
      var count := RetryCount(headers);
      n := Wrap64(count + 1);
      Set(RETRY_COUNT, Itoa(n));
    }

    method SetErrorReason(err: Option<Error>)
      modifies this`headers
      ensures headers == H.Set(old(headers), ERROR_REASON, ErrorReason(err))
    {
      var reason := SanitizeError(err);
      Set(ERROR_REASON, reason);
    }

    /** InjectTraceHeaders: the propagator's writes, in its order. */
    method InjectTraceHeaders() returns (inj: seq<H.Header>)
      modifies this`headers
      ensures H.IsInjection(inj) && headers == H.Inject(old(headers), inj)
    {
      inj :| H.IsInjection(inj);
      ghost var start := headers;
      for i := 0 to |inj|
        invariant H.Inject(headers, inj[i..]) == H.Inject(start, inj)
      {
        assert inj[i..][1..] == inj[i + 1..];
        Set(inj[i].key, inj[i].value);
      }
      assert inj[|inj|..] == [];
    }
  }

  /** Some non-empty identifier. */
  method NewUUID() returns (uuid: string)
    ensures uuid != ""
  {
    assert "u" != "";
    uuid :| uuid != "";
  }

  /** recordCarrier.Get: the first header that case-folds to `key`. */
  method Get(headers: seq<H.Header>, key: string) returns (v: string)
    ensures v == H.Get(headers, key)
  {
    for i := 0 to |headers|
      invariant H.Get(headers, key) == H.Get(headers[i..], key)
    {
      if EqualFold(headers[i].key, key) {
        return headers[i].value;
      }
      assert headers[i..][1..] == headers[i + 1..];
    }
    assert headers[|headers|..] == [];
    v := "";
  }

  method RetryCount(headers: seq<H.Header>) returns (n: nat)
    ensures n == H.CountOf(headers)
  {
    var v := Get(headers, RETRY_COUNT);
    if v == "" {
      return 0;
    }
    match Atoi(v) {
      case Some(k) => n := if k < 0 then 0 else k;
      case None => n := 0;
    }
  }

  /** A fresh record with the surviving headers, in order, and copies of key and value. */
  method SanitizeForRepublish(src: H.Rec, topic: string) returns (dst: Record)
    ensures fresh(dst)
    ensures dst.topic == topic && dst.Stored() == src.(headers := H.Sanitize(src.headers))
  {
    dst := new Record(topic, src.key, src.value, []);
    for i := 0 to |src.headers|
      invariant dst.topic == topic && dst.key == src.key && dst.value == src.value
      invariant dst.headers == Filter(src.headers[..i], H.Kept)
    {
      FilterSnoc(src.headers, i, H.Kept);
      var h := src.headers[i];
      var k := ToLower(h.key);
      if k == RETRY_COUNT || k == ERROR_REASON {
        continue;
      }
      if k == TRACE_PARENT && !ValidTraceparent(h.value) {
        continue;
      }
      dst.headers := dst.headers + [h];
    }
    assert src.headers[..|src.headers|] == src.headers;
  }
}
