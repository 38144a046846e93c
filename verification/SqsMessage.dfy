/** The in-place attribute operations of the SQS package. */
module SqsMessage {
  import opened Base
  import opened GoStrings
  import opened Headers
  import A = SqsAttributes

  class AttrMap {
    var m: A.Attrs

    constructor (m: A.Attrs)
      ensures this.m == m
    {
      this.m := m;
    }

    method SetStringAttribute(key: string, value: string)
      modifies this
      ensures m == old(m)[key := A.StringAttr(value)]
    {
      m := m[key := A.Attr("String", Some(value))];
    }

    method SetIdempotencyKey(key: string) returns (k: string)
      modifies this
      ensures k != "" && (key != "" ==> k == key)
      ensures m == old(m)[IDEMPOTENCY_KEY := A.StringAttr(k)]
    {
      k := key;
      if k == "" {
        assert "u" != "";
        k :| k != "";
      }
      SetStringAttribute(IDEMPOTENCY_KEY, k);
    }

    /** IncRetryCount: reads a counter, adds one and writes it back. */
    method IncRetryCount() returns (n: int)
      modifies this
      ensures exists v :: A.IsRead(old(m), RETRY_COUNT, v) && n == Wrap64(ParseCount(v) + 1)
      ensures m == old(m)[RETRY_COUNT := A.StringAttr(Itoa(n))]
    {
      var v := GetStringAttribute(m, RETRY_COUNT);
      n := 0;
      if v != "" {
        match Atoi(v) {
          case Some(parsed) => if parsed >= 0 { n := parsed; }
          case None =>
        }
      }
      assert n == ParseCount(v);
      n := Wrap64(n + 1);
      SetStringAttribute(RETRY_COUNT, Itoa(n));
    }

    method SetErrorReason(err: Option<Error>)
      modifies this
      ensures m == old(m)[ERROR_REASON := A.StringAttr(ErrorReason(err))]
    {
      var reason := SanitizeError(err);
      SetStringAttribute(ERROR_REASON, reason);
    }

    /** InjectTraceHeaders: the propagator's writes over the attributes in place. */
    method InjectTraceHeaders(extra: map<string, string>) returns (inj: map<string, string>)
      modifies this
      ensures A.IsInjection(inj, extra) && m == old(m) + A.AsAttrs(inj)
    {
      assert A.IsInjection(map[], extra);
      inj :| A.IsInjection(inj, extra);
      m := m + A.AsAttrs(inj);
    }
  }

  /** Returns the value of whichever spelling the range meets first. */
  method GetStringAttribute(m: A.Attrs, key: string) returns (v: string)
    ensures A.IsRead(m, key, v)
    ensures (exists k :: k in m && EqualFold(k, key) && m[k].str == Some(v))
         || (v == "" && forall k :: k in m && EqualFold(k, key) ==> m[k].str == None)
  {
    var todo := m.Keys;
    while todo != {}
      invariant todo <= m.Keys
      invariant forall k :: k in m.Keys - todo ==> !A.Matches(m, k, key)
      decreases todo
    {
      var k :| k in todo;
      if EqualFold(k, key) && m[k].str.Some? {
        assert A.Matches(m, k, key);
        return m[k].str.value;
      }
      todo := todo - {k};
    }
    v := "";
    assert forall k :: k in m ==> k in m.Keys - todo;
  }

  method RetryCount(m: A.Attrs) returns (n: nat)
    ensures A.IsCount(m, n) && n <= MAX_INT64
  {
    var v := GetStringAttribute(m, RETRY_COUNT);
    assert v in A.ReadableValues(m, RETRY_COUNT);
    if v == "" {
      return 0;
    }
    match Atoi(v) {
      case Some(k) => n := if k < 0 then 0 else k;
      case None => n := 0;
    }
  }

  /** A fresh map with the surviving attributes. */
  method SanitizeForRepublish(m: A.Attrs) returns (dst: AttrMap)
    ensures fresh(dst) && dst.m == A.Sanitize(m)
  {
    dst := new AttrMap(map[]);
    var todo := m.Keys;
    while todo != {}
      invariant todo <= m.Keys
      invariant dst.m == map k | k in m.Keys - todo && A.Kept(k, m[k]) :: m[k]
      decreases todo
    {
      var k :| k in todo;
      ghost var was := todo;
      todo := todo - {k};
      assert m.Keys - todo == m.Keys - was + {k};
      var lk := ToLower(k);
      if lk == RETRY_COUNT || lk == ERROR_REASON {
        continue;
      }
      if lk == TRACE_PARENT && (m[k].str.None? || !ValidTraceparent(m[k].str.value)) {
        continue;
      }
      dst.m := dst.m[k := m[k]];
    }
  }
}
