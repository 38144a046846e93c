/**
 Where lower-casing is not case folding. Sanitizing compares lower-cased keys, writing a header
 compares folded ones, and the long s folds to 's' without lower-casing to it. So a header spelled
 with one passes sanitizing and may be overwritten by a platform header.
 */
module KafkaSpellings {
  import opened Base
  import opened GoStrings
  import opened Headers
  import opened KafkaHeaders

  /** The reading under which a header is the platform's when its lower-cased key is. */
  predicate IsAppByLower(h: Header) { !IsPlatformName(ToLower(h.key)) }

  /** Keys that fold to the error-reason name without lower-casing to it: a long s is in them. */
  predicate LongSReason(h: Header) {
    EqualFold(h.key, ERROR_REASON) && ToLower(h.key) != ERROR_REASON
  }

  /** The first header that folds to the name, if any, lower-cases to it. */
  predicate FirstPlain(hs: seq<Header>, name: string) {
    if hs == [] then true
    else if EqualFold(hs[0].key, name) then ToLower(hs[0].key) == name
    else FirstPlain(hs[1..], name)
  }

  /** The same for tracestate among the headers that are forwarded, so not spelled exactly so. */
  predicate StatePlain(hs: seq<Header>) {
    if hs == [] then true
    else if EqualFold(hs[0].key, TRACE_STATE) && hs[0].key != TRACE_STATE then ToLower(hs[0].key) == TRACE_STATE
    else StatePlain(hs[1..])
  }

  // ----- names and spellings -------------------------------------------------------------------

  lemma NamesAreLower(name: string)
    requires IsPlatformName(name)
    ensures ToLower(name) == name
  {
    assert forall i :: 0 <= i < |name| ==> 'a' <= name[i] <= 'z' || name[i] == '-';
    assert forall i :: 0 <= i < |name| ==> ToLower(name)[i] == name[i];
  }

  lemma NoOtherSpelling(key: string, name: string)
    requires IsPlatformName(name) && name != ERROR_REASON && name != TRACE_STATE && EqualFold(key, name)
    ensures ToLower(key) == name
  {
    assert forall i :: 0 <= i < |name| ==> ('a' <= name[i] <= 'z' || name[i] == '-') && name[i] != 's';
    FoldIsLower(key, name);
  }

  /** A spelling of a name that does not lower-case to it is an application key under this reading. */
  lemma SpellingIsApp(key: string, name: string)
    requires IsPlatformName(name) && EqualFold(key, name) && ToLower(key) != name
    ensures !IsPlatformName(ToLower(key))
  {
    assert |ToLower(key)| == |name|;
  }

  lemma {:induction false} OnlyTwoNames(hs: seq<Header>, name: string)
    requires IsPlatformName(name) && name != ERROR_REASON && name != TRACE_STATE
    ensures FirstPlain(hs, name)
  {
    if hs != [] {
      if EqualFold(hs[0].key, name) {
        NoOtherSpelling(hs[0].key, name);
      } else {
        OnlyTwoNames(hs[1..], name);
      }
    }
  }

  // ----- writing -------------------------------------------------------------------------------

  lemma {:induction false} SetKeepsByLower(hs: seq<Header>, name: string, value: string)
    requires IsPlatformName(name) && FirstPlain(hs, name)
    ensures Filter(Set(hs, name, value), IsAppByLower) == Filter(hs, IsAppByLower)
  {
    if hs == [] {
      NamesAreLower(name);
    } else if EqualFold(hs[0].key, name) {
      assert Set(hs, name, value)[1..] == hs[1..];
    } else {
      SetKeepsByLower(hs[1..], name, value);
      assert Set(hs, name, value)[1..] == Set(hs[1..], name, value);
    }
  }

  /** Writing over a first header that is an application's changes the application's headers. */
  lemma {:induction false} SetOverwrites(hs: seq<Header>, name: string, value: string)
    requires IsPlatformName(name) && !FirstPlain(hs, name) && value != Get(hs, name)
    ensures Filter(Set(hs, name, value), IsAppByLower) != Filter(hs, IsAppByLower)
  {
    if EqualFold(hs[0].key, name) {
      SpellingIsApp(hs[0].key, name);
      assert Filter(Set(hs, name, value), IsAppByLower)[0].value == value;
      assert Filter(hs, IsAppByLower)[0] == hs[0];
    } else {
      SetOverwrites(hs[1..], name, value);
      assert Set(hs, name, value)[1..] == Set(hs[1..], name, value);
      if IsAppByLower(hs[0]) {
        assert Filter(Set(hs, name, value), IsAppByLower)[1..] == Filter(Set(hs[1..], name, value), IsAppByLower);
        assert Filter(hs, IsAppByLower)[1..] == Filter(hs[1..], IsAppByLower);
      }
    }
  }

  lemma {:induction false} FirstPlainAfterSet(hs: seq<Header>, name: string, value: string, other: string)
    requires IsPlatformName(name) && IsPlatformName(other)
    ensures FirstPlain(hs, other) ==> FirstPlain(Set(hs, name, value), other)
    ensures name != other ==> FirstPlain(Set(hs, name, value), other) == FirstPlain(hs, other)
  {
    NamesAreLower(name);
    if hs == [] {
      if EqualFold(name, other) {
        OneNamePerKey(name, name, other);
      }
    } else if EqualFold(hs[0].key, name) {
      assert Set(hs, name, value)[1..] == hs[1..];
    } else {
      FirstPlainAfterSet(hs[1..], name, value, other);
      assert Set(hs, name, value)[1..] == Set(hs[1..], name, value);
    }
  }

  lemma {:induction false} StatePlainAfterSet(hs: seq<Header>, name: string, value: string)
    requires name == RETRY_COUNT || name == ERROR_REASON
    ensures StatePlain(Set(hs, name, value)) == StatePlain(hs)
  {
    if hs == [] {
      assert Set(hs, name, value)[1..] == [];
    } else if EqualFold(hs[0].key, name) {
      assert Set(hs, name, value)[1..] == hs[1..];
    } else {
      StatePlainAfterSet(hs[1..], name, value);
      assert Set(hs, name, value)[1..] == Set(hs[1..], name, value);
    }
  }

  lemma {:induction false} StatePlainAfterSanitize(hs: seq<Header>)
    ensures StatePlain(Sanitize(hs)) == StatePlain(hs)
  {
    if hs != [] {
      StatePlainAfterSanitize(hs[1..]);
      if Kept(hs[0]) {
        assert Sanitize(hs)[1..] == Sanitize(hs[1..]);
      } else {
        StrippedKeys(hs[0].key);
        assert |hs[0].key| != |TRACE_STATE|;
      }
    }
  }

  lemma {:induction false} StatePlainIsFirst(hs: seq<Header>)
    ensures StatePlain(hs) == FirstPlain(Filter(hs, Forwarded), TRACE_STATE)
  {
    if hs != [] {
      StatePlainIsFirst(hs[1..]);
      if Forwarded(hs[0]) {
        assert Filter(hs, Forwarded)[1..] == Filter(hs[1..], Forwarded);
      }
    }
  }

  // ----- one hop -------------------------------------------------------------------------------

  lemma SanitizeKeepsByLower(hs: seq<Header>)
    ensures Filter(Sanitize(hs), IsAppByLower) == Filter(hs, IsAppByLower)
  {
    forall h | h in hs && IsAppByLower(h) ensures Kept(h) {
    }
    FilterAbsorbs(hs, Kept, IsAppByLower);
  }

  lemma ForwardKeepsByLower(hs: seq<Header>)
    ensures Filter(Filter(hs, Forwarded), IsAppByLower) == Filter(hs, IsAppByLower)
  {
    forall h | h in hs && IsAppByLower(h) ensures Forwarded(h) {
      if IsReinjected(h.key) {
        NamesAreLower(h.key);
      }
    }
    FilterAbsorbs(hs, Forwarded, IsAppByLower);
  }

  lemma {:induction false} InjectKeepsByLower(hs: seq<Header>, inj: seq<Header>)
    requires IsInjection(inj) && (inj == [] || FirstPlain(hs, TRACE_STATE))
    ensures Filter(Inject(hs, inj), IsAppByLower) == Filter(hs, IsAppByLower)
    decreases |inj|
  {
    if inj != [] {
      var name := inj[0].key;
      if name != TRACE_STATE {
        OnlyTwoNames(hs, name);
      }
      SetKeepsByLower(hs, name, inj[0].value);
      FirstPlainAfterSet(hs, name, inj[0].value, TRACE_STATE);
      InjectKeepsByLower(Set(hs, name, inj[0].value), inj[1..]);
    }
  }

  /** Publishing, up to the trace headers. */
  lemma IdentifiedByLower(hs: seq<Header>, key: string)
    ensures var x := Set(Filter(hs, Forwarded), IDEMPOTENCY_KEY, key);
            Filter(x, IsAppByLower) == Filter(hs, IsAppByLower) && FirstPlain(x, TRACE_STATE) == StatePlain(hs)
  {
    var forwarded := Filter(hs, Forwarded);
    ForwardKeepsByLower(hs);
    OnlyTwoNames(forwarded, IDEMPOTENCY_KEY);
    SetKeepsByLower(forwarded, IDEMPOTENCY_KEY, key);
    FirstPlainAfterSet(forwarded, IDEMPOTENCY_KEY, key, TRACE_STATE);
    StatePlainIsFirst(hs);
  }

  lemma PublishKeepsByLower(hs: seq<Header>, uuid: string, inj: seq<Header>)
    requires IsInjection(inj) && (inj == [] || StatePlain(hs))
    ensures Filter(Published(hs, uuid, inj), IsAppByLower) == Filter(hs, IsAppByLower)
  {
    var k := if Get(hs, IDEMPOTENCY_KEY) != "" then Get(hs, IDEMPOTENCY_KEY) else uuid;
    IdentifiedByLower(hs, k);
    InjectKeepsByLower(Set(Filter(hs, Forwarded), IDEMPOTENCY_KEY, k), inj);
  }

  predicate NoLongSReason(hs: seq<Header>) { forall h :: h in hs ==> !LongSReason(h) }

  lemma {:induction false} NoneFoldsIsPlain(hs: seq<Header>, name: string)
    requires forall h :: h in hs ==> !EqualFold(h.key, name)
    ensures FirstPlain(hs, name)
  {
    if hs != [] {
      NoneFoldsIsPlain(hs[1..], name);
    }
  }

  lemma MarkKeepsByLower(clean: seq<Header>, name: string, value: string)
    requires name == RETRY_COUNT || (name == ERROR_REASON && forall h :: h in clean ==> !EqualFold(h.key, name))
    ensures Filter(Set(clean, name, value), IsAppByLower) == Filter(clean, IsAppByLower)
    ensures StatePlain(Set(clean, name, value)) == StatePlain(clean)
  {
    StatePlainAfterSet(clean, name, value);
    if name == ERROR_REASON {
      NoneFoldsIsPlain(clean, name);
    } else {
      OnlyTwoNames(clean, name);
    }
    SetKeepsByLower(clean, name, value);
  }

  /** Sanitizing and writing one platform header. */
  lemma WriteKeepsByLower(hs: seq<Header>, name: string, value: string)
    requires name == RETRY_COUNT || (name == ERROR_REASON && NoLongSReason(hs))
    ensures Filter(Set(Sanitize(hs), name, value), IsAppByLower) == Filter(hs, IsAppByLower)
    ensures StatePlain(Set(Sanitize(hs), name, value)) == StatePlain(hs)
  {
    SanitizeKeepsByLower(hs);
    StatePlainAfterSanitize(hs);
    MarkKeepsByLower(Sanitize(hs), name, value);
  }

  /** The same list of application headers, and the same place for tracestate. */
  ghost predicate SameByLower(a: seq<Header>, b: seq<Header>) {
    Filter(a, IsAppByLower) == Filter(b, IsAppByLower) && StatePlain(a) == StatePlain(b)
  }

  lemma RetryKeepsByLower(hs: seq<Header>)
    ensures SameByLower(RetryHeaders(hs), hs)
  {
    WriteKeepsByLower(hs, RETRY_COUNT, Itoa(Wrap64(CountOf(Sanitize(hs)) + 1)));
  }

  lemma DlqKeepsPlain(hs: seq<Header>, err: Option<Error>)
    requires NoLongSReason(hs)
    ensures SameByLower(DlqHeaders(hs, err), hs)
  {
    WriteKeepsByLower(hs, ERROR_REASON, ErrorReason(err));
  }

  lemma ReturnKeepsByLower(hs: seq<Header>)
    ensures SameByLower(ReturnHeaders(hs), hs)
  {
    WriteKeepsByLower(hs, RETRY_COUNT, Get(hs, RETRY_COUNT));
  }

  lemma PrepareKeepsByLower(hs: seq<Header>, move: Move)
    requires move.ToDlq? ==> NoLongSReason(hs)
    ensures SameByLower(Prepared(hs, move), hs)
  {
    match move
    case ToRetry => RetryKeepsByLower(hs);
    case ToDlq(err) => DlqKeepsPlain(hs, err);
    case BackToMain => ReturnKeepsByLower(hs);
  }

  /** A long-s spelling of the error reason is overwritten on the way to the DLQ by some reason. */
  lemma DlqLosesLongS(hs: seq<Header>, h: Header)
    requires h in hs && LongSReason(h)
    ensures exists err :: Filter(DlqHeaders(hs, err), IsAppByLower) != Filter(hs, IsAppByLower)
  {
    var clean := Sanitize(hs);
    SanitizeKeepsByLower(hs);
    SpellingIsApp(h.key, ERROR_REASON);
    assert h in clean;
    LeftoversAreLongS(clean, h);
    var other := if Get(clean, ERROR_REASON) == "a" then "b" else "a";
    var err := Some(Error(false, false, other));
    assert ErrorReason(err) == other by {
      assert CleanText(other) == other;
      assert Cut(other, 256) == other;
    }
    SetOverwrites(clean, ERROR_REASON, other);
    assert Filter(DlqHeaders(hs, err), IsAppByLower) != Filter(hs, IsAppByLower);
  }

  /** What sanitizing leaves of the spellings of the error reason are the ones with a long s. */
  lemma {:induction false} LeftoversAreLongS(clean: seq<Header>, h: Header)
    requires (forall g :: g in clean ==> Kept(g)) && h in clean && LongSReason(h)
    ensures !FirstPlain(clean, ERROR_REASON)
  {
    assert Kept(clean[0]);
    if !EqualFold(clean[0].key, ERROR_REASON) {
      LeftoversAreLongS(clean[1..], h);
    }
  }

  /** A hop keeps the application's headers, under this reading, whatever it is and whatever it writes. */
  ghost predicate EveryHopKeeps(hs: seq<Header>) {
    forall move, uuid, inj :: IsInjection(inj) ==> KeptBy(hs, move, uuid, inj)
  }

  predicate KeptBy(hs: seq<Header>, move: Move, uuid: string, inj: seq<Header>) {
    Filter(Moved(hs, move, uuid, inj), IsAppByLower) == Filter(hs, IsAppByLower)
  }

  /**
   Under the lower-casing reading, for every header list: all hops keep the application's headers
   if and only if no key is a long-s spelling of the error reason, and the first forwarded header
   that folds to tracestate, if any, lower-cases to it.
   */
  lemma HopKeepsByLowerIff(hs: seq<Header>)
    ensures EveryHopKeeps(hs) <==> NoLongSReason(hs) && StatePlain(hs)
  {
    if NoLongSReason(hs) && StatePlain(hs) {
      forall move, uuid, inj | IsInjection(inj)
        ensures KeptBy(hs, move, uuid, inj)
      {
        PrepareKeepsByLower(hs, move);
        PublishKeepsByLower(Prepared(hs, move), uuid, inj);
      }
    } else if !NoLongSReason(hs) {
      ReasonHopLoses(hs);
    } else {
      StateHopLoses(hs);
    }
  }

  lemma ReasonHopLoses(hs: seq<Header>)
    requires !NoLongSReason(hs)
    ensures !EveryHopKeeps(hs)
  {
    var h :| h in hs && LongSReason(h);
    DlqLosesLongS(hs, h);
    var err :| Filter(DlqHeaders(hs, err), IsAppByLower) != Filter(hs, IsAppByLower);
    PublishKeepsByLower(Prepared(hs, ToDlq(err)), "u", []);
    HopLoses(hs, ToDlq(err), "u", []);
  }

  lemma StateHopLoses(hs: seq<Header>)
    requires !StatePlain(hs)
    ensures !EveryHopKeeps(hs)
  {
    var value := StateMoveLoses(hs);
    HopLoses(hs, BackToMain, "u", [Header(TRACE_STATE, value)]);
  }

  lemma HopLoses(hs: seq<Header>, move: Move, uuid: string, inj: seq<Header>)
    requires IsInjection(inj) && !KeptBy(hs, move, uuid, inj)
    ensures !EveryHopKeeps(hs)
  {
  }

  lemma StateMoveLoses(hs: seq<Header>) returns (value: string)
    requires !StatePlain(hs)
    ensures !KeptBy(hs, BackToMain, "u", [Header(TRACE_STATE, value)])
  {
    PrepareKeepsByLower(hs, BackToMain);
    value := StatePublishLoses(Prepared(hs, BackToMain));
    PublishedIsMoved(hs, BackToMain, "u", [Header(TRACE_STATE, value)]);
  }

  lemma PublishedIsMoved(hs: seq<Header>, move: Move, uuid: string, inj: seq<Header>)
    ensures KeptBy(hs, move, uuid, inj) <==>
            Filter(Published(Prepared(hs, move), uuid, inj), IsAppByLower) == Filter(hs, IsAppByLower)
  {
  }

  /** Publishing with some tracestate overwrites a spelling that comes first. */
  lemma StatePublishLoses(hs: seq<Header>) returns (value: string)
    requires !StatePlain(hs)
    ensures Filter(Published(hs, "u", [Header(TRACE_STATE, value)]), IsAppByLower) != Filter(hs, IsAppByLower)
  {
    var k := if Get(hs, IDEMPOTENCY_KEY) != "" then Get(hs, IDEMPOTENCY_KEY) else "u";
    var x := Set(Filter(hs, Forwarded), IDEMPOTENCY_KEY, k);
    IdentifiedByLower(hs, k);
    value := if Get(x, TRACE_STATE) == "a" then "b" else "a";
    SetOverwrites(x, TRACE_STATE, value);
    InjectOne(x, Header(TRACE_STATE, value));
  }

  lemma InjectOne(hs: seq<Header>, h: Header)
    ensures Inject(hs, [h]) == Set(hs, h.key, h.value)
  {
    assert [h][1..] == [];
    assert Inject(Set(hs, h.key, h.value), []) == Set(hs, h.key, h.value);
  }

  /** Under the lower-casing reading, DLQ preparation alone. */
  lemma DlqKeepsByLower(hs: seq<Header>)
    ensures (forall err :: Filter(DlqHeaders(hs, err), IsAppByLower) == Filter(hs, IsAppByLower))
       <==> (forall h :: h in hs ==> !LongSReason(h))
  {
    if NoLongSReason(hs) {
      forall err ensures Filter(DlqHeaders(hs, err), IsAppByLower) == Filter(hs, IsAppByLower) {
        PrepareKeepsByLower(hs, ToDlq(err));
      }
    } else {
      var h :| h in hs && LongSReason(h);
      DlqLosesLongS(hs, h);
    }
  }

  // ----- three header lists --------------------------------------------------------------------

  const LONG_S_REASON := "x-error-rea" + [LONG_S] + "on"
  const LONG_S_STATE := "trace" + [LONG_S] + "tate"

  lemma LongSSpellings()
    ensures EqualFold(LONG_S_REASON, ERROR_REASON) && ToLower(LONG_S_REASON) != ERROR_REASON
    ensures EqualFold(LONG_S_STATE, TRACE_STATE) && ToLower(LONG_S_STATE) != TRACE_STATE
  {
    assert ToLower(LONG_S_REASON)[11] == LONG_S && ERROR_REASON[11] == 's';
    assert ToLower(LONG_S_STATE)[5] == LONG_S && TRACE_STATE[5] == 's';
    assert forall i :: 0 <= i < 14 && i != 11 ==> LONG_S_REASON[i] == ERROR_REASON[i];
    assert forall i :: 0 <= i < 10 && i != 5 ==> LONG_S_STATE[i] == TRACE_STATE[i];
  }

  /** The reason written for the DLQ replaces a value that sanitizing kept. */
  lemma ReasonOverwritesLongS()
    ensures exists hs, err :: Filter(hs, IsAppByLower) == hs && Filter(DlqHeaders(hs, err), IsAppByLower) != hs
  {
    var h := Header(LONG_S_REASON, "kept");
    var hs := [h];
    LongSSpellings();
    SpellingIsApp(h.key, ERROR_REASON);
    assert Filter(hs, IsAppByLower) == hs;
    DlqLosesLongS(hs, h);
  }

  /** An injected tracestate does the same to a long-s spelling of its name, on every kind of hop. */
  lemma StateOverwritesLongS()
    ensures !EveryHopKeeps([Header(LONG_S_STATE, "kept")])
  {
    var h := Header(LONG_S_STATE, "kept");
    LongSSpellings();
    assert h.key != TRACE_STATE by {
      assert h.key[5] == LONG_S;
    }
    HopKeepsByLowerIff([h]);
  }

  /** A case variant in front of such a spelling takes the write, and the spelling is kept. */
  lemma VariantShieldsSpelling()
    ensures EveryHopKeeps([Header("Tracestate", "old"), Header(LONG_S_STATE, "kept")])
  {
    var hs := [Header("Tracestate", "old"), Header(LONG_S_STATE, "kept")];
    assert forall i :: 0 <= i < 10 ==> ToLower("Tracestate")[i] == TRACE_STATE[i];
    assert ToLower(hs[0].key) == TRACE_STATE && EqualFold(hs[0].key, TRACE_STATE);
    forall h | h in hs ensures !LongSReason(h) {
      assert |h.key| == 10;
    }
    HopKeepsByLowerIff(hs);
  }
}
