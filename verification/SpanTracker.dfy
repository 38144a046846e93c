/**
 The spans of database commands: a shared map filled when a command starts, emptied when it
 finishes, and swept by a janitor for commands that never finish. Callbacks and the janitor
 interleave at every map access and every end of a span.
 */
module SpanTracker {
  import opened Base

  type Req = int

  type Span = nat

  /** Two minutes, in nanoseconds. */
  const TTL := 120_000_000_000

  datatype Entry = Entry(span: Span, createdAt: int)

  predicate Stale(now: int, e: Entry) { now - e.createdAt > TTL }

  /** The entry that the janitor has loaded; `ended` when it has ended the span and not yet deleted the key. */
  datatype Hand = Empty | Holds(req: Req, entry: Entry, ended: bool)

  /** `since` is the map when the sweep began, `throughout` the keys that were never removed since. */
  datatype Janitor =
    | Resting
    | Sweeping(now: int, since: map<Req, Entry>, throughout: set<Req>, visited: set<Req>, hand: Hand)

  /**
   `starting` are spans that are created and not yet stored, `finishing` spans that were taken out
   and not yet ended. The rest is history: the id each span was started with, the ends by the
   finishing callbacks and by the janitor, and the spans that a callback took out of the map while
   the janitor had them in hand.
   */
  datatype State = State(spans: map<Req, Entry>, starting: set<Span>, finishing: set<Span>, janitor: Janitor,
                         clock: int,
                         started: map<Span, Req>, finEnds: multiset<Span>, janEnds: multiset<Span>, raced: set<Span>)

  datatype Step =
    | Start(span: Span, req: Req)
    | Store(span: Span)
    | Finish(req: Req)
    | FinishEnd(span: Span)
    | Tick(now: int)
    | SweepStart
    | Visit(req: Req)
    | JanitorEnd
    | JanitorDelete
    | SweepDone

  function Init(): State { State(map[], {}, {}, Resting, 0, map[], multiset{}, multiset{}, {}) }

  function Held(s: State): Hand { if s.janitor.Sweeping? then s.janitor.hand else Empty }

  predicate Enabled(s: State, step: Step) {
    match step
    case Start(span, _) => span !in s.started
    case Store(span) => span in s.starting && span in s.started
    case Finish(_) => true
    case FinishEnd(span) => span in s.finishing
    case Tick(now) => s.clock <= now
    case SweepStart => s.janitor.Resting?
    case Visit(req) => s.janitor.Sweeping? && s.janitor.hand.Empty? && req in s.spans && req !in s.janitor.visited
    case JanitorEnd => Held(s).Holds? && !Held(s).ended
    case JanitorDelete => Held(s).Holds? && Held(s).ended
    // A range over the shared map visits at least the keys that stay in it throughout.
    case SweepDone => s.janitor.Sweeping? && s.janitor.hand.Empty? && s.janitor.throughout <= s.janitor.visited
  }

  function Without(s: State, req: Req): State {
    s.(spans := s.spans - {req},
       janitor := if s.janitor.Sweeping? then s.janitor.(throughout := s.janitor.throughout - {req}) else s.janitor)
  }

  function Apply(s: State, step: Step): State
    requires Enabled(s, step)
  {
    match step
    case Start(span, req) => s.(started := s.started[span := req], starting := s.starting + {span})
    case Store(span) =>
      s.(spans := s.spans[s.started[span] := Entry(span, s.clock)], starting := s.starting - {span})
    case Finish(req) =>
      if req !in s.spans then s
      else
        var span := s.spans[req].span;
        Without(s, req).(finishing := s.finishing + {span},
                         raced := if Held(s).Holds? && Held(s).entry.span == span then s.raced + {span} else s.raced)
    case FinishEnd(span) => s.(finishing := s.finishing - {span}, finEnds := s.finEnds + multiset{span})
    case Tick(now) => s.(clock := now)
    case SweepStart => s.(janitor := Sweeping(s.clock, s.spans, s.spans.Keys, {}, Empty))
    case Visit(req) =>
      var hand := if Stale(s.janitor.now, s.spans[req]) then Holds(req, s.spans[req], false) else Empty;
      s.(janitor := s.janitor.(visited := s.janitor.visited + {req}, hand := hand))
    case JanitorEnd =>
      s.(janitor := s.janitor.(hand := s.janitor.hand.(ended := true)),
         janEnds := s.janEnds + multiset{s.janitor.hand.entry.span})
    case JanitorDelete =>
      var without := Without(s, s.janitor.hand.req);
      without.(janitor := without.janitor.(hand := Empty))
    case SweepDone => s.(janitor := Resting)
  }

  predicate IsRun(run: seq<State>, steps: seq<Step>) {
    && |run| == |steps| + 1 && run[0] == Init()
    && forall i :: 0 <= i < |steps| ==> Enabled(run[i], steps[i]) && run[i + 1] == Apply(run[i], steps[i])
  }

  // ----- what every run keeps -------------------------------------------------------------------

  predicate InMap(s: State, span: Span) {
    span in s.started && s.started[span] in s.spans && s.spans[s.started[span]].span == span
  }

  predicate InHand(s: State, span: Span) { Held(s).Holds? && Held(s).entry.span == span }

  predicate Taken(s: State, span: Span) { span in s.finishing || s.finEnds[span] > 0 }

  /** Every span that the map or the janitor holds was started, under the id it is held with. */
  predicate Names(s: State) {
    && (forall r :: r in s.spans ==> s.spans[r].span in s.started && s.started[s.spans[r].span] == r)
    && (Held(s).Holds? ==> Held(s).entry.span in s.started && s.started[Held(s).entry.span] == Held(s).req)
  }

  /** Where one span can be. */
  predicate SpanOk(s: State, span: Span) {
    && (span in s.starting ==>
          span in s.started && !InMap(s, span) && !Taken(s, span) && s.janEnds[span] == 0 && !InHand(s, span))
    && (Taken(s, span) ==> span in s.started && !InMap(s, span))
    && (span in s.finishing ==> s.finEnds[span] == 0) && s.finEnds[span] <= 1
    && s.janEnds[span] <= 1
    && (s.janEnds[span] == 1 ==> span in s.started && (InMap(s, span) ==> InHand(s, span)))
    && (InHand(s, span) ==> s.janEnds[span] == if Held(s).ended then 1 else 0)
    && (span in s.raced <==> Taken(s, span) && (InHand(s, span) || s.janEnds[span] == 1))
  }

  predicate OldKey(s: State, r: Req, e: Entry) {
    e.span in s.started && s.started[e.span] == r && e.span !in s.starting
  }

  /** What a sweep knows: old entries are never stored again, and a visited stale entry is in hand. */
  predicate SweepOk(s: State) {
    s.janitor.Sweeping? ==>
      && s.janitor.now <= s.clock
      && (Held(s).Holds? ==> Stale(s.janitor.now, Held(s).entry))
      && (forall r :: r in s.janitor.since ==> OldKey(s, r, s.janitor.since[r]))
      && (forall r :: r in s.janitor.since && r in s.spans && s.spans[r] == s.janitor.since[r] ==>
            r in s.janitor.throughout)
      && (forall r :: r in s.janitor.visited && r in s.spans && Stale(s.janitor.now, s.spans[r]) ==>
            Held(s).Holds? && Held(s).req == r)
  }

  ghost predicate Inv(s: State) {
    Names(s) && SweepOk(s) && forall span :: SpanOk(s, span)
  }

  lemma StepKeepsNames(s: State, step: Step)
    requires Names(s) && Enabled(s, step)
    ensures Names(Apply(s, step))
  {
  }

  lemma StepKeepsSweep(s: State, step: Step)
    requires Names(s) && SweepOk(s) && Enabled(s, step)
    requires forall span :: SpanOk(s, span)
    ensures SweepOk(Apply(s, step))
  {
    var s' := Apply(s, step);
    match step
    case Start(span, _) =>
      assert forall r :: s.janitor.Sweeping? && r in s.janitor.since ==> OldKey(s, r, s.janitor.since[r]);
    case Store(span) => StoreKeepsSweep(s, span);
    case SweepStart =>
      forall r | r in s.spans ensures OldKey(s', r, s.spans[r]) {
        assert SpanOk(s, s.spans[r].span);
      }
    case _ =>
  }

  lemma StoreKeepsSweep(s: State, span: Span)
    requires Names(s) && SweepOk(s) && Enabled(s, Store(span))
    ensures SweepOk(Apply(s, Store(span)))
  {
    if s.janitor.Sweeping? {
      var s' := Apply(s, Store(span));
      assert forall r :: r in s.janitor.since ==> OldKey(s, r, s.janitor.since[r]);
      assert forall r :: r in s.janitor.since ==> s.janitor.since[r].span != span;
      assert forall r :: r in s.janitor.since ==> OldKey(s', r, s.janitor.since[r]);
    }
  }

  lemma StepKeepsSpan(s: State, step: Step, span: Span)
    requires Names(s) && Enabled(s, step) && SpanOk(s, span)
    ensures SpanOk(Apply(s, step), span)
  {
    match step
    case Start(_, _) =>
    case Store(_) =>
    case Finish(_) =>
    case Visit(_) =>
    case JanitorDelete =>
    case _ =>
  }

  lemma StepKeepsInv(s: State, step: Step)
    requires Inv(s) && Enabled(s, step)
    ensures Inv(Apply(s, step))
  {
    StepKeepsNames(s, step);
    StepKeepsSweep(s, step);
    forall span ensures SpanOk(Apply(s, step), span) {
      StepKeepsSpan(s, step, span);
    }
  }

  lemma {:induction false} RunKeepsInv(run: seq<State>, steps: seq<Step>, k: nat)
    requires IsRun(run, steps) && k < |run|
    ensures Inv(run[k])
  {
    if k > 0 {
      RunKeepsInv(run, steps, k - 1);
      assert Enabled(run[k - 1], steps[k - 1]) && run[k - 1 + 1] == Apply(run[k - 1], steps[k - 1]);
      StepKeepsInv(run[k - 1], steps[k - 1]);
    } else {
      assert forall span :: SpanOk(Init(), span);
    }
  }

  // ----- when no span is lost --------------------------------------------------------------------

  /** A started span is not stored yet, in the map, taken by a callback, or seen to by the janitor. */
  predicate Accounted(s: State, span: Span) {
    span in s.started ==>
      span in s.starting || InMap(s, span) || Taken(s, span) || s.janEnds[span] == 1 || InHand(s, span)
  }

  /**
   A store that overwrites nothing but what the janitor has in hand, or a deletion by the janitor
   of nothing but what it has in hand.
   */
  predicate IsSafe(s: State, step: Step)
    requires Enabled(s, step)
  {
    && (step.Store? && s.started[step.span] in s.spans ==> InHand(s, s.spans[s.started[step.span]].span))
    && (step.JanitorDelete? && Held(s).req in s.spans ==> InHand(s, s.spans[Held(s).req].span))
  }

  lemma SafeStepLosesNothing(s: State, step: Step, span: Span)
    requires Names(s) && Enabled(s, step) && IsSafe(s, step) && Accounted(s, span)
    requires SpanOk(s, span)
    ensures Accounted(Apply(s, step), span)
  {
  }

  /** The key whose entry a step displaces when it is not safe. */
  function DisplacedKey(s: State, step: Step): (r: Req)
    requires Enabled(s, step) && !IsSafe(s, step)
    ensures r in s.spans && !InHand(s, s.spans[r].span)
  {
    if step.Store? then s.started[step.span] else Held(s).req
  }

  lemma UnsafeStepLosesASpan(s: State, step: Step)
    requires Inv(s) && Enabled(s, step) && !IsSafe(s, step)
    ensures !Accounted(Apply(s, step), s.spans[DisplacedKey(s, step)].span)
  {
    var r := DisplacedKey(s, step);
    var d := s.spans[r].span;
    assert d in s.started && s.started[d] == r;
    assert SpanOk(s, d) && InMap(s, d);
    if step.Store? {
      assert SpanOk(s, step.span);
      assert d != step.span && d !in s.starting;
    }
  }

  /** A lost span stays lost: nobody ends it. */
  lemma LostForGood(s: State, step: Step, span: Span)
    requires Names(s) && Enabled(s, step) && !Accounted(s, span)
    ensures !Accounted(Apply(s, step), span)
    ensures s.finEnds[span] == Apply(s, step).finEnds[span] == 0
  {
  }

  ghost predicate AllAccounted(s: State) { forall span :: Accounted(s, span) }

  /**
   Whatever ids are used: no span is ever lost if and only if no store overwrites an entry that
   the janitor does not have in hand, and the janitor deletes no entry but the one it has in hand.
   */
  lemma LossIff(run: seq<State>, steps: seq<Step>)
    requires IsRun(run, steps)
    ensures (forall k :: 0 <= k < |run| ==> AllAccounted(run[k]))
       <==> (forall i :: 0 <= i < |steps| ==> Enabled(run[i], steps[i]) && IsSafe(run[i], steps[i]))
  {
    if forall i :: 0 <= i < |steps| ==> Enabled(run[i], steps[i]) && IsSafe(run[i], steps[i]) {
      forall k | 0 <= k < |run| ensures AllAccounted(run[k]) {
        SafeRunLosesNothing(run, steps, k);
      }
    } else {
      var i :| 0 <= i < |steps| && !(Enabled(run[i], steps[i]) && IsSafe(run[i], steps[i]));
      RunKeepsInv(run, steps, i);
      assert Enabled(run[i], steps[i]) && run[i + 1] == Apply(run[i], steps[i]);
      UnsafeStepLosesASpan(run[i], steps[i]);
      assert !AllAccounted(run[i + 1]);
    }
  }

  lemma {:induction false} SafeRunLosesNothing(run: seq<State>, steps: seq<Step>, k: nat)
    requires IsRun(run, steps) && k < |run|
    requires forall i :: 0 <= i < k ==> Enabled(run[i], steps[i]) && IsSafe(run[i], steps[i])
    ensures AllAccounted(run[k])
  {
    if k > 0 {
      var s, step := run[k - 1], steps[k - 1];
      SafeRunLosesNothing(run, steps, k - 1);
      RunKeepsInv(run, steps, k - 1);
      assert run[k - 1 + 1] == Apply(s, step);
      forall span ensures Accounted(Apply(s, step), span) {
        assert SpanOk(s, span) && Accounted(s, span);
        SafeStepLosesNothing(s, step, span);
      }
    }
  }

  // ----- ids that are free when they are used ----------------------------------------------------

  /** The id of a new command is not in the map, not in the janitor's hand, and not about to be stored. */
  predicate FreeId(s: State, step: Step) {
    step.Start? ==>
      && step.req !in s.spans && !(Held(s).Holds? && Held(s).req == step.req)
      && forall span :: span in s.starting && span in s.started ==> s.started[span] != step.req
  }

  predicate FreeIds(run: seq<State>, steps: seq<Step>)
    requires |run| == |steps| + 1
  {
    forall i :: 0 <= i < |steps| ==> FreeId(run[i], steps[i])
  }

  /** No id is used twice. */
  predicate UniqueIds(steps: seq<Step>) {
    forall i, j :: 0 <= i < j < |steps| && steps[i].Start? && steps[j].Start? ==> steps[i].req != steps[j].req
  }

  /** The ids of started spans are those of earlier steps. */
  lemma {:induction false} StartedBefore(run: seq<State>, steps: seq<Step>, k: nat, span: Span)
    requires IsRun(run, steps) && k < |run| && span in run[k].started
    ensures exists i :: 0 <= i < k && steps[i] == Start(span, run[k].started[span])
  {
    assert Enabled(run[k - 1], steps[k - 1]) && run[k - 1 + 1] == Apply(run[k - 1], steps[k - 1]);
    if steps[k - 1] != Start(span, run[k].started[span]) {
      StartedBefore(run, steps, k - 1, span);
    }
  }

  /** Ids that are never used twice are free whenever they are used. */
  lemma UniqueIdsAreFree(run: seq<State>, steps: seq<Step>)
    requires IsRun(run, steps) && UniqueIds(steps)
    ensures FreeIds(run, steps)
  {
    forall k | 0 <= k < |steps| ensures FreeId(run[k], steps[k]) {
      RunKeepsInv(run, steps, k);
      forall span | span in run[k].started && steps[k].Start? ensures run[k].started[span] != steps[k].req {
        StartedBefore(run, steps, k, span);
      }
    }
  }

  /** And each belongs to one span, so a finish under an entry's id is its own command's. */
  lemma OneSpanPerId(run: seq<State>, steps: seq<Step>, k: nat, a: Span, b: Span)
    requires IsRun(run, steps) && UniqueIds(steps) && k < |run| && a in run[k].started && b in run[k].started
    requires run[k].started[a] == run[k].started[b]
    ensures a == b
  {
    StartedBefore(run, steps, k, a);
    StartedBefore(run, steps, k, b);
    var i :| 0 <= i < k && steps[i] == Start(a, run[k].started[a]);
    var j :| 0 <= j < k && steps[j] == Start(b, run[k].started[b]);
    assert !(i < j) && !(j < i);
  }

  /** What is about to be stored has its key to itself, and what is in hand is what is in the map. */
  predicate KeysFree(s: State) {
    && (forall a :: a in s.starting ==> a in s.started && s.started[a] !in s.spans)
    && (forall a :: a in s.starting && a in s.started ==> !(Held(s).Holds? && Held(s).req == s.started[a]))
    && (forall a, b :: a in s.starting && b in s.starting && a in s.started && b in s.started && a != b ==>
          s.started[a] != s.started[b])
    && (Held(s).Holds? && Held(s).req in s.spans ==> s.spans[Held(s).req] == Held(s).entry)
  }

  lemma StepKeepsKeysFree(s: State, step: Step)
    requires KeysFree(s) && Enabled(s, step) && FreeId(s, step)
    ensures KeysFree(Apply(s, step)) && IsSafe(s, step)
  {
  }

  lemma {:induction false} FreeRunKeepsKeysFree(run: seq<State>, steps: seq<Step>, k: nat)
    requires IsRun(run, steps) && FreeIds(run, steps) && k < |run|
    ensures KeysFree(run[k])
    ensures forall i :: 0 <= i < k ==> Enabled(run[i], steps[i]) && IsSafe(run[i], steps[i])
  {
    if k > 0 {
      FreeRunKeepsKeysFree(run, steps, k - 1);
      assert Enabled(run[k - 1], steps[k - 1]) && FreeId(run[k - 1], steps[k - 1]);
      assert run[k - 1 + 1] == Apply(run[k - 1], steps[k - 1]);
      StepKeepsKeysFree(run[k - 1], steps[k - 1]);
    }
  }

  /**
   What a caller can check: when each id is free at the start of its command, no span is lost. In
   every state a started span is not stored yet, in the map, about to be ended by the callback that
   took it, or ended. A callback ends a span at most once, and so does the janitor.
   */
  lemma NoSpanLost(run: seq<State>, steps: seq<Step>, k: nat, span: Span)
    requires IsRun(run, steps) && FreeIds(run, steps) && k < |run| && span in run[k].started
    ensures var s := run[k];
            && (span in s.starting || InMap(s, span) || span in s.finishing
                || s.finEnds[span] == 1 || s.janEnds[span] == 1)
            && s.finEnds[span] <= 1 && s.janEnds[span] <= 1
  {
    RunKeepsInv(run, steps, k);
    FreeRunKeepsKeysFree(run, steps, k);
    SafeRunLosesNothing(run, steps, k);
    assert SpanOk(run[k], span) && Accounted(run[k], span);
    HandIsTakenOrInMap(run, steps, k, span);
  }

  /** What the janitor has in hand and has not ended is in the map, or a callback took it. */
  lemma {:induction false} HandIsTakenOrInMap(run: seq<State>, steps: seq<Step>, k: nat, span: Span)
    requires IsRun(run, steps) && FreeIds(run, steps) && k < |run|
    ensures InHand(run[k], span) ==> InMap(run[k], span) || Taken(run[k], span) || run[k].janEnds[span] == 1
  {
    if k > 0 {
      var s, step := run[k - 1], steps[k - 1];
      HandIsTakenOrInMap(run, steps, k - 1, span);
      RunKeepsInv(run, steps, k - 1);
      FreeRunKeepsKeysFree(run, steps, k - 1);
      assert Enabled(s, step) && run[k - 1 + 1] == Apply(s, step);
      assert SpanOk(s, span);
      HandStaysAccounted(s, step, span);
    }
  }

  lemma HandStaysAccounted(s: State, step: Step, span: Span)
    requires Names(s) && KeysFree(s) && SpanOk(s, span) && Enabled(s, step)
    requires InHand(s, span) ==> InMap(s, span) || Taken(s, span) || s.janEnds[span] == 1
    ensures var s' := Apply(s, step);
            InHand(s', span) ==> InMap(s', span) || Taken(s', span) || s'.janEnds[span] == 1
  {
  }

  /**
   Whenever nobody is about to end or delete anything, a span that is out of the map was ended
   exactly once, or exactly twice: twice if and only if a callback took it while the janitor had
   it in hand.
   */
  lemma EndsExactly(run: seq<State>, steps: seq<Step>, k: nat, span: Span)
    requires IsRun(run, steps) && FreeIds(run, steps) && k < |run| && span in run[k].started
    requires run[k].finishing == {} && Held(run[k]).Empty? && span !in run[k].starting && !InMap(run[k], span)
    ensures run[k].finEnds[span] + run[k].janEnds[span] == if span in run[k].raced then 2 else 1
  {
    NoSpanLost(run, steps, k, span);
    RunKeepsInv(run, steps, k);
    assert SpanOk(run[k], span);
  }

  /**
   An entry leaves the map only by a finish under its id, which will end its span, or ended by the
   janitor when stale. With ids that are never reused that finish is its own (OneSpanPerId).
   */
  lemma HowEntriesLeave(run: seq<State>, steps: seq<Step>, k: nat, r: Req)
    requires IsRun(run, steps) && FreeIds(run, steps) && k < |steps|
    requires r in run[k].spans && !(r in run[k + 1].spans && run[k + 1].spans[r] == run[k].spans[r])
    ensures var e := run[k].spans[r];
            || (steps[k] == Finish(r) && e.span in run[k + 1].finishing)
            || (steps[k] == JanitorDelete && run[k].clock - e.createdAt > 120_000_000_000
                && run[k].janEnds[e.span] == 1)
  {
    RunKeepsInv(run, steps, k);
    FreeRunKeepsKeysFree(run, steps, k);
    assert Enabled(run[k], steps[k]) && run[k + 1] == Apply(run[k], steps[k]);
    assert SpanOk(run[k], run[k].spans[r].span);
  }

  /** An entry's age counts from the step that stored it. */
  lemma {:induction false} CreatedWhenStored(run: seq<State>, steps: seq<Step>, k: nat, r: Req)
    requires IsRun(run, steps) && k < |run| && r in run[k].spans
    ensures exists m :: 0 <= m < k && steps[m] == Store(run[k].spans[r].span) && StoredAt(run, m, run[k].spans[r])
    ensures run[k].spans[r].createdAt <= run[k].clock
  {
    assert Enabled(run[k - 1], steps[k - 1]) && run[k - 1 + 1] == Apply(run[k - 1], steps[k - 1]);
    if r in run[k - 1].spans && run[k - 1].spans[r] == run[k].spans[r] {
      CreatedWhenStored(run, steps, k - 1, r);
    } else {
      assert steps[k - 1] == Store(run[k].spans[r].span) && StoredAt(run, k - 1, run[k].spans[r]);
    }
  }

  predicate StoredAt(run: seq<State>, m: nat, e: Entry)
    requires m < |run|
  {
    e.createdAt == run[m].clock
  }

  // ----- sweeps ----------------------------------------------------------------------------------

  /** Between its first and its last step a sweep remembers the map and the time it began with. */
  lemma {:induction false} SweepRemembers(run: seq<State>, steps: seq<Step>, i: nat, k: nat)
    requires IsRun(run, steps) && i < k < |run| && steps[i] == SweepStart
    requires forall m :: i < m < k ==> !steps[m].SweepDone?
    ensures run[k].janitor.Sweeping? && run[k].janitor.since == run[i].spans && run[k].janitor.now == run[i].clock
    decreases k
  {
    assert Enabled(run[k - 1], steps[k - 1]) && run[k - 1 + 1] == Apply(run[k - 1], steps[k - 1]);
    if k > i + 1 {
      SweepRemembers(run, steps, i, k - 1);
    }
  }

  /**
   Whatever ids are used, after a complete sweep no entry remains that was in the map, and stale,
   when it began.
   */
  lemma SweepClears(run: seq<State>, steps: seq<Step>, i: nat, j: nat, r: Req)
    requires IsRun(run, steps) && i < j < |steps|
    requires steps[i] == SweepStart && steps[j] == SweepDone && forall m :: i < m < j ==> !steps[m].SweepDone?
    requires r in run[i].spans && run[i].clock - run[i].spans[r].createdAt > 120_000_000_000
    ensures r in run[j + 1].spans ==> run[j + 1].spans[r] != run[i].spans[r]
  {
    RunKeepsInv(run, steps, j);
    SweepRemembers(run, steps, i, j);
    assert Enabled(run[j], steps[j]) && run[j + 1] == Apply(run[j], steps[j]);
    assert OldKey(run[j], r, run[i].spans[r]);
  }

  // ----- ids that are reused too early -----------------------------------------------------------

  /** One more step of a run. */
  lemma Extend(run: seq<State>, steps: seq<Step>, step: Step) returns (run': seq<State>, steps': seq<Step>)
    requires IsRun(run, steps) && Enabled(run[|steps|], step)
    ensures run' == run + [Apply(run[|steps|], step)] && steps' == steps + [step]
    ensures IsRun(run', steps') && run'[|steps'|] == Apply(run[|steps|], step)
  {
    run', steps' := run + [Apply(run[|steps|], step)], steps + [step];
  }

  /** A command with id 7 was started and stored. */
  lemma OneCommand() returns (run: seq<State>, steps: seq<Step>)
    ensures IsRun(run, steps) && steps == [Start(0, 7), Store(0)]
    ensures var s := run[|steps|];
            && s.spans == map[7 := Entry(0, 0)] && s.starting == {} && s.started == map[0 := 7] && s.finishing == {}
            && s.janitor == Resting && s.finEnds == multiset{} && s.janEnds == multiset{} && s.clock == 0
  {
    run, steps := [Init()], [];
    run, steps := Extend(run, steps, Start(0, 7));
    run, steps := Extend(run, steps, Store(0));
  }

  /** An id is reused while its key is in the map: storing drops the span that was there. */
  lemma ReuseLosesASpan() returns (run: seq<State>, steps: seq<Step>)
    ensures IsRun(run, steps) && steps == [Start(0, 7), Store(0), Start(1, 7), Store(1)]
    ensures !Accounted(run[|steps|], 0)
  {
    run, steps := OneCommand();
    run, steps := Extend(run, steps, Start(1, 7));
    run, steps := Extend(run, steps, Store(1));
  }

  /** The first command with id 7 has finished, and the janitor still has its entry in hand. */
  predicate AtReuse(s: State) {
    && s.spans == map[] && s.starting == {} && s.started == map[0 := 7] && s.finishing == {}
    && Held(s) == Holds(7, Entry(0, 0), false) && s.finEnds == multiset{0} && s.janEnds == multiset{}
  }

  lemma FinishedInHand() returns (run: seq<State>, steps: seq<Step>)
    ensures IsRun(run, steps) && AtReuse(run[|steps|])
    ensures steps == [Start(0, 7), Store(0), Tick(TTL + 1), SweepStart, Visit(7), Finish(7), FinishEnd(0)]
  {
    run, steps := OneCommand();
    run, steps := Extend(run, steps, Tick(TTL + 1));
    run, steps := Extend(run, steps, SweepStart);
    run, steps := Extend(run, steps, Visit(7));
    assert Held(run[|steps|]) == Holds(7, Entry(0, 0), false);
    run, steps := Extend(run, steps, Finish(7));
    run, steps := Extend(run, steps, FinishEnd(0));
  }

  /**
   An id is reused after its command finished, while the janitor has the old entry in hand: the
   janitor's deletion drops the new span. No store overwrites anything in this run.
   */
  lemma SweepLosesASpan() returns (run: seq<State>, steps: seq<Step>)
    ensures IsRun(run, steps) && !Accounted(run[|steps|], 1)
    ensures steps == [Start(0, 7), Store(0), Tick(TTL + 1), SweepStart, Visit(7), Finish(7), FinishEnd(0)]
                     + [Start(1, 7), Store(1), JanitorEnd, JanitorDelete]
  {
    run, steps := FinishedInHand();
    run, steps := Extend(run, steps, Start(1, 7));
    run, steps := Extend(run, steps, Store(1));
    run, steps := Extend(run, steps, JanitorEnd);
    run, steps := Extend(run, steps, JanitorDelete);
  }
}
