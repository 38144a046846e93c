/**
 The three-queue retry protocol, without any broker.

 Messages are published to a main queue. A consumer of the main queue hands each copy to an
 application handler; a failing copy is republished to the retry queue or to the dead-letter
 queue. A second consumer moves copies from the retry queue back to the main queue. Publishing
 and removing are separate steps, either can fail, and any number of consumers interleave.

 The state keeps every copy ever published, the set of copies a broker may still deliver (the
 live ones), and two history variables: the copies whose consumer has seen an acknowledged
 outcome (settled) and the original messages that the application handled.

 C names copies, A is the type of application headers or attributes.
 */
module Protocol {
  import opened Base
  import Steps

  datatype Place = Main | Retry | Dlq

  /** Why a copy was published. */
  datatype Why = Fresh | Failed | Exhausted | NonRetryable | Returned

  /**
   The retry counter a copy gets when it moves into the retry queue. The code strips the counter
   before bumping it, which is ResetToOne. IncrementSource is the documented rule.
   */
  datatype CountRule = ResetToOne | IncrementSource

  /** `nestedMax` and `retryCut` are the limits of the consumer of the retry queue. */
  datatype Config = Config(maxRetries: nat, nestedMax: nat, mainCut: nat, retryCut: nat, rule: CountRule)

  /**
   `key` and `app` are None, and `count` is None, when a broker's encoding leaves them without
   one meaning. `hops` counts the moves from main to retry on the way to this copy.
   */
  datatype Copy<C, A> = Copy(place: Place, origin: C, key: Option<string>, app: Option<A>,
                             body: string, count: Option<nat>, hops: nat, why: Why)

  datatype State<!C(==), A> = State(copies: map<C, Copy<C, A>>, live: set<C>, settled: set<C>, handled: set<C>)

  datatype Step<!C(==), A> =
    | Originate(c: C, m: Copy<C, A>)
    | Enqueue(from: C, c: C, m: Copy<C, A>, acked: bool)
    | Handle(from: C)
    | Redeliver(live: set<C>)

  predicate Below(count: Option<nat>, max: nat) { count.Some? ==> count.value < max }

  predicate AtLeast(count: Option<nat>, max: nat) { count.Some? ==> count.value >= max }

  predicate Bumped(rule: CountRule, src: Option<nat>, dst: Option<nat>) {
    match rule
    case ResetToOne => dst == Some(1)
    case IncrementSource => src.Some? ==> dst == Some(src.value + 1)
  }

  /** `m` is a copy that a consumer of `src` may publish. */
  predicate Follows<C(==), A(==)>(cfg: Config, src: Copy<C, A>, m: Copy<C, A>) {
    && m.origin == src.origin
    && (src.key.Some? ==> m.key == src.key)
    && (src.app.Some? ==> m.app == src.app)
    && m.body == (if m.place != Dlq then src.body
                  else Cut(src.body, if src.place == Main then cfg.mainCut else cfg.retryCut))
    && m.hops == src.hops + (if src.place == Main && m.place == Retry then 1 else 0)
    && (match (src.place, m.place)
        case (Dlq, _) => false
        case (Main, Main) => false
        case (Retry, Main) => m.why == Returned && (src.count.Some? ==> m.count == src.count)
        case (_, Retry) =>
          m.why == Failed && Below(src.count, Limit(cfg, src.place)) && Bumped(cfg.rule, src.count, m.count)
        case (_, Dlq) => m.why == NonRetryable || (m.why == Exhausted && AtLeast(src.count, Limit(cfg, src.place))))
  }

  function Limit(cfg: Config, place: Place): nat {
    if place == Main then cfg.maxRetries else cfg.nestedMax
  }

  predicate Enabled<C(==), A(==)>(cfg: Config, s: State<C, A>, step: Step<C, A>) {
    match step
    case Originate(c, m) =>
      c !in s.copies && m.place == Main && m.origin == c && m.why == Fresh && m.hops == 0
    case Enqueue(from, c, m, _) =>
      from in s.copies && c !in s.copies && Follows(cfg, s.copies[from], m)
    case Handle(from) =>
      from in s.copies && s.copies[from].place == Main
    case Redeliver(live) =>
      // A broker stops delivering a copy only after a consumer removed it, and consumers remove
      // settled copies only. It may deliver a removed copy again.
      live <= s.copies.Keys && s.live - live <= s.settled
  }

  function Apply<C(==), A(==)>(cfg: Config, s: State<C, A>, step: Step<C, A>): State<C, A>
    requires Enabled(cfg, s, step)
  {
    match step
    case Originate(c, m) =>
      s.(copies := s.copies[c := m], live := s.live + {c})
    case Enqueue(from, c, m, acked) =>
      s.(copies := s.copies[c := m], live := s.live + {c},
         settled := if acked then s.settled + {from} else s.settled)
    case Handle(from) =>
      s.(settled := s.settled + {from}, handled := s.handled + {s.copies[from].origin})
    case Redeliver(live) =>
      s.(live := live)
  }

  /** A step, as a partial function. */
  function Take<C(==), A(==)>(cfg: Config): (State<C, A>, Step<C, A>) -> Option<State<C, A>> {
    (s, step) => if Enabled(cfg, s, step) then Some(Apply(cfg, s, step)) else None
  }

  function Empty<C, A>(): State<C, A> { State(map[], {}, {}, {}) }

  /** Some run of steps leads from one state to the other. */
  ghost predicate Reaches<C(!new), A(!new)>(cfg: Config, a: State<C, A>, b: State<C, A>) {
    Steps.Reaches(Take<C, A>(cfg), a, b)
  }

  lemma ReachesSelf<C(!new), A(!new)>(cfg: Config, a: State<C, A>)
    ensures Reaches(cfg, a, a)
  {
    Steps.ReachesSelf(Take<C, A>(cfg), a);
  }

  lemma ReachesByStep<C(!new), A(!new)>(cfg: Config, a: State<C, A>, step: Step<C, A>)
    requires Enabled(cfg, a, step)
    ensures Reaches(cfg, a, Apply(cfg, a, step))
  {
    Steps.ReachesByStep(Take<C, A>(cfg), a, step);
  }

  /** A send that lands reaches the state with one more copy. */
  lemma SendReaches<C(!new), A(!new)>(cfg: Config, a: State<C, A>, from: C, c: C, m: Copy<C, A>, acked: bool)
    requires from in a.copies && c !in a.copies && Follows(cfg, a.copies[from], m)
    ensures Reaches(cfg, a, a.(copies := a.copies[c := m], live := a.live + {c},
                               settled := if acked then a.settled + {from} else a.settled))
  {
    ReachesByStep(cfg, a, Enqueue(from, c, m, acked));
  }

  lemma OriginateReaches<C(!new), A(!new)>(cfg: Config, a: State<C, A>, c: C, m: Copy<C, A>)
    requires c !in a.copies && m.place == Main && m.origin == c && m.why == Fresh && m.hops == 0
    ensures Reaches(cfg, a, a.(copies := a.copies[c := m], live := a.live + {c}))
  {
    ReachesByStep(cfg, a, Originate(c, m));
  }

  lemma ReachesTrans<C(!new), A(!new)>(cfg: Config, a: State<C, A>, b: State<C, A>, c: State<C, A>)
    requires Reaches(cfg, a, b) && Reaches(cfg, b, c)
    ensures Reaches(cfg, a, c)
  {
    Steps.ReachesTrans(Take<C, A>(cfg), a, b, c);
  }

  // ----- what every run keeps ---------------------------------------------------------------

  /** Original messages are the copies that are their own origin. */
  predicate IsOrigin<C(==), A>(s: State<C, A>, c: C) {
    c in s.copies && s.copies[c].origin == c
  }

  /** A copy carries its origin's identity, application headers and body, cut in the DLQ. */
  predicate Faithful<C(==), A(==)>(cfg: Config, m: Copy<C, A>, origin: Copy<C, A>) {
    && (origin.key.Some? ==> m.key == origin.key)
    && (origin.app.Some? ==> m.app == origin.app)
    && (m.place != Dlq ==> m.body == origin.body)
    && (m.place == Dlq ==> m.body == Cut(origin.body, cfg.mainCut) || m.body == Cut(origin.body, cfg.retryCut))
  }

  ghost predicate WellFormed<C(!new), A(!new)>(cfg: Config, s: State<C, A>) {
    && s.live <= s.copies.Keys
    && s.settled <= s.copies.Keys
    && (forall c :: c in s.copies ==>
          && IsOrigin(s, s.copies[c].origin)
          && Faithful(cfg, s.copies[c], s.copies[s.copies[c].origin])
          && (s.copies[c].why == Fresh <==> s.copies[c].origin == c)
          && (s.copies[c].why == Fresh ==> s.copies[c].place == Main && s.copies[c].hops == 0)
          && (s.copies[c].place == Dlq ==> c in s.live && c !in s.settled))
    && (forall o :: o in s.handled ==> IsOrigin(s, o))
  }

  /** A live copy of `o` that no consumer has settled. */
  ghost predicate Pending<C(!new), A(!new)>(s: State<C, A>, o: C) {
    exists c :: c in s.live && c !in s.settled && c in s.copies && s.copies[c].origin == o
  }

  ghost predicate NothingLost<C(!new), A(!new)>(s: State<C, A>) {
    forall o :: IsOrigin(s, o) ==> o in s.handled || Pending(s, o)
  }

  ghost predicate Inv<C(!new), A(!new)>(cfg: Config, s: State<C, A>) {
    WellFormed(cfg, s) && NothingLost(s)
  }

  /** A copy that is new, or that was well formed before. */
  lemma EnqueueKeepsWellFormed<C(!new), A(!new)>(cfg: Config, s: State<C, A>, step: Step<C, A>)
    requires WellFormed(cfg, s) && Enabled(cfg, s, step) && step.Enqueue?
    ensures WellFormed(cfg, Apply(cfg, s, step))
  {
    var s' := Apply(cfg, s, step);
    var src := s.copies[step.from];
    assert IsOrigin(s, src.origin) && IsOrigin(s', src.origin);
    FollowerIsFaithful(cfg, src, step.m, s.copies[src.origin]);
    forall c | c in s.copies ensures IsOrigin(s', s'.copies[c].origin) && s'.copies[c] == s.copies[c] {
      assert IsOrigin(s, s.copies[c].origin);
    }
  }

  lemma FollowerIsFaithful<C, A>(cfg: Config, src: Copy<C, A>, m: Copy<C, A>, origin: Copy<C, A>)
    requires Follows(cfg, src, m) && Faithful(cfg, src, origin)
    ensures Faithful(cfg, m, origin) && m.why != Fresh
  {
  }

  lemma OriginateKeepsWellFormed<C(!new), A(!new)>(cfg: Config, s: State<C, A>, step: Step<C, A>)
    requires WellFormed(cfg, s) && Enabled(cfg, s, step) && step.Originate?
    ensures WellFormed(cfg, Apply(cfg, s, step))
  {
    var s' := Apply(cfg, s, step);
    forall c | c in s.copies ensures IsOrigin(s', s'.copies[c].origin) && s'.copies[c] == s.copies[c] {
      assert IsOrigin(s, s.copies[c].origin);
    }
  }

  lemma StepKeepsWellFormed<C(!new), A(!new)>(cfg: Config, s: State<C, A>, step: Step<C, A>)
    requires WellFormed(cfg, s) && Enabled(cfg, s, step)
    ensures WellFormed(cfg, Apply(cfg, s, step))
  {
    match step
    case Originate(_, _) => OriginateKeepsWellFormed(cfg, s, step);
    case Enqueue(_, _, _, _) => EnqueueKeepsWellFormed(cfg, s, step);
    case Handle(from) => assert IsOrigin(s, s.copies[from].origin);
    case Redeliver(_) =>
  }

  lemma StepKeepsNothingLost<C(!new), A(!new)>(cfg: Config, s: State<C, A>, step: Step<C, A>)
    requires Inv(cfg, s) && Enabled(cfg, s, step)
    ensures NothingLost(Apply(cfg, s, step))
  {
    var s' := Apply(cfg, s, step);
    forall o | IsOrigin(s', o) ensures o in s'.handled || Pending(s', o) {
      if !IsOrigin(s, o) {
        assert step.c in s'.live && step.c !in s'.settled && s'.copies[step.c].origin == o;
      } else if o !in s.handled {
        var w :| w in s.live && w !in s.settled && w in s.copies && s.copies[w].origin == o;
        match step
        case Enqueue(from, c, m, acked) =>
          var v := if acked && w == from then c else w;
          assert v in s'.live && v !in s'.settled && s'.copies[v].origin == o;
        case Handle(from) =>
          if w != from {
            assert w in s'.live && w !in s'.settled && s'.copies[w].origin == o;
          }
        case _ =>
          assert w in s'.live && w !in s'.settled && s'.copies[w].origin == o;
      }
    }
  }

  lemma StepKeepsInv<C(!new), A(!new)>(cfg: Config, s: State<C, A>, step: Step<C, A>)
    requires Inv(cfg, s) && Enabled(cfg, s, step)
    ensures Inv(cfg, Apply(cfg, s, step))
  {
    StepKeepsWellFormed(cfg, s, step);
    StepKeepsNothingLost(cfg, s, step);
  }

  lemma ReachesKeepsInv<C(!new), A(!new)>(cfg: Config, a: State<C, A>, b: State<C, A>)
    requires Inv(cfg, a) && Reaches(cfg, a, b)
    ensures Inv(cfg, b)
  {
    var holds := (s: State<C, A>) => Inv(cfg, s);
    forall s, step | holds(s) && Take<C, A>(cfg)(s, step).Some? ensures holds(Take<C, A>(cfg)(s, step).value) {
      StepKeepsInv(cfg, s, step);
    }
    Steps.ReachesKeeps(Take<C, A>(cfg), holds, a, b);
  }

  /**
   No loss, over every run with any interleaving of consumers and any failures: an original
   message was handled, or a live copy of it carries its identity, headers and body.
   */
  lemma NoLoss<C(!new), A(!new)>(cfg: Config, s: State<C, A>, o: C)
    requires Reaches(cfg, Empty<C, A>(), s)
    requires IsOrigin(s, o) && o !in s.handled
    ensures exists c :: c in s.live && c in s.copies && s.copies[c].origin == o
                        && Faithful(cfg, s.copies[c], s.copies[o])
  {
    ReachesKeepsInv(cfg, Empty<C, A>(), s);
    var c :| c in s.live && c !in s.settled && c in s.copies && s.copies[c].origin == o;
    assert Faithful(cfg, s.copies[c], s.copies[o]);
  }

  // ----- the retry budget -------------------------------------------------------------------

  /** Original messages are published without a retry counter. */
  ghost predicate CleanOrigins<C(!new), A(!new)>(s: State<C, A>) {
    forall o :: IsOrigin(s, o) ==> s.copies[o].count == Some(0)
  }

  /**
   With the code's rule a republished copy outside the DLQ counts one, so a budget of two or more is
   exhausted by an original's own counter only.
   */
  ghost predicate CountsOne<C(!new), A(!new)>(cfg: Config, s: State<C, A>) {
    forall c :: c in s.copies ==>
      var m := s.copies[c];
      && (m.place != Dlq && m.why != Fresh ==> m.count == Some(1))
      && (m.why == Exhausted ==>
            cfg.maxRetries <= 1 || (m.origin in s.copies && AtLeast(s.copies[m.origin].count, cfg.maxRetries)))
  }

  lemma StepKeepsCountsOne<C(!new), A(!new)>(cfg: Config, s: State<C, A>, step: Step<C, A>)
    requires cfg.rule == ResetToOne && cfg.nestedMax >= 2
    requires WellFormed(cfg, s) && CountsOne(cfg, s) && Enabled(cfg, s, step)
    ensures CountsOne(cfg, Apply(cfg, s, step))
  {
    if step.Enqueue? {
      var src := s.copies[step.from];
      assert src.why == Fresh ==> src.origin == step.from;
      assert IsOrigin(s, src.origin);
    }
  }

  /**
   With the code's rule, in every run: a copy is dead-lettered for its budget only if the budget is
   one, or its original was published with a counter that reaches the budget.
   */
  lemma ExhaustedOnlyIf<C(!new), A(!new)>(cfg: Config, s: State<C, A>, c: C)
    requires cfg.rule == ResetToOne && cfg.nestedMax >= 2
    requires Reaches(cfg, Empty<C, A>(), s) && c in s.copies
    ensures s.copies[c].why == Exhausted ==>
              cfg.maxRetries <= 1
              || (IsOrigin(s, s.copies[c].origin) && AtLeast(s.copies[s.copies[c].origin].count, cfg.maxRetries))
    ensures s.copies[c].place == Retry ==> s.copies[c].count == Some(1)
  {
    var holds := (s: State<C, A>) => Inv(cfg, s) && CountsOne(cfg, s);
    forall s, step | holds(s) && Take<C, A>(cfg)(s, step).Some? ensures holds(Take<C, A>(cfg)(s, step).value) {
      StepKeepsInv(cfg, s, step);
      StepKeepsCountsOne(cfg, s, step);
    }
    Steps.ReachesKeeps(Take<C, A>(cfg), holds, Empty<C, A>(), s);
    assert IsOrigin(s, s.copies[c].origin);
  }

  /** How many moves to the retry queue lie on the way to a copy. */
  ghost predicate HopsCounted<C(!new), A(!new)>(cfg: Config, s: State<C, A>) {
    forall c :: c in s.copies ==>
      var m := s.copies[c];
      && (cfg.rule == ResetToOne && m.place != Dlq && m.why != Fresh ==> m.count == Some(1))
      && (cfg.rule == IncrementSource && m.place != Dlq ==> m.count.Some? && m.hops <= m.count.value)
      && (cfg.rule == IncrementSource || cfg.maxRetries == 1 ==> m.hops <= cfg.maxRetries)
      && (m.why != Fresh && m.place != Dlq && m.hops == 0 ==> cfg.rule == IncrementSource)
  }

  lemma StepKeepsHops<C(!new), A(!new)>(cfg: Config, s: State<C, A>, step: Step<C, A>)
    requires cfg.maxRetries >= 1 && cfg.nestedMax >= 2
    requires WellFormed(cfg, s) && CleanOrigins(s) && HopsCounted(cfg, s)
    requires Enabled(cfg, s, step) && CleanOrigins(Apply(cfg, s, step))
    ensures HopsCounted(cfg, Apply(cfg, s, step))
  {
    var s' := Apply(cfg, s, step);
    if step.Enqueue? {
      var src := s.copies[step.from];
      assert src.why == Fresh ==> IsOrigin(s, step.from);
    }
    if step.Originate? {
      assert IsOrigin(s', step.c);
    }
  }

  lemma OriginsStay<C(!new), A(!new)>(cfg: Config, s: State<C, A>, step: Step<C, A>)
    requires Enabled(cfg, s, step) && CleanOrigins(Apply(cfg, s, step))
    ensures CleanOrigins(s)
  {
    var s' := Apply(cfg, s, step);
    assert forall o :: IsOrigin(s, o) ==> IsOrigin(s', o) && s'.copies[o] == s.copies[o];
  }

  /**
   With the documented rule a copy has at most maxRetries moves to the retry queue on its line of
   descent, so the handler sees at most maxRetries + 1 copies along it. With the code's rule that
   holds for a budget of one.
   */
  lemma BudgetBoundsRetries<C(!new), A(!new)>(cfg: Config, s: State<C, A>, c: C)
    requires cfg.rule == IncrementSource || cfg.maxRetries == 1
    requires cfg.maxRetries >= 1 && cfg.nestedMax >= 2
    requires Reaches(cfg, Empty<C, A>(), s) && CleanOrigins(s) && c in s.copies
    ensures s.copies[c].hops <= cfg.maxRetries
  {
    var holds := (s: State<C, A>) => Inv(cfg, s) && (CleanOrigins(s) ==> HopsCounted(cfg, s));
    forall s, step | holds(s) && Take<C, A>(cfg)(s, step).Some? ensures holds(Take<C, A>(cfg)(s, step).value) {
      StepKeepsInv(cfg, s, step);
      if CleanOrigins(Apply(cfg, s, step)) {
        OriginsStay(cfg, s, step);
        StepKeepsHops(cfg, s, step);
      }
    }
    Steps.ReachesKeeps(Take<C, A>(cfg), holds, Empty<C, A>(), s);
  }

  /** One published message without a counter. */
  lemma OneMessage(cfg: Config) returns (s: State<nat, string>)
    ensures Reaches(cfg, Empty<nat, string>(), s) && CleanOrigins(s)
    ensures s.copies.Keys == {0} && s.copies[0].place == Main
    ensures s.copies[0] == Copy(Main, 0, None, None, "", Some(0), 0, Fresh)
  {
    var m := Copy(Main, 0, None, None, "", Some(0), 0, Fresh);
    var start := Empty<nat, string>();
    ReachesByStep(cfg, start, Originate(0, m));
    s := Apply(cfg, start, Originate(0, m));
  }

  /** The n retry copies of message 0 that n publishes without an answer leave behind. */
  ghost predicate Duplicated(s: State<nat, string>, n: nat) {
    && (forall k: nat :: k in s.copies <==> k <= n)
    && s.copies[0] == Copy(Main, 0, None, None, "", Some(0), 0, Fresh)
    && forall k :: 1 <= k <= n ==> s.copies[k] == Copy(Retry, 0, None, None, "", Some(1), 1, Failed)
  }

  /**
   That bound is along one line of descent. The number of copies of one message that enter the
   retry queue is not bounded, under either rule: a publish can land without its acknowledgement.
   */
  lemma {:induction false} EntriesUnbounded(cfg: Config, n: nat) returns (s: State<nat, string>)
    requires cfg.maxRetries >= 1
    ensures Reaches(cfg, Empty<nat, string>(), s) && CleanOrigins(s) && Duplicated(s, n)
  {
    if n == 0 {
      s := OneMessage(cfg);
    } else {
      var before := EntriesUnbounded(cfg, n - 1);
      var step := Enqueue(0, n, Copy(Retry, 0, None, None, "", Some(1), 1, Failed), false);
      assert Enabled(cfg, before, step);
      ReachesByStep(cfg, before, step);
      s := Apply(cfg, before, step);
      ReachesTrans(cfg, Empty<nat, string>(), before, s);
      DuplicateAdded(before, s, n);
    }
  }

  lemma DuplicateAdded(before: State<nat, string>, s: State<nat, string>, n: nat)
    requires n >= 1 && Duplicated(before, n - 1)
    requires s.copies == before.copies[n := Copy(Retry, 0, None, None, "", Some(1), 1, Failed)]
    ensures Duplicated(s, n) && CleanOrigins(s)
  {
    assert forall o :: IsOrigin(s, o) ==> o == 0;
  }

  lemma OneMoreRoundFromEmpty(cfg: Config, s0: State<nat, string>, c0: nat) returns (s: State<nat, string>)
    requires cfg.rule == ResetToOne
    requires Reaches(cfg, Empty<nat, string>(), s0) && CleanOrigins(s0)
    requires c0 in s0.copies && s0.copies[c0].place == Main && Below(s0.copies[c0].count, cfg.maxRetries)
    requires forall k :: k in s0.copies ==> k <= c0
    ensures Reaches(cfg, Empty<nat, string>(), s) && CleanOrigins(s)
    ensures s.copies.Keys == s0.copies.Keys + {c0 + 1, c0 + 2}
    ensures s.copies[c0 + 2].place == Main && s.copies[c0 + 2].hops == s0.copies[c0].hops + 1
    ensures s.copies[c0 + 2].count == Some(1)
  {
    ReachesKeepsInv(cfg, Empty<nat, string>(), s0);
    s := OneMoreRound(cfg, s0, c0);
    ReachesTrans(cfg, Empty<nat, string>(), s0, s);
  }

  /** One failed handling and one move back to the main queue. */
  lemma OneMoreRound(cfg: Config, s0: State<nat, string>, c0: nat) returns (s: State<nat, string>)
    requires cfg.rule == ResetToOne
    requires WellFormed(cfg, s0) && CleanOrigins(s0)
    requires c0 in s0.copies && s0.copies[c0].place == Main && Below(s0.copies[c0].count, cfg.maxRetries)
    requires forall k :: k in s0.copies ==> k <= c0
    ensures Reaches(cfg, s0, s) && CleanOrigins(s)
    ensures s.copies.Keys == s0.copies.Keys + {c0 + 1, c0 + 2}
    ensures s.copies[c0 + 2].place == Main && s.copies[c0 + 2].hops == s0.copies[c0].hops + 1
    ensures s.copies[c0 + 2].count == Some(1)
  {
    var m0 := s0.copies[c0];
    assert IsOrigin(s0, m0.origin);
    var m1 := m0.(place := Retry, why := Failed, count := Some(1), hops := m0.hops + 1);
    var toRetry := Enqueue(c0, c0 + 1, m1, true);
    var s1 := Apply(cfg, s0, toRetry);
    ReachesByStep(cfg, s0, toRetry);
    var back := Enqueue(c0 + 1, c0 + 2, m1.(place := Main, why := Returned), true);
    s := Apply(cfg, s1, back);
    ReachesByStep(cfg, s1, back);
    ReachesTrans(cfg, s0, s1, s);
    assert forall o :: IsOrigin(s, o) ==> IsOrigin(s0, o) && s.copies[o] == s0.copies[o];
  }

  /**
   With the code's rule and a budget of at least two the documented bound fails by any margin:
   for every n there is a run whose single message entered the retry queue n times.
   */
  lemma {:induction false} RetriesUnbounded(cfg: Config, n: nat) returns (s: State<nat, string>, c: nat)
    requires cfg.rule == ResetToOne && cfg.maxRetries >= 2
    ensures Reaches(cfg, Empty<nat, string>(), s) && CleanOrigins(s)
    ensures c in s.copies && s.copies[c].hops == n && s.copies[c].place == Main
    ensures s.copies[c].count.Some? && s.copies[c].count.value <= 1
    ensures forall k :: k in s.copies ==> k <= c
  {
    if n == 0 {
      s := OneMessage(cfg);
      c := 0;
    } else {
      var s0, c0 := RetriesUnbounded(cfg, n - 1);
      s := OneMoreRoundFromEmpty(cfg, s0, c0);
      c := c0 + 2;
    }
  }

  /** Some run whose original messages carry no counter dead-letters a copy for its budget. */
  ghost predicate CanExhaust(cfg: Config) {
    exists s: State<nat, string>, c :: Reaches(cfg, Empty<nat, string>(), s) && ExhaustedIn(s, c)
  }

  ghost predicate ExhaustedIn(s: State<nat, string>, c: nat) {
    CleanOrigins(s) && c in s.copies && s.copies[c].why == Exhausted
  }

  /** With the code's rule the budget is ever exhausted exactly when it is one. */
  lemma ExhaustionNeedsBudgetOne(cfg: Config)
    requires cfg.rule == ResetToOne && cfg.maxRetries >= 1 && cfg.nestedMax >= 2
    ensures CanExhaust(cfg) <==> cfg.maxRetries == 1
  {
    if cfg.maxRetries == 1 {
      ExhaustsWithOne(cfg);
    } else if CanExhaust(cfg) {
      var s: State<nat, string>, c :| Reaches(cfg, Empty<nat, string>(), s) && ExhaustedIn(s, c);
      ExhaustedOnlyIf(cfg, s, c);
    }
  }

  lemma ExhaustsWithOne(cfg: Config)
    requires cfg.rule == ResetToOne && cfg.maxRetries == 1 && cfg.nestedMax >= 2
    ensures CanExhaust(cfg)
  {
    var s1 := OneRound(cfg);
    var s := GiveUp(cfg, s1, 2);
    ReachesTrans(cfg, Empty<nat, string>(), s1, s);
    assert ExhaustedIn(s, 3);
  }

  lemma OneRound(cfg: Config) returns (s: State<nat, string>)
    requires cfg.rule == ResetToOne && cfg.maxRetries >= 1
    ensures Reaches(cfg, Empty<nat, string>(), s) && CleanOrigins(s)
    ensures 2 in s.copies && 3 !in s.copies && s.copies[2].place == Main && s.copies[2].count == Some(1)
    ensures s.copies[2].origin in s.copies
  {
    var s0 := OneMessage(cfg);
    s := OneMoreRoundFromEmpty(cfg, s0, 0);
    assert 2 in s.copies.Keys && 3 !in s.copies.Keys;
    OriginsAreCopies(cfg, s);
  }

  lemma OriginsAreCopies(cfg: Config, s: State<nat, string>)
    requires Reaches(cfg, Empty<nat, string>(), s)
    ensures forall c :: c in s.copies ==> s.copies[c].origin in s.copies
  {
    ReachesKeepsInv(cfg, Empty<nat, string>(), s);
    assert forall c :: c in s.copies ==> IsOrigin(s, s.copies[c].origin);
  }

  lemma GiveUp(cfg: Config, s1: State<nat, string>, c1: nat) returns (s: State<nat, string>)
    requires CleanOrigins(s1) && c1 in s1.copies && c1 + 1 !in s1.copies
    requires s1.copies[c1].place == Main && AtLeast(s1.copies[c1].count, cfg.maxRetries)
    requires s1.copies[c1].origin in s1.copies
    ensures Reaches(cfg, s1, s) && CleanOrigins(s)
    ensures c1 + 1 in s.copies && s.copies[c1 + 1].why == Exhausted
  {
    var m1 := s1.copies[c1];
    var give := Enqueue(c1, c1 + 1, m1.(place := Dlq, why := Exhausted, body := Cut(m1.body, cfg.mainCut)), true);
    ReachesByStep(cfg, s1, give);
    s := Apply(cfg, s1, give);
    assert forall o :: IsOrigin(s, o) ==> IsOrigin(s1, o) && s.copies[o] == s1.copies[o];
  }
}
