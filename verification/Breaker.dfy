/**
 The registry of named circuit breakers: one call without interference, and any number of calls
 that interleave at every lock operation and map access. A breaker itself is opaque: it is told
 apart by the call that created it. Durations are nanoseconds.
 */
module Breaker {
  import opened Base

  /** `tag` is the type argument of the call. */
  datatype Call = Call(name: string, tag: nat, maxRequests: nat, interval: int, timeout: int, threshold: nat)

  type Id = nat

  datatype Cb = Cb(maker: Id, name: string, tag: nat, maxRequests: nat, interval: int, timeout: int, threshold: nat)

  datatype Outcome = Returned(cb: Cb) | Panicked

  // ----- settings ------------------------------------------------------------------------------

  /** A draw below a fifth of the timeout exists; the random source panics when there is none. */
  predicate CanDraw(timeout: int) { timeout <= 0 || timeout / 5 > 0 }

  predicate IsDraw(timeout: int, draw: nat) { timeout > 0 ==> draw < timeout / 5 }

  function Jittered(timeout: int, draw: nat): int {
    if timeout > 0 then timeout - timeout / 10 + draw else timeout
  }

  /**
   The jitter is 10% either way, where the source comment says 20%: from 5 ns on, the drawn
   timeouts are exactly those from t - t/10 up to t - t/10 + t/5 - 1.
   */
  lemma JitterRange(timeout: int, r: int)
    ensures timeout <= 0 ==> (Jittered(timeout, 0) == r <==> r == timeout)
    ensures timeout > 0 ==> ((exists draw: nat :: IsDraw(timeout, draw) && Jittered(timeout, draw) == r)
                             <==> timeout - timeout / 10 <= r <= timeout - timeout / 10 + timeout / 5 - 1)
    ensures 0 < timeout && timeout - timeout / 10 <= r <= timeout - timeout / 10 + timeout / 5 - 1 ==>
              -timeout <= 10 * (r - timeout) <= timeout
    ensures CanDraw(timeout) <==> !(1 <= timeout <= 4)
  {
    if timeout > 0 && timeout - timeout / 10 <= r <= timeout - timeout / 10 + timeout / 5 - 1 {
      var draw: nat := r - (timeout - timeout / 10);
      assert IsDraw(timeout, draw) && Jittered(timeout, draw) == r;
    }
  }

  function New(call: Call, maker: Id, draw: nat): Cb {
    Cb(maker, call.name, call.tag, call.maxRequests, call.interval, Jittered(call.timeout, draw),
       if call.threshold == 0 then 5 else call.threshold)
  }

  /**
   A breaker made for a call: its name and type, its half-open allowance and interval, a threshold of
   five unless one is given, and the timeout with a jitter of a tenth either way.
   */
  predicate HasSettingsOf(cb: Cb, call: Call) {
    && cb.name == call.name && cb.tag == call.tag
    && cb.maxRequests == call.maxRequests && cb.interval == call.interval
    && cb.threshold == (if call.threshold == 0 then 5 else call.threshold)
    && (call.timeout <= 0 ==> cb.timeout == call.timeout)
    && (call.timeout > 0 ==>
          call.timeout >= 5
          && call.timeout - call.timeout / 10 <= cb.timeout < call.timeout - call.timeout / 10 + call.timeout / 5)
  }

  lemma NewHasSettings(call: Call, maker: Id, draw: nat)
    requires CanDraw(call.timeout) && IsDraw(call.timeout, draw)
    ensures HasSettingsOf(New(call, maker, draw), call) && New(call, maker, draw).maker == maker
  {
  }

  // ----- calls one after another ---------------------------------------------------------------

  /** The type assertion on the breaker that was found. */
  function Answer(call: Call, cb: Cb): Outcome { if cb.tag == call.tag then Returned(cb) else Panicked }

  type Breakers = map<string, Cb>

  function Served(bs: Breakers, call: Call, maker: Id, draw: nat): Outcome {
    if call.name in bs then Answer(call, bs[call.name])
    else if !CanDraw(call.timeout) then Panicked
    else Returned(New(call, maker, draw))
  }

  function AfterServing(bs: Breakers, call: Call, maker: Id, draw: nat): Breakers {
    if call.name !in bs && CanDraw(call.timeout) then bs[call.name := New(call, maker, draw)] else bs
  }

  class Registry {
    var breakers: Breakers

    constructor ()
      ensures breakers == map[]
    {
      breakers := map[];
    }

    /** resilience.Breaker when nothing else runs. */
    method Breaker(call: Call, maker: Id, draw: nat) returns (out: Outcome)
      requires IsDraw(call.timeout, draw) || !CanDraw(call.timeout)
      modifies this
      ensures out == Served(old(breakers), call, maker, draw)
      ensures breakers == AfterServing(old(breakers), call, maker, draw)
      ensures out.Returned? ==> call.name in breakers && breakers[call.name] == out.cb && out.cb.tag == call.tag
      ensures call.name !in old(breakers) && out.Returned? ==> out.cb.maker == maker && HasSettingsOf(out.cb, call)
      ensures call.name in old(breakers) && out.Returned? ==> out.cb == old(breakers)[call.name]
      ensures out.Panicked? <==>
              if call.name in old(breakers) then old(breakers)[call.name].tag != call.tag else 1 <= call.timeout <= 4
      ensures forall name :: name in old(breakers) ==> name in breakers && breakers[name] == old(breakers)[name]
    {
      if call.name in breakers {
        return Answer(call, breakers[call.name]);
      }
      var timeout := call.timeout;
      if timeout > 0 {
        if timeout / 5 <= 0 {
          return Panicked;
        }
        timeout := timeout - timeout / 10 + draw;
      }
      var threshold := call.threshold;
      if threshold == 0 {
        threshold := 5;
      }
      var cb := Cb(maker, call.name, call.tag, call.maxRequests, call.interval, timeout, threshold);
      breakers := breakers[call.name := cb];
      out := Returned(cb);
    }
  }

  /** A call that was served, with its random draw. */
  datatype Entry = Entry(id: Id, call: Call, draw: nat)

  function Registered(log: seq<Entry>): Breakers {
    if log == [] then map[]
    else var e := log[|log| - 1]; AfterServing(Registered(log[..|log| - 1]), e.call, e.id, e.draw)
  }

  /** The outcome of the last call in a log, all of them served one after another. */
  function OutcomeAt(log: seq<Entry>, i: nat): Outcome
    requires i < |log|
  {
    Served(Registered(log[..i]), log[i].call, log[i].id, log[i].draw)
  }

  // ----- calls that interleave ------------------------------------------------------------------

  /**
   Where a call is. Hit and Miss still hold the read lock; a Waiting call has announced that it wants
   the write lock, which keeps new readers out; Locked to Leaving hold it.
   */
  datatype Pc =
    | Calling
    | Reading
    | Hit(found: Cb)
    | Miss
    | Missed
    | Waiting
    | Locked
    | Vacant
    | Made(made: Cb, draw: nat)
    | Leaving(out: Outcome)
    | Done(out: Outcome)

  datatype Thread = Thread(call: Call, pc: Pc)

  /** `created` and `log` are history: every breaker ever created, and the calls in the order they took effect. */
  datatype State = State(threads: map<Id, Thread>, readers: set<Id>, waiting: Option<Id>, writer: Option<Id>,
                         breakers: Breakers, created: seq<Cb>, log: seq<Entry>)

  datatype Step =
    | Start(t: Id, call: Call)
    | RLock(t: Id)
    | Lookup(t: Id)
    | RUnlock(t: Id)
    | Announce(t: Id)
    | Lock(t: Id)
    | Recheck(t: Id)
    | Create(t: Id, draw: nat)
    | Store(t: Id)
    | Unlock(t: Id)

  function Init(): State { State(map[], {}, None, None, map[], [], []) }

  predicate Enabled(s: State, step: Step) {
    if step.Start? then step.t !in s.threads
    else
      && step.t in s.threads
      && var pc := s.threads[step.t].pc;
      match step
      case RLock(_) => pc.Calling? && s.writer.None? && s.waiting.None?
      case Lookup(_) => pc.Reading?
      case RUnlock(_) => pc.Hit? || pc.Miss?
      // One writer at a time announces itself, waits for the readers to leave, and then has the lock.
      case Announce(_) => pc.Missed? && s.writer.None? && s.waiting.None?
      case Lock(_) => pc.Waiting? && s.readers == {}
      case Recheck(_) => pc.Locked?
      case Create(t, draw) =>
        pc.Vacant? && (CanDraw(s.threads[t].call.timeout) ==> IsDraw(s.threads[t].call.timeout, draw))
      case Store(_) => pc.Made?
      case Unlock(_) => pc.Leaving?
  }

  function At(s: State, t: Id, pc: Pc): State
    requires t in s.threads
  {
    s.(threads := s.threads[t := s.threads[t].(pc := pc)])
  }

  function Logged(s: State, t: Id, draw: nat): State
    requires t in s.threads
  {
    s.(log := s.log + [Entry(t, s.threads[t].call, draw)])
  }

  function Apply(s: State, step: Step): State
    requires Enabled(s, step)
  {
    if step.Start? then s.(threads := s.threads[step.t := Thread(step.call, Calling)])
    else
      var t, call, pc := step.t, s.threads[step.t].call, s.threads[step.t].pc;
      match step
      case RLock(_) => At(s, t, Reading).(readers := s.readers + {t})
      case Lookup(_) =>
        if call.name in s.breakers then At(Logged(s, t, 0), t, Hit(s.breakers[call.name])) else At(s, t, Miss)
      case RUnlock(_) =>
        At(s, t, if pc.Hit? then Done(Answer(call, pc.found)) else Missed).(readers := s.readers - {t})
      case Announce(_) => At(s, t, Waiting).(waiting := Some(t))
      case Lock(_) => At(s, t, Locked).(waiting := None, writer := Some(t))
      case Recheck(_) =>
        if call.name in s.breakers then At(Logged(s, t, 0), t, Leaving(Answer(call, s.breakers[call.name])))
        else At(s, t, Vacant)
      case Create(_, draw) =>
        if !CanDraw(call.timeout) then At(Logged(s, t, 0), t, Leaving(Panicked))
        else At(s, t, Made(New(call, t, draw), draw)).(created := s.created + [New(call, t, draw)])
      case Store(_) =>
        At(Logged(s, t, pc.draw), t, Leaving(Returned(pc.made))).(breakers := s.breakers[call.name := pc.made])
      case Unlock(_) => At(s, t, Done(pc.out)).(writer := None)
  }

  /** A run from an empty registry. */
  predicate IsRun(run: seq<State>, steps: seq<Step>) {
    && |run| == |steps| + 1 && run[0] == Init()
    && forall i :: 0 <= i < |steps| ==> Enabled(run[i], steps[i]) && run[i + 1] == Apply(run[i], steps[i])
  }

  // ----- what every run keeps -------------------------------------------------------------------

  predicate HoldsRead(pc: Pc) { pc.Reading? || pc.Hit? || pc.Miss? }

  predicate HoldsWrite(pc: Pc) { pc.Locked? || pc.Vacant? || pc.Made? || pc.Leaving? }

  /** A call holds and awaits what its place says. */
  predicate LockOk(s: State, t: Id)
    requires t in s.threads
  {
    && (t in s.readers <==> HoldsRead(s.threads[t].pc))
    && (s.waiting == Some(t) <==> s.threads[t].pc.Waiting?)
    && (s.writer == Some(t) <==> HoldsWrite(s.threads[t].pc))
  }

  predicate Locks(s: State) {
    && s.readers <= s.threads.Keys
    && (s.writer.Some? ==> s.writer.value in s.threads && s.readers == {} && s.waiting.None?)
    && (s.waiting.Some? ==> s.waiting.value in s.threads)
    && forall t :: t in s.threads ==> LockOk(s, t)
  }

  /** The outcome that a call is bound to have. */
  function Bound(th: Thread): Option<Outcome> {
    match th.pc
    case Hit(cb) => Some(Answer(th.call, cb))
    case Leaving(out) => Some(out)
    case Done(out) => Some(out)
    case _ => None
  }

  predicate LoggedAs(s: State, t: Id, out: Outcome)
    requires t in s.threads
  {
    exists i :: 0 <= i < |s.log| && s.log[i].id == t && s.log[i].call == s.threads[t].call && OutcomeAt(s.log, i) == out
  }

  predicate NotLogged(log: seq<Entry>, t: Id) { forall i :: 0 <= i < |log| ==> log[i].id != t }

  /** A call is in the log from the moment its outcome is bound, with that outcome. */
  predicate LogOk(s: State, t: Id)
    requires t in s.threads
  {
    var bound := Bound(s.threads[t]);
    if bound.Some? then LoggedAs(s, t, bound.value) else NotLogged(s.log, t)
  }

  predicate PcOk(s: State, t: Id)
    requires t in s.threads
  {
    var th := s.threads[t];
    && (th.pc.Vacant? || th.pc.Made? ==> th.call.name !in s.breakers)
    && (th.pc.Made? ==> th.pc.made == New(th.call, t, th.pc.draw) && CanDraw(th.call.timeout)
                        && s.created != [] && s.created[|s.created| - 1] == th.pc.made)
    && (Bound(th).Some? && Bound(th).value.Returned? ==>
          th.call.name in s.breakers && s.breakers[th.call.name] == Bound(th).value.cb)
    && (th.pc.Hit? ==> th.call.name in s.breakers && s.breakers[th.call.name] == th.pc.found)
  }

  /** The breaker that a call has created and not yet stored. */
  predicate InFlight(s: State, cb: Cb) {
    && s.writer.Some? && s.writer.value in s.threads
    && s.threads[s.writer.value].pc.Made? && s.threads[s.writer.value].pc.made == cb
  }

  predicate Stored(s: State, cb: Cb) { cb.name in s.breakers && s.breakers[cb.name] == cb }

  predicate CreatedOnce(s: State) {
    && (forall i, j :: 0 <= i < j < |s.created| ==> s.created[i].name != s.created[j].name)
    && (forall i :: 0 <= i < |s.created| ==> Stored(s, s.created[i]) || InFlight(s, s.created[i]))
    && (forall name :: name in s.breakers ==> s.breakers[name].name == name && s.breakers[name] in s.created)
  }

  predicate Inv(s: State) {
    && Locks(s)
    && s.breakers == Registered(s.log)
    && (forall t :: t in s.threads ==> LogOk(s, t))
    && (forall t :: t in s.threads ==> PcOk(s, t))
    && (forall i :: 0 <= i < |s.log| ==> s.log[i].id in s.threads)
    && CreatedOnce(s)
  }

  lemma OwnKeepsLock(s: State, step: Step)
    requires Locks(s) && Enabled(s, step)
    ensures LockOk(Apply(s, step), step.t)
  {
    assert step.t in s.threads ==> LockOk(s, step.t);
  }

  lemma OthersKeepLock(s: State, step: Step, t: Id)
    requires Locks(s) && Enabled(s, step) && t in s.threads && t != step.t
    ensures LockOk(Apply(s, step), t)
  {
    assert LockOk(s, t) && (step.t in s.threads ==> LockOk(s, step.t));
    assert Apply(s, step).threads[t] == s.threads[t];
  }

  lemma StepKeepsLocks(s: State, step: Step)
    requires Locks(s) && Enabled(s, step)
    ensures Locks(Apply(s, step))
  {
    var s' := Apply(s, step);
    OwnKeepsLock(s, step);
    forall t | t in s'.threads ensures LockOk(s', t) {
      if t != step.t {
        OthersKeepLock(s, step, t);
      }
    }
  }

  lemma OneMoreEntry(log: seq<Entry>, e: Entry)
    ensures Registered(log + [e]) == AfterServing(Registered(log), e.call, e.id, e.draw)
    ensures OutcomeAt(log + [e], |log|) == Served(Registered(log), e.call, e.id, e.draw)
    ensures forall i :: 0 <= i < |log| ==> OutcomeAt(log + [e], i) == OutcomeAt(log, i)
  {
    assert (log + [e])[..|log|] == log;
    forall i | 0 <= i < |log| ensures OutcomeAt(log + [e], i) == OutcomeAt(log, i) {
      assert (log + [e])[..i] == log[..i];
    }
  }

  /** The entry that a step adds to the log, if any. */
  function Added(s: State, step: Step): (added: seq<Entry>)
    requires Enabled(s, step)
    ensures Apply(s, step).log == s.log + added && |added| <= 1
    ensures forall e :: e in added ==> e.id == step.t
  {
    Apply(s, step).log[|s.log|..]
  }

  lemma LogGrows(s: State, step: Step)
    requires Enabled(s, step)
    ensures forall i :: 0 <= i < |s.log| ==> OutcomeAt(Apply(s, step).log, i) == OutcomeAt(s.log, i)
  {
    var added := Added(s, step);
    if added != [] {
      OneMoreEntry(s.log, added[0]);
    }
  }

  /** A step that takes effect changes the registry as the logged call would on its own. */
  lemma StepKeepsRegistered(s: State, step: Step)
    requires s.breakers == Registered(s.log) && Enabled(s, step) && (step.t in s.threads ==> PcOk(s, step.t))
    ensures Apply(s, step).breakers == Registered(Apply(s, step).log)
  {
    var added := Added(s, step);
    if added != [] {
      OneMoreEntry(s.log, added[0]);
    }
  }

  lemma OthersStayLogged(s: State, step: Step, t: Id)
    requires Enabled(s, step) && t in s.threads && t != step.t && LogOk(s, t)
    ensures LogOk(Apply(s, step), t)
  {
    var s' := Apply(s, step);
    var added := Added(s, step);
    LogGrows(s, step);
    assert s'.threads[t] == s.threads[t];
    if Bound(s.threads[t]).Some? {
      var i :| 0 <= i < |s.log| && s.log[i].id == t && s.log[i].call == s.threads[t].call
               && OutcomeAt(s.log, i) == Bound(s.threads[t]).value;
      assert s'.log[i] == s.log[i];
    } else {
      forall i | 0 <= i < |s'.log| ensures s'.log[i].id != t {
        assert i < |s.log| || s'.log[i] in added;
      }
    }
  }

  lemma OthersKeepPc(s: State, step: Step, t: Id)
    requires Locks(s) && Enabled(s, step) && t in s.threads && t != step.t && PcOk(s, t)
    requires step.t in s.threads ==> PcOk(s, step.t)
    ensures PcOk(Apply(s, step), t)
  {
    var s' := Apply(s, step);
    assert s'.threads[t] == s.threads[t];
    assert step.Store? || s'.breakers == s.breakers;
    assert step.Create? || s'.created == s.created;
    if step.Store? || step.Create? {
      assert s.writer == Some(step.t);
    }
  }

  /** The outcome a step binds its call to is the one the call would have on its own. */
  lemma BoundAsServed(s: State, step: Step)
    requires Enabled(s, step) && step.t in s.threads && PcOk(s, step.t) && Added(s, step) != []
    ensures Added(s, step)[0].id == step.t && Added(s, step)[0].call == s.threads[step.t].call
    ensures Bound(Apply(s, step).threads[step.t])
         == Some(Served(s.breakers, s.threads[step.t].call, step.t, Added(s, step)[0].draw))
  {
    var t, call, e := step.t, s.threads[step.t].call, Added(s, step)[0];
    var th := Apply(s, step).threads[t];
    match step
    case Lookup(_) => assert e == Entry(t, call, 0) && th == Thread(call, Hit(s.breakers[call.name]));
    case Recheck(_) => assert e == Entry(t, call, 0);
    case Create(_, _) => assert e == Entry(t, call, 0) && call.name !in s.breakers;
    case Store(_) => assert e == Entry(t, call, s.threads[t].pc.draw) && call.name !in s.breakers;
    case _ => assert false;
  }

  lemma OwnIsLogged(s: State, step: Step)
    requires Enabled(s, step)
    requires if step.t in s.threads then LogOk(s, step.t) && PcOk(s, step.t) else NotLogged(s.log, step.t)
    requires s.breakers == Registered(s.log)
    ensures LogOk(Apply(s, step), step.t)
  {
    var s' := Apply(s, step);
    var added := Added(s, step);
    if added == [] {
      assert s'.log == s.log;
      UnboundAsBefore(s, step);
    } else {
      BoundAsServed(s, step);
      OneMoreEntry(s.log, added[0]);
      assert s'.log[|s.log|] == added[0];
    }
  }

  lemma UnboundAsBefore(s: State, step: Step)
    requires Enabled(s, step) && Added(s, step) == []
    ensures step.t in s.threads ==> Apply(s, step).threads[step.t].call == s.threads[step.t].call
    ensures Bound(Apply(s, step).threads[step.t]) == if step.t in s.threads then Bound(s.threads[step.t]) else None
  {
  }

  lemma OwnKeepsPc(s: State, step: Step)
    requires Enabled(s, step) && (step.t in s.threads ==> PcOk(s, step.t))
    ensures PcOk(Apply(s, step), step.t)
  {
  }

  lemma StepKeepsCreated(s: State, step: Step)
    requires Locks(s) && CreatedOnce(s) && Enabled(s, step) && (step.t in s.threads ==> PcOk(s, step.t))
    ensures CreatedOnce(Apply(s, step))
  {
    var s' := Apply(s, step);
    if step.Create? && s'.created != s.created {
      CreateKeepsCreated(s, step);
    } else if step.Store? {
      StoreKeepsCreated(s, step);
    } else {
      assert s'.created == s.created && s'.breakers == s.breakers;
      forall i | 0 <= i < |s.created| && !Stored(s, s.created[i]) ensures InFlight(s', s.created[i]) {
        assert s'.writer == s.writer && s'.threads[s.writer.value] == s.threads[s.writer.value];
      }
    }
  }

  lemma CreateKeepsCreated(s: State, step: Step)
    requires Locks(s) && CreatedOnce(s) && Enabled(s, step) && step.Create? && PcOk(s, step.t)
    requires CanDraw(s.threads[step.t].call.timeout)
    ensures CreatedOnce(Apply(s, step))
  {
    var s' := Apply(s, step);
    assert s.writer == Some(step.t) && forall i :: 0 <= i < |s.created| ==> Stored(s, s.created[i]);
    forall i | 0 <= i < |s'.created| ensures Stored(s', s'.created[i]) || InFlight(s', s'.created[i]) {
      assert i < |s.created| ==> Stored(s, s.created[i]);
    }
  }

  lemma StoreKeepsCreated(s: State, step: Step)
    requires Locks(s) && CreatedOnce(s) && Enabled(s, step) && step.Store? && PcOk(s, step.t)
    ensures CreatedOnce(Apply(s, step))
  {
    var s' := Apply(s, step);
    assert s.writer == Some(step.t);
    forall i | 0 <= i < |s.created| ensures Stored(s', s.created[i]) {
      assert Stored(s, s.created[i]) || InFlight(s, s.created[i]);
    }
    forall name | name in s'.breakers ensures s'.breakers[name].name == name && s'.breakers[name] in s'.created {
    }
  }

  lemma StepKeepsInv(s: State, step: Step)
    requires Inv(s) && Enabled(s, step)
    ensures Inv(Apply(s, step))
  {
    var s' := Apply(s, step);
    assert step.t in s.threads ==> LogOk(s, step.t) && PcOk(s, step.t);
    StepKeepsLocks(s, step);
    StepKeepsRegistered(s, step);
    StepKeepsCreated(s, step);
    OwnIsLogged(s, step);
    OwnKeepsPc(s, step);
    forall t | t in s'.threads ensures LogOk(s', t) && PcOk(s', t) {
      if t != step.t {
        OthersStayLogged(s, step, t);
        OthersKeepPc(s, step, t);
      }
    }
    LogIsOfCalls(s, step);
  }

  lemma LogIsOfCalls(s: State, step: Step)
    requires Enabled(s, step) && forall i :: 0 <= i < |s.log| ==> s.log[i].id in s.threads
    ensures forall i :: 0 <= i < |Apply(s, step).log| ==> Apply(s, step).log[i].id in Apply(s, step).threads
  {
    var s' := Apply(s, step);
    var added := Added(s, step);
    assert step.t in s'.threads && s.threads.Keys <= s'.threads.Keys;
    forall i | 0 <= i < |s'.log| ensures s'.log[i].id in s'.threads {
      assert i < |s.log| || s'.log[i] in added;
    }
  }

  lemma {:induction false} RunKeepsInv(run: seq<State>, steps: seq<Step>, k: nat)
    requires IsRun(run, steps) && k < |run|
    ensures Inv(run[k])
  {
    if k > 0 {
      RunKeepsInv(run, steps, k - 1);
      assert Enabled(run[k - 1], steps[k - 1]) && run[k - 1 + 1] == Apply(run[k - 1], steps[k - 1]);
      StepKeepsInv(run[k - 1], steps[k - 1]);
    }
  }

  // ----- what callers rely on -------------------------------------------------------------------

  /**
   In every run at most one breaker is created per name, and all calls that return for a name
   return the one that the registry holds, with their own type.
   */
  lemma Singleton(run: seq<State>, steps: seq<Step>, k: nat, a: Id, b: Id)
    requires IsRun(run, steps) && k < |run|
    ensures forall i, j :: 0 <= i < j < |run[k].created| ==> run[k].created[i].name != run[k].created[j].name
    ensures var s := run[k];
            && a in s.threads && b in s.threads && s.threads[a].call.name == s.threads[b].call.name
            && s.threads[a].pc.Done? && s.threads[b].pc.Done?
            && s.threads[a].pc.out.Returned? && s.threads[b].pc.out.Returned?
            ==> s.threads[a].pc.out == s.threads[b].pc.out
  {
    RunKeepsInv(run, steps, k);
    if a in run[k].threads && b in run[k].threads {
      assert PcOk(run[k], a) && PcOk(run[k], b);
    }
  }

  /**
   Interleaved calls have the outcomes they would have one after another, in the order of the
   log: a finished call is in it with the outcome that it returned.
   */
  lemma Linearizable(run: seq<State>, steps: seq<Step>, k: nat, t: Id)
    requires IsRun(run, steps) && k < |run| && t in run[k].threads && run[k].threads[t].pc.Done?
    ensures run[k].breakers == Registered(run[k].log)
    ensures exists i :: 0 <= i < |run[k].log| && run[k].log[i].id == t && run[k].log[i].call == run[k].threads[t].call
                     && OutcomeAt(run[k].log, i) == run[k].threads[t].pc.out
  {
    RunKeepsInv(run, steps, k);
    assert LogOk(run[k], t);
  }

  lemma {:induction false} LogIsPrefix(run: seq<State>, steps: seq<Step>, j: nat, k: nat)
    requires IsRun(run, steps) && j <= k < |run|
    ensures run[j].log <= run[k].log
    decreases k
  {
    if j < k {
      LogIsPrefix(run, steps, j, k - 1);
      assert Enabled(run[k - 1], steps[k - 1]) && run[k - 1 + 1] == Apply(run[k - 1], steps[k - 1]);
      var added := Added(run[k - 1], steps[k - 1]);
    }
  }

  /** That order respects time: a call that finished before another one started comes first. */
  lemma RealTimeOrder(run: seq<State>, steps: seq<Step>, j: nat, k: nat, a: Id, b: Id, ib: nat)
    requires IsRun(run, steps) && j <= k < |run|
    requires a in run[j].threads && run[j].threads[a].pc.Done? && b !in run[j].threads
    requires ib < |run[k].log| && run[k].log[ib].id == b
    ensures exists ia :: 0 <= ia < ib && run[k].log[ia].id == a
  {
    Linearizable(run, steps, j, a);
    RunKeepsInv(run, steps, j);
    LogIsPrefix(run, steps, j, k);
    var ia :| 0 <= ia < |run[j].log| && run[j].log[ia].id == a;
    assert run[k].log[ia] == run[j].log[ia];
    assert forall m :: 0 <= m < |run[j].log| ==> run[j].log[m] == run[k].log[m] && run[j].log[m].id != b;
  }

  /** The breaker's creator is in the run, and the breaker has its settings. */
  predicate MadeBy(s: State, cb: Cb, maker: Id) {
    cb.maker == maker && maker in s.threads && HasSettingsOf(cb, s.threads[maker].call)
  }

  /** A breaker has the settings of the call that created it. */
  lemma {:induction false} SettingsOfMaker(run: seq<State>, steps: seq<Step>, k: nat, cb: Cb)
    requires IsRun(run, steps) && k < |run| && cb in run[k].created
    ensures MadeBy(run[k], cb, cb.maker)
  {
    if k > 0 {
      var s, step := run[k - 1], steps[k - 1];
      assert Enabled(s, step) && run[k - 1 + 1] == Apply(s, step);
      if cb in s.created {
        SettingsOfMaker(run, steps, k - 1, cb);
      } else {
        assert step.Create?;
        NewHasSettings(s.threads[step.t].call, step.t, step.draw);
      }
    }
  }

  /** A call panics only over another call's type or over its own timeout. */
  lemma PanicsOnlyIf(run: seq<State>, steps: seq<Step>, k: nat, t: Id)
    requires IsRun(run, steps) && k < |run| && t in run[k].threads && run[k].threads[t].pc.Done?
    ensures var s, call := run[k], run[k].threads[t].call;
            && (s.threads[t].pc.out.Panicked? ==>
                  1 <= call.timeout <= 4 || (call.name in s.breakers && s.breakers[call.name].tag != call.tag))
            && (s.threads[t].pc.out.Returned? ==> call.name in s.breakers && s.breakers[call.name].tag == call.tag)
  {
    RunKeepsInv(run, steps, k);
    var s := run[k];
    assert LogOk(s, t) && PcOk(s, t);
    var i :| 0 <= i < |s.log| && s.log[i].id == t && s.log[i].call == s.threads[t].call
             && OutcomeAt(s.log, i) == s.threads[t].pc.out;
    OutcomeStands(s.log, i);
  }

  /** What an outcome says of the registry later on. */
  lemma OutcomeStands(log: seq<Entry>, i: nat)
    requires i < |log|
    ensures var call, bs := log[i].call, Registered(log);
            match OutcomeAt(log, i)
            case Returned(cb) => call.name in bs && bs[call.name] == cb && cb.tag == call.tag
            case Panicked => 1 <= call.timeout <= 4 || (call.name in bs && bs[call.name].tag != call.tag)
  {
    var call := log[i].call;
    assert log[..i + 1][..i] == log[..i] && log[..|log|] == log;
    var before, after := Registered(log[..i]), Registered(log[..i + 1]);
    assert after == AfterServing(before, call, log[i].id, log[i].draw);
    if call.name in after {
      RegisteredGrows(log, i + 1, |log|, call.name);
    }
  }

  lemma {:induction false} RegisteredGrows(log: seq<Entry>, i: nat, k: nat, name: string)
    requires i <= k <= |log| && name in Registered(log[..i])
    ensures name in Registered(log[..k]) && Registered(log[..k])[name] == Registered(log[..i])[name]
    decreases k
  {
    if i < k {
      RegisteredGrows(log, i, k - 1, name);
      assert log[..k][..k - 1] == log[..k - 1];
    }
  }

  /** No lock is ever left behind: while a call is unfinished, some call can take a step. */
  lemma NeverStuck(run: seq<State>, steps: seq<Step>, k: nat, t: Id) returns (step: Step)
    requires IsRun(run, steps) && k < |run| && t in run[k].threads && !run[k].threads[t].pc.Done?
    ensures !step.Start? && Enabled(run[k], step)
  {
    RunKeepsInv(run, steps, k);
    var s := run[k];
    if s.writer.Some? {
      step := WriterStep(s, s.writer.value);
    } else if s.readers != {} {
      var r :| r in s.readers;
      step := if s.threads[r].pc.Reading? then Lookup(r) else RUnlock(r);
    } else if s.waiting.Some? {
      step := Lock(s.waiting.value);
    } else {
      step := if s.threads[t].pc.Calling? then RLock(t) else Announce(t);
    }
  }

  lemma WriterStep(s: State, w: Id) returns (step: Step)
    requires w in s.threads && HoldsWrite(s.threads[w].pc)
    ensures !step.Start? && Enabled(s, step)
  {
    match s.threads[w].pc
    case Locked => step := Recheck(w);
    case Vacant => step := Create(w, 0);
    case Made(_, _) => step := Store(w);
    case Leaving(_) => step := Unlock(w);
  }

  // ----- every call finishes -----------------------------------------------------------------------

  /** How many steps a call has left at most. */
  function Left(pc: Pc): nat {
    match pc
    case Calling => 9
    case Reading => 8
    case Miss => 7
    case Missed => 6
    case Waiting => 5
    case Locked => 4
    case Vacant => 3
    case Made(_, _) => 2
    case Hit(_) => 1
    case Leaving(_) => 1
    case Done(_) => 0
  }

  /** The steps that a call has taken. */
  function Taken(steps: seq<Step>, t: Id): nat {
    if steps == [] then 0 else Taken(steps[..|steps| - 1], t) + (if steps[|steps| - 1].t == t then 1 else 0)
  }

  /** However calls wait for each other, each takes ten steps at most, its start included. */
  lemma {:induction false} TenSteps(run: seq<State>, steps: seq<Step>, k: nat, t: Id)
    requires IsRun(run, steps) && k < |run|
    ensures Taken(steps[..k], t) + (if t in run[k].threads then Left(run[k].threads[t].pc) else 10) <= 10
  {
    if k > 0 {
      TenSteps(run, steps, k - 1, t);
      assert Enabled(run[k - 1], steps[k - 1]) && run[k - 1 + 1] == Apply(run[k - 1], steps[k - 1]);
      assert steps[..k][..k - 1] == steps[..k - 1];
      StepUsesOne(run[k - 1], steps[k - 1], t);
    }
  }

  lemma StepUsesOne(s: State, step: Step, t: Id)
    requires Enabled(s, step)
    ensures var before := if t in s.threads then Left(s.threads[t].pc) else 10;
            var s' := Apply(s, step);
            var after := if t in s'.threads then Left(s'.threads[t].pc) else 10;
            after + (if step.t == t then 1 else 0) <= before
  {
  }

  function TakenBy(steps: seq<Step>, ids: set<Id>): nat {
    if steps == [] then 0 else TakenBy(steps[..|steps| - 1], ids) + (if steps[|steps| - 1].t in ids then 1 else 0)
  }

  lemma {:induction false} TakenByOneMore(steps: seq<Step>, ids: set<Id>, t: Id)
    requires t in ids
    ensures TakenBy(steps, ids) == TakenBy(steps, ids - {t}) + Taken(steps, t)
  {
    if steps != [] {
      TakenByOneMore(steps[..|steps| - 1], ids, t);
    }
  }

  lemma {:induction false} TakenByAll(steps: seq<Step>, ids: set<Id>)
    requires forall s :: s in steps ==> s.t in ids
    ensures TakenBy(steps, ids) == |steps|
  {
    if steps != [] {
      TakenByAll(steps[..|steps| - 1], ids);
    }
  }

  lemma {:induction false} TakenByBound(steps: seq<Step>, ids: set<Id>)
    requires forall t :: t in ids ==> Taken(steps, t) <= 10
    ensures TakenBy(steps, ids) <= 10 * |ids|
    decreases |ids|
  {
    if ids == {} {
      TakenByNone(steps);
    } else {
      var t :| t in ids;
      TakenByOneMore(steps, ids, t);
      TakenByBound(steps, ids - {t});
    }
  }

  lemma {:induction false} TakenByNone(steps: seq<Step>)
    ensures TakenBy(steps, {}) == 0
  {
    if steps != [] {
      TakenByNone(steps[..|steps| - 1]);
    }
  }

  lemma {:induction false} StepsAreOfCalls(run: seq<State>, steps: seq<Step>, k: nat)
    requires IsRun(run, steps) && k < |run|
    ensures forall i :: 0 <= i < k ==> steps[i].t in run[k].threads
  {
    if k > 0 {
      StepsAreOfCalls(run, steps, k - 1);
      assert Enabled(run[k - 1], steps[k - 1]) && run[k - 1 + 1] == Apply(run[k - 1], steps[k - 1]);
      assert run[k - 1].threads.Keys <= run[k].threads.Keys;
    }
  }

  /**
   Every call finishes: a run has at most ten steps for each call it starts, and when nothing but a
   new call can step, all calls are done.
   */
  lemma AllFinish(run: seq<State>, steps: seq<Step>)
    requires IsRun(run, steps)
    ensures var s := run[|steps|];
            && |steps| <= 10 * |s.threads|
            && ((forall step :: Enabled(s, step) ==> step.Start?) ==>
                  forall t :: t in s.threads ==> s.threads[t].pc.Done?)
  {
    var n := |steps|;
    var s := run[n];
    assert steps[..n] == steps;
    forall t | t in s.threads.Keys ensures Taken(steps, t) <= 10 {
      TenSteps(run, steps, n, t);
    }
    StepsAreOfCalls(run, steps, n);
    TakenByAll(steps, s.threads.Keys);
    TakenByBound(steps, s.threads.Keys);
    forall t | t in s.threads && !s.threads[t].pc.Done? ensures exists step :: Enabled(s, step) && !step.Start? {
      var step := NeverStuck(run, steps, n, t);
    }
  }
}
