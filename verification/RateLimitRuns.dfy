/** What the limiter store does over whole runs of requests. */
module RateLimitRuns {
  import opened Base
  import opened RateLimit

  datatype Req = Req(key: string, now: int)

  datatype State = State(order: seq<Item>, created: nat)

  function Start(): State { State([], 0) }

  function Serve(p: Params, s: State, r: Req): State {
    State(AfterGet(p, s.order, r.key, r.now, s.created), if Has(s.order, r.key) then s.created else s.created + 1)
  }

  /** The limiter a request is given. */
  function Given(s: State, r: Req): Limiter { Granted(s.order, r.key, s.created) }

  function After(p: Params, s: State, reqs: seq<Req>): State {
    if reqs == [] then s else Serve(p, After(p, s, reqs[..|reqs| - 1]), reqs[|reqs| - 1])
  }

  /** Requests in the order of a clock that starts at `t` and does not go back. */
  predicate InOrder(t: int, reqs: seq<Req>) {
    && (forall i :: 0 <= i < |reqs| ==> t <= reqs[i].now)
    && (forall i, j :: 0 <= i < j < |reqs| ==> reqs[i].now <= reqs[j].now)
  }

  function Last(t: int, reqs: seq<Req>): int { if reqs == [] then t else reqs[|reqs| - 1].now }

  // ----- the store's invariant -----------------------------------------------------------------

  predicate DistinctKeys(order: seq<Item>) { forall i, j :: 0 <= i < j < |order| ==> order[i].key != order[j].key }

  /** Most recently seen first, and none later than `t`. */
  predicate ByRecency(order: seq<Item>, t: int) {
    && (forall i, j :: 0 <= i < j < |order| ==> order[i].lastSeen >= order[j].lastSeen)
    && (forall i :: 0 <= i < |order| ==> order[i].lastSeen <= t)
  }

  predicate Ok(p: Params, s: State, t: int) {
    && DistinctKeys(s.order) && ByRecency(s.order, t) && |s.order| <= p.maxSize
    && forall i :: 0 <= i < |s.order| ==> s.order[i].limiter < s.created
  }

  /** Where each entry of a touched list comes from. */
  function Source(i: nat, j: nat): nat { if j == 0 then i else if j <= i then j - 1 else j }

  lemma TouchedAt(order: seq<Item>, i: nat, now: int, j: nat)
    requires i < |order| && j < |order|
    ensures |Touch(order, i, now)| == |order|
    ensures Touch(order, i, now)[j] == if j == 0 then order[i].(lastSeen := now) else order[Source(i, j)]
  {
  }

  lemma EvictIsShort(p: Params, now: int, order: seq<Item>)
    requires p.maxSize >= 1
    ensures |Evict(p, now, order)| < p.maxSize
  {
  }

  lemma HitKeepsOk(p: Params, s: State, t: int, r: Req)
    requires Ok(p, s, t) && t <= r.now && Has(s.order, r.key)
    ensures Ok(p, Serve(p, s, r), r.now)
  {
    var i := IndexOf(s.order, r.key);
    var next := Touch(s.order, i, r.now);
    forall j | 0 <= j < |next|
      ensures next[j] == if j == 0 then s.order[i].(lastSeen := r.now) else s.order[Source(i, j)]
    {
      TouchedAt(s.order, i, r.now, j);
    }
    assert |next| == |s.order|;
  }

  lemma MissKeepsOk(p: Params, s: State, t: int, r: Req)
    requires p.maxSize >= 1 && Ok(p, s, t) && t <= r.now && !Has(s.order, r.key)
    ensures Ok(p, Serve(p, s, r), r.now)
  {
    var kept := Evict(p, r.now, s.order);
    EvictIsShort(p, r.now, s.order);
    assert kept == s.order[..|kept|];
    assert forall i :: 0 <= i < |kept| ==> kept[i] == s.order[i] && s.order[i].key != r.key;
  }

  /**
   In every run, with a clock that does not go back, the store holds at most maxSize entries with
   distinct keys, ordered by recency.
   */
  lemma {:induction false} RunsKeepOk(p: Params, s: State, t: int, reqs: seq<Req>)
    requires p.maxSize >= 1 && Ok(p, s, t) && InOrder(t, reqs)
    ensures Ok(p, After(p, s, reqs), Last(t, reqs))
  {
    if reqs != [] {
      var n := |reqs| - 1;
      RunsKeepOk(p, s, t, reqs[..n]);
      var before := After(p, s, reqs[..n]);
      assert Last(t, reqs[..n]) <= reqs[n].now;
      if Has(before.order, reqs[n].key) {
        HitKeepsOk(p, before, Last(t, reqs[..n]), reqs[n]);
      } else {
        MissKeepsOk(p, before, Last(t, reqs[..n]), reqs[n]);
      }
    }
  }

  // ----- what a miss evicts ------------------------------------------------------------------

  /**
   A miss keeps exactly the entries no older than the TTL, except the oldest one when none is older
   and the store is full. A TTL of zero or less is none.
   */
  lemma EvictExact(p: Params, now: int, order: seq<Item>, t: int)
    requires p.maxSize >= 1 && |order| <= p.maxSize && ByRecency(order, t)
    ensures var kept := Evict(p, now, order);
            && kept <= order
            && forall i :: 0 <= i < |order| ==>
                 (i < |kept| <==> i < p.maxSize - 1 && (p.ttl <= 0 || now - order[i].lastSeen <= p.ttl))
  {
    EvictByAge(p, now, order);
    EvictIsShort(p, now, order);
    var kept := Evict(p, now, order);
    forall i | 0 <= i < |order|
      ensures i < |kept| <==> i < p.maxSize - 1 && (p.ttl <= 0 || now - order[i].lastSeen <= p.ttl)
    {
      if i < |kept| {
        assert order[i].lastSeen >= order[|kept| - 1].lastSeen && kept[|kept| - 1] == order[|kept| - 1];
      } else {
        assert |kept| <= i;
      }
    }
  }

  // ----- retention -----------------------------------------------------------------------------

  function KeysOf(reqs: seq<Req>): (d: set<string>)
    ensures forall k :: k in d <==> exists i :: 0 <= i < |reqs| && reqs[i].key == k
  {
    if reqs == [] then {} else KeysOf(reqs[..|reqs| - 1]) + {reqs[|reqs| - 1].key}
  }

  function FrontKeys(order: seq<Item>, n: nat): (d: set<string>)
    requires n <= |order|
    ensures forall k :: k in d <==> exists i :: 0 <= i < n && order[i].key == k
  {
    set i | 0 <= i < n :: order[i].key
  }

  /** `item` is in the list behind exactly the keys in `d`. */
  predicate Behind(order: seq<Item>, item: Item, d: set<string>) {
    |d| < |order| && order[|d|] == item && FrontKeys(order, |d|) == d
  }

  lemma FrontStep(order: seq<Item>, n: nat)
    requires 0 < n <= |order|
    ensures FrontKeys(order, n) == FrontKeys(order, n - 1) + {order[n - 1].key}
  {
    var d := FrontKeys(order, n - 1) + {order[n - 1].key};
    forall k: string ensures k in FrontKeys(order, n) <==> k in d {
      if k in FrontKeys(order, n) {
        var i :| 0 <= i < n && order[i].key == k;
      }
      if k in FrontKeys(order, n - 1) {
        var i :| 0 <= i < n - 1 && order[i].key == k;
      }
    }
  }

  lemma FrontIsFresh(order: seq<Item>, n: nat)
    requires n < |order| && DistinctKeys(order)
    ensures order[n].key !in FrontKeys(order, n)
  {
  }

  lemma {:induction false} FrontSize(order: seq<Item>, n: nat)
    requires n <= |order| && DistinctKeys(order)
    ensures |FrontKeys(order, n)| == n
  {
    if n == 0 {
      FrontNone(order);
    } else {
      FrontSize(order, n - 1);
      FrontGrows(order, n);
    }
  }

  lemma FrontGrows(order: seq<Item>, n: nat)
    requires 0 < n <= |order| && DistinctKeys(order)
    ensures |FrontKeys(order, n)| == |FrontKeys(order, n - 1)| + 1
  {
    var d := FrontKeys(order, n - 1);
    FrontStep(order, n);
    FrontIsFresh(order, n - 1);
    OneMore(d, order[n - 1].key);
  }

  lemma FrontNone(order: seq<Item>)
    ensures FrontKeys(order, 0) == {}
  {
  }

  lemma OneMore<T>(d: set<T>, k: T)
    ensures |d + {k}| == if k in d then |d| else |d| + 1
  {
    if k in d {
      assert d + {k} == d;
    }
  }

  /** A request for a key in front of the item leaves it in place. */
  lemma HitInFront(p: Params, s: State, r: Req, item: Item, d: set<string>)
    requires DistinctKeys(s.order) && Behind(s.order, item, d) && r.key in d && r.key != item.key
    ensures Behind(Serve(p, s, r).order, item, d)
  {
    var n := |d|;
    var j :| 0 <= j < n && s.order[j].key == r.key;
    assert IndexOf(s.order, r.key) == j;
    TouchInFront(s.order, j, n, r.now);
  }

  /** Touching one of the first n entries reorders them only. */
  lemma TouchInFront(order: seq<Item>, i: nat, n: nat, now: int)
    requires i < n < |order|
    ensures |Touch(order, i, now)| == |order| && Touch(order, i, now)[n] == order[n]
    ensures FrontKeys(Touch(order, i, now), n) == FrontKeys(order, n)
  {
    var next := Touch(order, i, now);
    TouchedAt(order, i, now, n);
    forall k: string ensures k in FrontKeys(next, n) <==> k in FrontKeys(order, n) {
      if k in FrontKeys(order, n) {
        var m :| 0 <= m < n && order[m].key == k;
        TouchedAt(order, i, now, if m == i then 0 else if m < i then m + 1 else m);
      }
      if k in FrontKeys(next, n) {
        var m :| 0 <= m < n && next[m].key == k;
        TouchedAt(order, i, now, m);
      }
    }
  }

  /** One new key in front. */
  lemma FrontShifted(order: seq<Item>, next: seq<Item>, n: nat, key: string)
    requires n <= |order| && n < |next| && next[0].key == key
    requires forall m :: 0 <= m < n ==> next[m + 1].key == order[m].key
    ensures FrontKeys(next, n + 1) == FrontKeys(order, n) + {key}
  {
    forall k: string ensures k in FrontKeys(next, n + 1) <==> k in FrontKeys(order, n) + {key} {
      if k in FrontKeys(order, n) {
        var m :| 0 <= m < n && order[m].key == k;
        assert next[m + 1].key == k;
      }
      if k in FrontKeys(next, n + 1) {
        var m :| 0 <= m < n + 1 && next[m].key == k;
        assert m > 0 ==> next[(m - 1) + 1].key == order[m - 1].key;
      }
    }
  }

  lemma FrontHolds(order: seq<Item>, n: nat, i: nat)
    requires n <= |order| && i < |order| && order[i].key !in FrontKeys(order, n)
    ensures i >= n
  {
  }

  /** A request for a key behind the item moves the item back by one. */
  lemma HitBehind(p: Params, s: State, r: Req, item: Item, d: set<string>)
    requires Behind(s.order, item, d) && r.key !in d && r.key != item.key && Has(s.order, r.key)
    ensures Behind(Serve(p, s, r).order, item, d + {r.key})
  {
    TouchKeepsBehind(s.order, IndexOf(s.order, r.key), r.now, item, d);
  }

  lemma TouchKeepsBehind(order: seq<Item>, i: nat, now: int, item: Item, d: set<string>)
    requires Behind(order, item, d) && i < |order| && order[i].key !in d && order[i].key != item.key
    ensures Behind(Touch(order, i, now), item, d + {order[i].key})
  {
    FrontHolds(order, |d|, i);
    TouchBehind(order, i, |d|, now);
    OneMore(d, order[i].key);
  }

  lemma TouchBehind(order: seq<Item>, i: nat, n: nat, now: int)
    requires n < i < |order|
    ensures Touch(order, i, now)[n + 1] == order[n]
    ensures FrontKeys(Touch(order, i, now), n + 1) == FrontKeys(order, n) + {order[i].key}
  {
    var next := Touch(order, i, now);
    TouchedAt(order, i, now, 0);
    forall m | 0 <= m < n + 1 ensures next[m + 1] == order[m] {
      TouchedAt(order, i, now, m + 1);
    }
    FrontShifted(order, next, n, order[i].key);
  }

  /** The item is older than the TTL. */
  predicate TooOld(p: Params, item: Item, now: int) { p.ttl > 0 && now - item.lastSeen > p.ttl }

  /** A miss keeps a live item when the list in front of it, with the new key, stays below maxSize. */
  lemma MissInFront(p: Params, s: State, t: int, r: Req, item: Item, d: set<string>)
    requires p.maxSize >= 1 && Ok(p, s, t) && Behind(s.order, item, d) && !Has(s.order, r.key)
    requires !TooOld(p, item, r.now) && |d| + 1 < p.maxSize
    ensures Behind(Serve(p, s, r).order, item, d + {r.key})
  {
    EvictExact(p, r.now, s.order, t);
    var kept := Evict(p, r.now, s.order);
    NewInFront(s.order, kept, Item(r.key, s.created, r.now), item, d);
  }

  /** A miss drops an item that is too old. */
  lemma MissDropsOld(p: Params, s: State, t: int, r: Req, item: Item, d: set<string>)
    requires p.maxSize >= 1 && Ok(p, s, t) && Behind(s.order, item, d) && !Has(s.order, r.key)
    requires TooOld(p, item, r.now) && r.key != item.key
    ensures !Has(Serve(p, s, r).order, item.key)
  {
    EvictExact(p, r.now, s.order, t);
    var kept := Evict(p, r.now, s.order);
    assert |kept| <= |d|;
    assert forall m :: 0 <= m < |kept| ==> kept[m] == s.order[m] && s.order[m].key != item.key;
  }

  lemma NewInFront(order: seq<Item>, kept: seq<Item>, first: Item, item: Item, d: set<string>)
    requires Behind(order, item, d) && !Has(order, first.key) && kept <= order && |d| < |kept|
    ensures Behind([first] + kept, item, d + {first.key})
  {
    var next := [first] + kept;
    assert forall m :: 0 <= m < |kept| ==> next[m + 1] == order[m];
    FrontShifted(order, next, |d|, first.key);
    OneMore(d, first.key);
  }

  /** A miss for the maxSize-th distinct key evicts the item. */
  lemma MissEvicts(p: Params, s: State, t: int, r: Req, item: Item, d: set<string>)
    requires p.maxSize >= 1 && Ok(p, s, t) && Behind(s.order, item, d) && !Has(s.order, r.key)
    requires |d| + 1 >= p.maxSize && r.key != item.key
    ensures !Has(Serve(p, s, r).order, item.key)
  {
    EvictIsShort(p, r.now, s.order);
    var kept := Evict(p, r.now, s.order);
    assert forall m :: 0 <= m < |kept| ==> kept[m] == s.order[m] && s.order[m].key != item.key;
  }

  /** A key that is not in the store is not put there by requests for other keys. */
  lemma StaysAway(p: Params, s: State, r: Req, key: string)
    requires !Has(s.order, key) && r.key != key
    ensures !Has(Serve(p, s, r).order, key)
  {
    var next := Serve(p, s, r).order;
    forall j | 0 <= j < |next| ensures next[j].key != key {
      if Has(s.order, r.key) {
        TouchedAt(s.order, IndexOf(s.order, r.key), r.now, j);
      } else if j > 0 {
        assert next[j] == s.order[j - 1];
      }
    }
  }

  predicate NoneFor(key: string, reqs: seq<Req>) { forall i :: 0 <= i < |reqs| ==> reqs[i].key != key }

  /** A request for a key that is not in the store, later than the TTL after the item was seen. */
  predicate LateMiss(p: Params, s: State, item: Item, reqs: seq<Req>) {
    reqs != [] &&
    var n := |reqs| - 1;
    || LateMiss(p, s, item, reqs[..n])
    || (p.ttl > 0 && reqs[n].now - item.lastSeen > p.ttl && !Has(After(p, s, reqs[..n]).order, reqs[n].key))
  }

  /** Nothing has evicted the item: fewer than maxSize distinct keys, and no late miss. */
  predicate Stays(p: Params, s: State, item: Item, reqs: seq<Req>) {
    |KeysOf(reqs)| < p.maxSize && !LateMiss(p, s, item, reqs)
  }

  /**
   While requests for other keys follow, an item is in the list behind exactly the distinct keys
   requested since, until they are maxSize or a miss comes later than the TTL, and gone afterwards.
   */
  lemma {:induction false} PositionIsDistinctKeys(p: Params, s: State, t: int, item: Item, reqs: seq<Req>)
    requires p.maxSize >= 1 && Ok(p, s, t) && Behind(s.order, item, {}) && InOrder(t, reqs)
    requires NoneFor(item.key, reqs)
    ensures Stays(p, s, item, reqs) ==> Behind(After(p, s, reqs).order, item, KeysOf(reqs))
    ensures !Stays(p, s, item, reqs) ==> !Has(After(p, s, reqs).order, item.key)
    ensures s.created <= After(p, s, reqs).created
  {
    if reqs != [] {
      var n := |reqs| - 1;
      var before, r := reqs[..n], reqs[n];
      assert Last(t, before) <= r.now;
      PositionIsDistinctKeys(p, s, t, item, before);
      RunsKeepOk(p, s, t, before);
      var now := After(p, s, before);
      StaysStep(p, s, item, reqs);
      if !Stays(p, s, item, before) {
        StaysAway(p, now, r, item.key);
      } else if TooOld(p, item, r.now) && !Has(now.order, r.key) {
        MissDropsOld(p, now, Last(t, before), r, item, KeysOf(before));
      } else {
        OneMoreRequest(p, now, Last(t, before), r, item, KeysOf(before));
      }
    }
  }

  lemma KeysSnoc(reqs: seq<Req>)
    requires reqs != []
    ensures KeysOf(reqs) == KeysOf(reqs[..|reqs| - 1]) + {reqs[|reqs| - 1].key}
  {
  }

  lemma LateSnoc(p: Params, s: State, item: Item, reqs: seq<Req>)
    requires reqs != []
    ensures var before, r := reqs[..|reqs| - 1], reqs[|reqs| - 1];
            && After(p, s, reqs) == Serve(p, After(p, s, before), r)
            && (LateMiss(p, s, item, reqs) <==>
                  LateMiss(p, s, item, before) || (TooOld(p, item, r.now) && !Has(After(p, s, before).order, r.key)))
  {
  }

  lemma StaysStep(p: Params, s: State, item: Item, reqs: seq<Req>)
    requires reqs != []
    ensures var before, r := reqs[..|reqs| - 1], reqs[|reqs| - 1];
            && KeysOf(reqs) == KeysOf(before) + {r.key} && After(p, s, reqs) == Serve(p, After(p, s, before), r)
            && (Stays(p, s, item, reqs) <==>
                  && Stays(p, s, item, before) && |KeysOf(before) + {r.key}| < p.maxSize
                  && !(TooOld(p, item, r.now) && !Has(After(p, s, before).order, r.key)))
  {
    KeysSnoc(reqs);
    LateSnoc(p, s, item, reqs);
    OneMore(KeysOf(reqs[..|reqs| - 1]), reqs[|reqs| - 1].key);
  }

  lemma OneMoreRequest(p: Params, s: State, t: int, r: Req, item: Item, d: set<string>)
    requires p.maxSize >= 1 && Ok(p, s, t) && r.key != item.key && (TooOld(p, item, r.now) ==> Has(s.order, r.key))
    requires |d| < p.maxSize && Behind(s.order, item, d)
    ensures |d + {r.key}| < p.maxSize ==> Behind(Serve(p, s, r).order, item, d + {r.key})
    ensures |d + {r.key}| >= p.maxSize ==> !Has(Serve(p, s, r).order, item.key)
  {
    if r.key in d {
      assert d + {r.key} == d;
      HitInFront(p, s, r, item, d);
    } else {
      assert |d + {r.key}| == |d| + 1;
      if Has(s.order, r.key) {
        HitBehind(p, s, r, item, d);
      } else if |d| + 1 < p.maxSize {
        MissInFront(p, s, t, r, item, d);
      } else {
        MissEvicts(p, s, t, r, item, d);
      }
    }
  }

  /**
   Retention over whole runs: after any requests, two requests for a key with only other keys
   between them are given the same limiter exactly when fewer than maxSize distinct keys were
   requested in between, and none of these requests was a miss later than the TTL after the first.
   */
  lemma RetentionIff(p: Params, earlier: seq<Req>, t0: int, first: Req, between: seq<Req>, second: Req)
    requires p.maxSize >= 1 && InOrder(t0, earlier + [first] + between + [second])
    requires first.key == second.key && NoneFor(first.key, between)
    ensures var s0 := After(p, Start(), earlier);
            var s := Serve(p, s0, first);
            var s1 := After(p, s, between);
            Given(s1, second) == Given(s0, first) <==>
            |KeysOf(between)| < p.maxSize && !LateMiss(p, s, Item(first.key, Given(s0, first), first.now), between)
  {
    PartsInOrder(t0, earlier, first, between, second);
    RunsKeepOk(p, Start(), t0, earlier);
    var s0 := After(p, Start(), earlier);
    RunsKeepOk(p, s0, Last(t0, earlier), [first]);
    assert [first][..0] == [] && After(p, s0, [first]) == Serve(p, s0, first);
    FromFirst(p, s0, Last(t0, earlier), first, between, second);
  }

  lemma PartsInOrder(t0: int, earlier: seq<Req>, first: Req, between: seq<Req>, second: Req)
    requires InOrder(t0, earlier + [first] + between + [second])
    ensures InOrder(t0, earlier) && InOrder(Last(t0, earlier), [first]) && InOrder(first.now, between)
    ensures Last(first.now, between) <= second.now
  {
    var all := earlier + [first] + between + [second];
    assert forall i :: 0 <= i < |earlier| ==> all[i] == earlier[i];
    assert all[|earlier|] == first && all[|all| - 1] == second;
    assert forall i :: 0 <= i < |between| ==> all[|earlier| + 1 + i] == between[i];
  }

  lemma FromFirst(p: Params, s0: State, t: int, first: Req, between: seq<Req>, second: Req)
    requires p.maxSize >= 1 && Ok(p, s0, t) && Ok(p, Serve(p, s0, first), first.now)
    requires InOrder(first.now, between) && Last(first.now, between) <= second.now
    requires first.key == second.key && NoneFor(first.key, between)
    ensures var s := Serve(p, s0, first);
            var s1 := After(p, s, between);
            Given(s1, second) == Given(s0, first) <==>
            Stays(p, s, Item(first.key, Given(s0, first), first.now), between)
  {
    var s := Serve(p, s0, first);
    var item := s.order[0];
    assert item == Item(first.key, Given(s0, first), first.now);
    assert FrontKeys(s.order, 0) == {};
    PositionIsDistinctKeys(p, s, first.now, item, between);
    var s1 := After(p, s, between);
    RunsKeepOk(p, s, first.now, between);
    if Stays(p, s, item, between) {
      var n := |KeysOf(between)|;
      assert s1.order[n].key == second.key;
      assert IndexOf(s1.order, second.key) == n;
    } else {
      assert item.limiter < s.created;
    }
  }

  /** Within the TTL nothing comes too late. */
  lemma {:induction false} NoLateMiss(p: Params, s: State, item: Item, reqs: seq<Req>)
    requires p.ttl > 0 ==> forall i :: 0 <= i < |reqs| ==> reqs[i].now - item.lastSeen <= p.ttl
    ensures !LateMiss(p, s, item, reqs)
  {
    if reqs != [] {
      NoLateMiss(p, s, item, reqs[..|reqs| - 1]);
    }
  }
}
