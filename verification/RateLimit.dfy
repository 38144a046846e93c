/**
 The per-key limiter store: a map and a recency list, bounded in size, with entries that expire.
 Times are nanoseconds from a clock that does not go back.
 */
module RateLimit {
  import opened Base

  /** A limiter, told apart by the number of limiters created before it. */
  type Limiter = nat

  /** An entry of the recency list. */
  datatype Item = Item(key: string, limiter: Limiter, lastSeen: int)

  datatype Params = Params(maxSize: int, ttl: int)

  // ----- the recency list, most recently used first -------------------------------------------

  predicate Has(order: seq<Item>, key: string) { exists i :: 0 <= i < |order| && order[i].key == key }

  function IndexOf(order: seq<Item>, key: string): (i: nat)
    requires Has(order, key)
    ensures i < |order| && order[i].key == key && forall j :: 0 <= j < i ==> order[j].key != key
  {
    if order[0].key == key then 0 else 1 + IndexOf(order[1..], key)
  }

  predicate Expired(p: Params, now: int, e: Item) { p.ttl > 0 && now - e.lastSeen > p.ttl }

  /** Whether the eviction loop removes the last entry of a list of this length. */
  predicate Evictable(p: Params, now: int, order: seq<Item>) {
    order != [] && (Expired(p, now, order[|order| - 1]) || |order| >= p.maxSize)
  }

  function Evict(p: Params, now: int, order: seq<Item>): (r: seq<Item>)
    ensures r <= order
  {
    if Evictable(p, now, order) then Evict(p, now, order[..|order| - 1]) else order
  }

  /**
   An eviction by age and size: what is kept is a prefix that ends in an entry no older than the TTL
   and leaves room for one more, and each entry behind it was older when it was the last, or one too
   many. A TTL of zero or less is none.
   */
  predicate KeptByAge(p: Params, now: int, order: seq<Item>, kept: seq<Item>) {
    && kept <= order
    && (kept != [] ==> |kept| < p.maxSize && (p.ttl <= 0 || now - kept[|kept| - 1].lastSeen <= p.ttl))
    && forall k :: |kept| <= k < |order| ==> (p.ttl > 0 && now - order[k].lastSeen > p.ttl) || k + 1 >= p.maxSize
  }

  lemma {:induction false} EvictByAge(p: Params, now: int, order: seq<Item>)
    ensures KeptByAge(p, now, order, Evict(p, now, order))
  {
    if Evictable(p, now, order) {
      var rest := order[..|order| - 1];
      EvictByAge(p, now, rest);
      assert forall k :: 0 <= k < |rest| ==> rest[k] == order[k];
    }
  }

  function Touch(order: seq<Item>, i: nat, now: int): seq<Item>
    requires i < |order|
  {
    [order[i].(lastSeen := now)] + order[..i] + order[i + 1..]
  }

  /** The list after a request for `key` at `now`; a miss creates limiter `made`. */
  function AfterGet(p: Params, order: seq<Item>, key: string, now: int, made: Limiter): seq<Item> {
    if Has(order, key) then Touch(order, IndexOf(order, key), now)
    else [Item(key, made, now)] + Evict(p, now, order)
  }

  /** The limiter that a request returns. */
  function Granted(order: seq<Item>, key: string, made: Limiter): Limiter {
    if Has(order, key) then order[IndexOf(order, key)].limiter else made
  }

  // ----- the store -----------------------------------------------------------------------------

  class Entry {
    const key: string
    const limiter: Limiter
    var lastSeen: int

    constructor (key: string, limiter: Limiter, now: int)
      ensures this.key == key && this.limiter == limiter && lastSeen == now
    {
      this.key, this.limiter, this.lastSeen := key, limiter, now;
    }

    function Value(): Item
      reads this
    {
      Item(key, limiter, lastSeen)
    }
  }

  /** The list that a sequence of entries stands for. */
  ghost function Values(es: seq<Entry>): (s: seq<Item>)
    reads es
    ensures |s| == |es| && forall i :: 0 <= i < |s| ==> s[i] == es[i].Value()
  {
    if es == [] then [] else [es[0].Value()] + Values(es[1..])
  }

  /** The map and the list hold the same entries, one per key. */
  ghost predicate Linked(order: seq<Entry>, entries: map<string, Entry>) {
    if order == [] then entries == map[]
    else
      var e := order[0];
      e.key in entries && entries[e.key] == e && Linked(order[1..], entries - {e.key})
  }

  /** A key is in the map exactly when an entry of the list has it, and it is that entry. */
  lemma {:induction false} LinkedFinds(order: seq<Entry>, entries: map<string, Entry>, i: nat)
    requires Linked(order, entries) && i < |order|
    ensures order[i].key in entries && entries[order[i].key] == order[i]
  {
    if i > 0 {
      LinkedFinds(order[1..], entries - {order[0].key}, i - 1);
    }
  }

  lemma {:induction false} LinkedCovers(order: seq<Entry>, entries: map<string, Entry>, key: string)
    requires Linked(order, entries) && key in entries
    ensures exists i :: 0 <= i < |order| && order[i] == entries[key] && order[i].key == key
  {
    if key != order[0].key {
      LinkedCovers(order[1..], entries - {order[0].key}, key);
      var j :| 0 <= j < |order[1..]| && order[1..][j] == entries[key] && order[1..][j].key == key;
      assert order[j + 1] == entries[key];
    }
  }

  lemma {:induction false} LinkedWithout(order: seq<Entry>, entries: map<string, Entry>, i: nat)
    requires Linked(order, entries) && i < |order|
    ensures order[i].key in entries && entries[order[i].key] == order[i]
    ensures Linked(order[..i] + order[i + 1..], entries - {order[i].key})
  {
    if i == 0 {
      assert order[..0] + order[1..] == order[1..];
    } else {
      var first := order[0].key;
      LinkedWithout(order[1..], entries - {first}, i - 1);
      assert (order[..i] + order[i + 1..])[1..] == order[1..][..i - 1] + order[1..][i..];
      assert entries - {first} - {order[i].key} == entries - {order[i].key} - {first};
    }
  }

  class Store {
    const params: Params
    var entries: map<string, Entry>
    var order: seq<Entry>
    var created: nat

    constructor (params: Params)
      ensures Valid() && order == [] && created == 0 && this.params == params
    {
      this.params := params;
      entries, order, created := map[], [], 0;
    }

    ghost predicate Valid()
      reads this
    {
      Linked(order, entries)
    }

    ghost function Items(): seq<Item>
      reads this, order
    {
      Values(order)
    }

    /** Evicts from the back while the last entry is expired or the list is full. */
    method EvictFor(now: int)
      requires Valid()
      modifies this`entries, this`order
      ensures Valid() && Items() == Evict(params, now, old(Items()))
      ensures KeptByAge(params, now, old(Items()), Items())
      ensures entries.Keys <= old(entries.Keys)
    {
      while |order| > 0
        invariant Valid() && entries.Keys <= old(entries.Keys)
        invariant Evict(params, now, Items()) == Evict(params, now, old(Items()))
        decreases |order|
      {
        var back := order[|order| - 1];
        assert Items()[|order| - 1] == back.Value();
        if params.ttl > 0 && now - back.lastSeen > params.ttl {
          RemoveBack();
          continue;
        }
        if |order| >= params.maxSize {
          RemoveBack();
          continue;
        }
        break;
      }
      EvictByAge(params, now, old(Items()));
    }

    method RemoveBack()
      requires Valid() && order != []
      modifies this`entries, this`order
      ensures Valid() && |order| == |old(order)| - 1 && entries.Keys <= old(entries.Keys)
      ensures Items() == old(Items())[..|old(order)| - 1]
    {
      var n := |order| - 1;
      LinkedWithout(order, entries, n);
      assert order[..n] + order[n + 1..] == order[..n];
      entries := entries - {order[n].key};
      order := order[..n];
    }

    /** One request. */
    method Get(key: string, now: int) returns (l: Limiter)
      requires Valid()
      modifies this, order
      ensures Valid()
      ensures l == Granted(old(Items()), key, old(created))
      ensures Items() == AfterGet(params, old(Items()), key, now, old(created))
      ensures created == old(created) + if Has(old(Items()), key) then 0 else 1
      ensures !Has(old(Items()), key) ==>
                && l == old(created) && Items() == [Item(key, l, now)] + Evict(params, now, old(Items()))
                && KeptByAge(params, now, old(Items()), Evict(params, now, old(Items())))
    {
      EvictByAge(params, now, Items());
      if key in entries {
        l := MoveToFront(key, now);
      } else {
        Miss(key);
        l := Insert(key, now);
      }
    }

    /** A miss: evicts, and puts a new limiter in front. */
    method Insert(key: string, now: int) returns (l: Limiter)
      requires Valid() && key !in entries
      modifies this
      ensures Valid() && created == old(created) + 1 && l == old(created)
      ensures Items() == [Item(key, l, now)] + Evict(params, now, old(Items()))
    {
      EvictFor(now);
      l := created;
      created := created + 1;
      AddFront(key, l, now);
    }

    lemma Hit(key: string)
      requires Valid() && key in entries
      ensures Has(Items(), key) && order[IndexOf(Items(), key)] == entries[key] && entries[key].key == key
    {
      LinkedCovers(order, entries, key);
      var i :| 0 <= i < |order| && order[i] == entries[key] && order[i].key == key;
      assert Items()[i].key == key;
      var j := IndexOf(Items(), key);
      assert order[j].key == Items()[j].key;
      LinkedFinds(order, entries, j);
    }

    lemma Miss(key: string)
      requires Valid() && key !in entries
      ensures !Has(Items(), key)
    {
      forall i | 0 <= i < |order| ensures Items()[i].key != key {
        LinkedFinds(order, entries, i);
      }
    }

    method AddFront(key: string, l: Limiter, now: int)
      requires Valid() && key !in entries
      modifies this`order, this`entries
      ensures Valid() && Items() == [Item(key, l, now)] + old(Items())
    {
      var e := new Entry(key, l, now);
      ghost var was := order;
      assert entries[key := e] - {key} == entries;
      order := [e] + order;
      entries := entries[key := e];
      assert order[1..] == was;
    }

    /** A hit: the entry is touched and moved from its place in the list to the front. */
    method MoveToFront(key: string, now: int) returns (l: Limiter)
      requires Valid() && key in entries
      modifies this`order, order
      ensures Valid() && Has(old(Items()), key)
      ensures l == old(Items())[IndexOf(old(Items()), key)].limiter
      ensures Items() == Touch(old(Items()), IndexOf(old(Items()), key), now)
    {
      Hit(key);
      var e := entries[key];
      ghost var items := Items();
      ghost var k := IndexOf(items, key);
      ghost var was := order;
      LinkedWithout(order, entries, k);
      l := e.limiter;
      assert items[k] == e.Value();
      forall j | 0 <= j < |order| && j != k ensures order[j] != e {
        if order[j] == e {
          LinkedOnce(order, entries, j, k);
        }
      }
      e.lastSeen := now;
      var i := FindEntry(e, k);
      order := [e] + (order[..i] + order[i + 1..]);
      assert order[1..] == was[..k] + was[k + 1..];
      TouchedValues(was, items, e, k, now);
    }

    /** The entry's place in the list: no other place holds an entry of its key. */
    method FindEntry(e: Entry, ghost k: nat) returns (i: nat)
      requires Valid() && k < |order| && order[k] == e
      ensures i == k
    {
      i := 0;
      while order[i] != e
        invariant i <= k
        decreases k - i
      {
        i := i + 1;
      }
      LinkedOnce(order, entries, i, k);
    }

    /** The values after one entry was touched and moved. */
    lemma TouchedValues(was: seq<Entry>, items: seq<Item>, e: Entry, k: nat, now: int)
      requires k < |was| == |items| && was[k] == e && e.lastSeen == now
      requires items[k] == Item(e.key, e.limiter, items[k].lastSeen)
      requires forall j :: 0 <= j < |was| && j != k ==> was[j].Value() == items[j]
      requires order == [e] + (was[..k] + was[k + 1..])
      ensures Items() == Touch(items, k, now)
    {
      var t := Touch(items, k, now);
      forall j | 0 <= j < |order| ensures Items()[j] == t[j] {
      }
    }
  }

  lemma {:induction false} LinkedOnce(order: seq<Entry>, entries: map<string, Entry>, i: nat, j: nat)
    requires Linked(order, entries) && i < |order| && j < |order| && order[i].key == order[j].key
    ensures i == j
  {
    if i == 0 && j > 0 {
      LinkedFinds(order[1..], entries - {order[0].key}, j - 1);
    } else if j == 0 && i > 0 {
      LinkedFinds(order[1..], entries - {order[0].key}, i - 1);
    } else if i > 0 && j > 0 {
      LinkedOnce(order[1..], entries - {order[0].key}, i - 1, j - 1);
    }
  }
}
