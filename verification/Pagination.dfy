/** Cursor pagination over users, and whole walks over a collection that changes between fetches. */
module Pagination {
  import opened Base

  const MAX_LIMIT := 100
  const DEFAULT_LIMIT := 20

  function ClampLimit(req: int): (n: nat)
    ensures 1 <= n <= 100
    ensures 1 <= req <= 100 ==> n == req
    ensures req <= 0 ==> n == 20
    ensures req > 100 ==> n == 100
  {
    if req <= 0 then DEFAULT_LIMIT else if req > MAX_LIMIT then MAX_LIMIT else req
  }

  /** Object ids are 96-bit numbers in their byte order; zero is the id of no document yet. */
  datatype User = User(id: nat, email: string, userName: string)

  datatype Item = Item(id: nat, email: string, userName: string)

  function ToItem(u: User): Item { Item(u.id, u.email, u.userName) }

  function ToItems(us: seq<User>): (s: seq<Item>)
    ensures |s| == |us| && forall i :: 0 <= i < |us| ==> s[i] == ToItem(us[i])
  {
    seq(|us|, i requires 0 <= i < |us| => ToItem(us[i]))
  }

  /** The item has the user's id, email and user name. */
  predicate Shows(x: Item, u: User) { x.id == u.id && x.email == u.email && x.userName == u.userName }

  /** Item by item. */
  predicate ShowsAll(items: seq<Item>, us: seq<User>) {
    |items| == |us| && forall i :: 0 <= i < |items| ==> Shows(items[i], us[i])
  }

  datatype Page = Page(items: seq<Item>, nextCursor: string, hasMore: bool)

  /** The text form of a cursor. Decode is only asked about non-empty texts. */
  datatype Codec = Codec(enc: nat -> string, dec: string -> Result<nat, string>)

  ghost predicate Lawful(c: Codec) {
    forall id: nat :: c.enc(id) != "" && c.dec(c.enc(id)) == Ok(id)
  }

  function DecodeCursor(c: Codec, s: string): Result<nat, string> {
    if s == "" then Ok(0) else c.dec(s)
  }

  /** A collection in the order of its unique ids. */
  predicate ById(coll: seq<User>) { forall i, j :: 0 <= i < j < |coll| ==> coll[i].id < coll[j].id }

  /** The users behind a cursor; the zero cursor filters nothing. */
  function Behind(coll: seq<User>, cur: nat): seq<User> {
    if coll == [] || cur == 0 || coll[0].id > cur then coll else Behind(coll[1..], cur)
  }

  /** The repository's query: ids strictly behind the cursor, ascending, one more than the limit. */
  function Query(coll: seq<User>, cur: nat, limit: nat): seq<User> { Cut(Behind(coll, cur), limit + 1) }

  /** The users on the page, and whether there are more behind it. */
  function OnPage(coll: seq<User>, cur: nat, limit: int): seq<User> { Cut(Behind(coll, cur), ClampLimit(limit)) }

  predicate More(coll: seq<User>, cur: nat, limit: int) { |Behind(coll, cur)| > ClampLimit(limit) }

  function PageOf(codec: Codec, us: seq<User>, more: bool): Page {
    Page(ToItems(us), if more && us != [] then codec.enc(us[|us| - 1].id) else "", more)
  }

  /** What a fetch returns. */
  function Fetched(codec: Codec, coll: seq<User>, cursor: string, limit: int): Result<Page, string> {
    match DecodeCursor(codec, cursor)
    case Err(e) => Err(e)
    case Ok(cur) => Ok(PageOf(codec, OnPage(coll, cur, limit), More(coll, cur, limit)))
  }

  /** The loop of List that turns users into response items. */
  method Items(users: seq<User>) returns (items: seq<Item>)
    ensures items == ToItems(users)
  {
    items := [];
    for i := 0 to |users|
      invariant |items| == i
      invariant forall k :: 0 <= k < i ==> items[k] == ToItem(users[k])
    {
      items := items + [ToItem(users[i])];
    }
  }

  /** The user is listed. */
  predicate Listed(items: seq<Item>, u: User) { exists x :: x in items && Shows(x, u) }

  /** The item is a user's of the collection, behind the cursor; a zero cursor is before everyone. */
  predicate IsOf(coll: seq<User>, cur: nat, x: Item) {
    exists u :: u in coll && (cur == 0 || u.id > cur) && Shows(x, u)
  }

  /**
   A page of at most `limit` items: users of the collection behind the cursor, in the order of their
   ids and none left out, up to the last item when there are more. Then the next cursor is its id.
   */
  ghost predicate IsPage(codec: Codec, coll: seq<User>, cur: nat, limit: nat, page: Page) {
    var n := |page.items|;
    && n <= limit && (page.hasMore ==> n == limit)
    && (forall x :: x in page.items ==> IsOf(coll, cur, x))
    && (forall i, j :: 0 <= i < j < n ==> page.items[i].id < page.items[j].id)
    && (forall u :: u in coll && (cur == 0 || u.id > cur) ==>
          Listed(page.items, u) || (page.hasMore && n > 0 && u.id > page.items[n - 1].id))
    && (page.hasMore ==> n > 0 && exists u :: u in coll && u.id > page.items[n - 1].id)
    && page.nextCursor == (if page.hasMore && n > 0 then codec.enc(page.items[n - 1].id) else "")
  }

  /** userService.List on one snapshot of the collection. */
  method List(codec: Codec, coll: seq<User>, cursor: string, limit: int) returns (r: Result<Page, string>)
    ensures r == Fetched(codec, coll, cursor, limit)
    ensures r.Err? <==> cursor != "" && codec.dec(cursor).Err?
    ensures r.Err? ==> r.error == codec.dec(cursor).error
    ensures r.Ok? && ById(coll) ==>
              IsPage(codec, coll, if cursor == "" then 0 else codec.dec(cursor).value,
                     if limit <= 0 then 20 else if limit > 100 then 100 else limit, r.value)
  {
    var cur := DecodeCursor(codec, cursor);
    if cur.Err? {
      return Err(cur.error);
    }
    var n := ClampLimit(limit);
    var users := Query(coll, cur.value, n);
    var hasMore := |users| > n;
    if hasMore {
      users := users[..n];
    }
    assert users == OnPage(coll, cur.value, limit);
    var items := Items(users);
    var next := "";
    if hasMore && |users| > 0 {
      next := codec.enc(users[|users| - 1].id);
    }
    r := Ok(Page(items, next, hasMore));
    if ById(coll) {
      PageIsPage(codec, coll, cur.value, limit);
    }
  }

  // ----- one page ------------------------------------------------------------------------------

  /** The query's filter: a zero cursor filters nothing. */
  predicate Past(cur: nat, id: nat) { cur == 0 || id > cur }

  /** The query is exact: the users behind the cursor are those that pass its filter, in order. */
  lemma {:induction false} BehindExact(coll: seq<User>, cur: nat)
    requires ById(coll)
    ensures ById(Behind(coll, cur))
    ensures forall u :: u in Behind(coll, cur) <==> u in coll && Past(cur, u.id)
  {
    if coll == [] || cur == 0 {
    } else if coll[0].id > cur {
      assert forall u :: u in coll ==> u.id >= coll[0].id;
    } else {
      BehindExact(coll[1..], cur);
      assert coll == [coll[0]] + coll[1..];
    }
  }

  lemma PrefixIsLeast(us: seq<User>, n: nat)
    requires ById(us) && 0 < n <= |us|
    ensures forall u :: u in us[..n] <==> u in us && u.id <= us[n - 1].id
  {
    forall u | u in us && u.id <= us[n - 1].id ensures u in us[..n] {
      var i :| 0 <= i < |us| && us[i] == u;
      assert i < n;
      assert us[..n][i] == u;
    }
    forall u | u in us[..n] ensures u in us && u.id <= us[n - 1].id {
      var i :| 0 <= i < n && us[i] == u;
    }
  }

  /** The ids a page covers: those behind the cursor, up to its last one if there is more to come. */
  ghost predicate Covers(coll: seq<User>, cur: nat, us: seq<User>, more: bool) {
    && ById(us) && (more ==> us != [])
    && forall u :: u in us <==> u in coll && Past(cur, u.id) && (more ==> u.id <= us[|us| - 1].id)
  }

  lemma PageCovers(coll: seq<User>, cur: nat, limit: int)
    requires ById(coll)
    ensures Covers(coll, cur, OnPage(coll, cur, limit), More(coll, cur, limit))
  {
    BehindExact(coll, cur);
    var behind := Behind(coll, cur);
    if More(coll, cur, limit) {
      PrefixIsLeast(behind, ClampLimit(limit));
    }
  }

  /** What a page shows. */
  lemma PageIsPage(codec: Codec, coll: seq<User>, cur: nat, limit: int)
    requires ById(coll)
    ensures IsPage(codec, coll, cur, ClampLimit(limit),
                   PageOf(codec, OnPage(coll, cur, limit), More(coll, cur, limit)))
  {
    var us, more := OnPage(coll, cur, limit), More(coll, cur, limit);
    var items := ToItems(us);
    PageCovers(coll, cur, limit);
    forall x | x in items ensures IsOf(coll, cur, x) {
      var i :| 0 <= i < |items| && items[i] == x;
      assert us[i] in us && Shows(x, us[i]);
    }
    forall u | u in coll && (cur == 0 || u.id > cur) ensures Listed(items, u) || (more && u.id > us[|us| - 1].id) {
      if u in us {
        var i :| 0 <= i < |us| && us[i] == u;
        assert items[i] in items && Shows(items[i], u);
      }
    }
    if more {
      MoreBehind(coll, cur, limit);
    }
  }

  /** When there is more, somebody comes behind the page. */
  lemma MoreBehind(coll: seq<User>, cur: nat, limit: int)
    requires ById(coll) && More(coll, cur, limit)
    ensures var us := OnPage(coll, cur, limit);
            |us| == ClampLimit(limit) && exists u :: u in coll && u.id > us[|us| - 1].id
  {
    var behind, n := Behind(coll, cur), ClampLimit(limit);
    BehindExact(coll, cur);
    assert behind[n] in behind && behind[n].id > behind[n - 1].id;
  }

  /** A first page that is not the last one, and whose only user has the zero id. */
  predicate Stalls(coll: seq<User>, limit: int) {
    ClampLimit(limit) == 1 && |coll| > 1 && coll[0].id == 0
  }

  /** Any other page that is not the last one ends in an id that is not zero. */
  lemma PageEndsPositive(coll: seq<User>, cur: nat, limit: int)
    requires ById(coll) && More(coll, cur, limit) && (cur == 0 ==> !Stalls(coll, limit))
    ensures var us := OnPage(coll, cur, limit); us[|us| - 1].id > 0
  {
    PageCovers(coll, cur, limit);
    var us := OnPage(coll, cur, limit);
    assert us[|us| - 1] in us;
    if cur == 0 && |us| > 1 {
      assert us[|us| - 1].id > us[0].id;
    }
  }

  // ----- walks ---------------------------------------------------------------------------------

  /** One fetch of a walk: the collection as it was then, and the limit asked for. */
  datatype Fetch = Fetch(coll: seq<User>, limit: int)

  /** The cursor to fetch with after these pages, and whether there is anything left to fetch. */
  function NextCursor(pages: seq<Page>): string { if pages == [] then "" else pages[|pages| - 1].nextCursor }

  predicate Open(pages: seq<Page>) { pages == [] || pages[|pages| - 1].hasMore }

  /** Pages obtained by following the next cursor from "", one per fetch. */
  predicate IsWalk(codec: Codec, fetches: seq<Fetch>, pages: seq<Page>)
    decreases |pages|
  {
    && |fetches| == |pages|
    && (pages != [] ==>
          var m := |pages| - 1;
          && IsWalk(codec, fetches[..m], pages[..m]) && Open(pages[..m])
          && Fetched(codec, fetches[m].coll, NextCursor(pages[..m]), fetches[m].limit) == Ok(pages[m]))
  }

  /** Every snapshot is ordered by id, and the first fetch does not stall on a zero id. */
  predicate Sound(fetches: seq<Fetch>) {
    && (forall f :: f in fetches ==> ById(f.coll))
    && (fetches != [] ==> !Stalls(fetches[0].coll, fetches[0].limit))
  }

  function AllItems(pages: seq<Page>): seq<Item> {
    if pages == [] then [] else AllItems(pages[..|pages| - 1]) + pages[|pages| - 1].items
  }

  predicate Increasing(items: seq<Item>) { forall i, j :: 0 <= i < j < |items| ==> items[i].id < items[j].id }

  predicate HasId(coll: seq<User>, id: nat) { exists u :: u in coll && u.id == id }

  predicate Lists(items: seq<Item>, id: nat) { exists x :: x in items && x.id == id }

  /** The user with this id is in every snapshot of the walk, whatever else changes in its record. */
  predicate Throughout(fetches: seq<Fetch>, id: nat) { forall f :: f in fetches ==> HasId(f.coll, id) }

  /** Everything up to this id has been listed, when there is more to fetch. */
  function Position(items: seq<Item>): nat { if items == [] then 0 else items[|items| - 1].id }

  predicate ListedUpTo(fetches: seq<Fetch>, items: seq<Item>, id: nat, open: bool) {
    Throughout(fetches, id) && (open ==> items != [] && id <= Position(items)) ==> Lists(items, id)
  }

  /** What the items listed so far have covered. */
  ghost predicate Covered(fetches: seq<Fetch>, items: seq<Item>, open: bool) {
    && Increasing(items) && (open && items != [] ==> Position(items) > 0)
    && forall id: nat :: ListedUpTo(fetches, items, id, open)
  }

  function Text(codec: Codec, cur: nat): string { if cur == 0 then "" else codec.enc(cur) }

  lemma Extends(items: seq<Item>, us: seq<User>, cur: nat)
    requires Increasing(items) && ById(us) && cur == Position(items) && (items != [] ==> cur > 0)
    requires forall u :: u in us ==> Past(cur, u.id)
    ensures Increasing(items + ToItems(us))
    ensures Position(items + ToItems(us)) == if us == [] then cur else us[|us| - 1].id
  {
    var new_ := ToItems(us);
    var all := items + new_;
    forall i, j | 0 <= i < j < |all| ensures all[i].id < all[j].id {
      if i < |items| <= j {
        assert items[i].id <= cur && us[j - |items|] in us;
      }
    }
  }

  lemma StepLists(fetches: seq<Fetch>, items: seq<Item>, us: seq<User>, more: bool, id: nat)
    requires fetches != []
    requires Covers(fetches[|fetches| - 1].coll, Position(items), us, more)
    requires ListedUpTo(fetches[..|fetches| - 1], items, id, true)
    ensures Throughout(fetches, id) && (more ==> id <= us[|us| - 1].id) ==> Lists(items + ToItems(us), id)
  {
    if Throughout(fetches, id) && (more ==> id <= us[|us| - 1].id) {
      assert Throughout(fetches[..|fetches| - 1], id);
      if items != [] && id <= Position(items) {
        var x :| x in items && x.id == id;
        assert x in items + ToItems(us);
      } else {
        assert fetches[|fetches| - 1] in fetches;
        var u :| u in fetches[|fetches| - 1].coll && u.id == id;
        assert u in us;
        var i :| 0 <= i < |us| && us[i] == u;
        assert ToItems(us)[i] == ToItem(u) && ToItem(u) in items + ToItems(us);
      }
    }
  }

  lemma StepCovers(fetches: seq<Fetch>, items: seq<Item>, us: seq<User>, more: bool)
    requires fetches != [] && Covered(fetches[..|fetches| - 1], items, true)
    requires Covers(fetches[|fetches| - 1].coll, Position(items), us, more)
    requires more ==> us[|us| - 1].id > 0
    ensures Covered(fetches, items + ToItems(us), more)
    ensures more ==> us != [] && Position(items + ToItems(us)) == us[|us| - 1].id > 0
  {
    Extends(items, us, Position(items));
    forall id: nat ensures ListedUpTo(fetches, items + ToItems(us), id, more) {
      assert ListedUpTo(fetches[..|fetches| - 1], items, id, true);
      StepLists(fetches, items, us, more, id);
    }
  }

  lemma FetchedAt(codec: Codec, coll: seq<User>, cur: nat, limit: int)
    requires Lawful(codec)
    ensures Fetched(codec, coll, Text(codec, cur), limit)
         == Ok(PageOf(codec, OnPage(coll, cur, limit), More(coll, cur, limit)))
  {
    assert codec.dec(codec.enc(cur)) == Ok(cur);
  }

  /** The last fetch of a walk, spelled out: what it asked for and what it got. */
  lemma LastFetch(codec: Codec, fetches: seq<Fetch>, pages: seq<Page>, cur: nat)
    requires Lawful(codec) && IsWalk(codec, fetches, pages) && pages != []
    requires NextCursor(pages[..|pages| - 1]) == Text(codec, cur)
    ensures var f := fetches[|pages| - 1];
            pages[|pages| - 1] == PageOf(codec, OnPage(f.coll, cur, f.limit), More(f.coll, cur, f.limit))
  {
    FetchedAt(codec, fetches[|pages| - 1].coll, cur, fetches[|pages| - 1].limit);
  }

  lemma ItemsOfLast(codec: Codec, pages: seq<Page>, us: seq<User>, more: bool)
    requires pages != [] && pages[|pages| - 1] == PageOf(codec, us, more)
    ensures AllItems(pages) == AllItems(pages[..|pages| - 1]) + ToItems(us)
    ensures Open(pages) == more
    ensures more && us != [] ==> NextCursor(pages) == codec.enc(us[|us| - 1].id)
  {
  }

  lemma SoundBefore(fetches: seq<Fetch>)
    requires Sound(fetches) && fetches != []
    ensures Sound(fetches[..|fetches| - 1]) && ById(fetches[|fetches| - 1].coll)
  {
    assert fetches[|fetches| - 1] in fetches;
    assert forall f :: f in fetches[..|fetches| - 1] ==> f in fetches;
  }

  lemma {:induction false} WalkCovers(codec: Codec, fetches: seq<Fetch>, pages: seq<Page>)
    requires Lawful(codec) && IsWalk(codec, fetches, pages) && Sound(fetches)
    ensures Covered(fetches, AllItems(pages), Open(pages))
    ensures Open(pages) ==> NextCursor(pages) == Text(codec, Position(AllItems(pages)))
    ensures Open(pages) && pages != [] ==> AllItems(pages) != []
    decreases |pages|
  {
    if pages == [] {
      assert forall id: nat :: ListedUpTo(fetches, [], id, true);
    } else {
      var m := |pages| - 1;
      SoundBefore(fetches);
      WalkCovers(codec, fetches[..m], pages[..m]);
      var items := AllItems(pages[..m]);
      assert m > 0 ==> Position(items) > 0;
      LastFetch(codec, fetches, pages, Position(items));
      LastCovers(codec, fetches, pages, items, Position(items));
    }
  }

  lemma LastCovers(codec: Codec, fetches: seq<Fetch>, pages: seq<Page>, items: seq<Item>, cur: nat)
    requires |fetches| == |pages| > 0 && items == AllItems(pages[..|pages| - 1]) && cur == Position(items)
    requires ById(fetches[|pages| - 1].coll) && Covered(fetches[..|pages| - 1], items, true)
    requires cur == 0 ==> !Stalls(fetches[|pages| - 1].coll, fetches[|pages| - 1].limit)
    requires var f := fetches[|pages| - 1];
             pages[|pages| - 1] == PageOf(codec, OnPage(f.coll, cur, f.limit), More(f.coll, cur, f.limit))
    ensures Covered(fetches, AllItems(pages), Open(pages))
    ensures Open(pages) ==> NextCursor(pages) == Text(codec, Position(AllItems(pages))) && AllItems(pages) != []
  {
    var f := fetches[|pages| - 1];
    var us, more := OnPage(f.coll, cur, f.limit), More(f.coll, cur, f.limit);
    PageCovers(f.coll, cur, f.limit);
    if more {
      PageEndsPositive(f.coll, cur, f.limit);
    }
    StepCovers(fetches, items, us, more);
    ItemsOfLast(codec, pages, us, more);
  }

  /** An open walk goes on behind the last item listed. */
  lemma WalkCursor(codec: Codec, fetches: seq<Fetch>, pages: seq<Page>)
    requires Lawful(codec) && IsWalk(codec, fetches, pages) && Sound(fetches) && Open(pages)
    ensures NextCursor(pages) == Text(codec, Position(AllItems(pages)))
  {
    WalkCovers(codec, fetches, pages);
  }

  /**
   Following the next cursor while users come and go and change: ids strictly increase over all
   pages, so nobody is listed twice, and a finished walk lists everyone who was there throughout.
   */
  lemma WalkOverChanges(codec: Codec, fetches: seq<Fetch>, pages: seq<Page>)
    requires Lawful(codec) && IsWalk(codec, fetches, pages) && Sound(fetches)
    ensures Increasing(AllItems(pages))
    ensures !Open(pages) ==> forall id: nat :: Throughout(fetches, id) ==> Lists(AllItems(pages), id)
  {
    WalkCovers(codec, fetches, pages);
    if !Open(pages) {
      forall id: nat | Throughout(fetches, id) ensures Lists(AllItems(pages), id) {
        assert ListedUpTo(fetches, AllItems(pages), id, false);
      }
    }
  }

  /** Nobody is made up: what is listed was in some snapshot. */
  lemma {:induction false} WalkListsUsers(codec: Codec, fetches: seq<Fetch>, pages: seq<Page>, x: Item)
    requires Lawful(codec) && IsWalk(codec, fetches, pages) && x in AllItems(pages)
    ensures exists f, u :: f in fetches && u in f.coll && x.id == u.id && x.email == u.email && x.userName == u.userName
    decreases |pages|
  {
    var m := |pages| - 1;
    var f := fetches[m];
    assert f in fetches;
    if x in AllItems(pages[..m]) {
      WalkListsUsers(codec, fetches[..m], pages[..m], x);
    } else {
      var cur := DecodeCursor(codec, NextCursor(pages[..m])).value;
      var us := OnPage(f.coll, cur, f.limit);
      var i :| 0 <= i < |us| && pages[m].items[i] == x;
      BehindIsPart(f.coll, cur, us[i]);
    }
  }

  lemma {:induction false} BehindIsPart(coll: seq<User>, cur: nat, u: User)
    requires u in Behind(coll, cur)
    ensures u in coll
  {
    if coll != [] && cur != 0 && coll[0].id <= cur {
      BehindIsPart(coll[1..], cur, u);
    }
  }

  // ----- a fixed collection -------------------------------------------------------------------

  /** Every fetch sees the same collection and asks for the same limit. */
  predicate Fixed(fetches: seq<Fetch>, coll: seq<User>, limit: int) {
    forall f :: f in fetches ==> f == Fetch(coll, limit)
  }

  /** Behind the id of a user is what follows it in the collection. */
  lemma {:induction false} BehindOne(coll: seq<User>, k: nat)
    requires ById(coll) && k <= |coll| && (k > 0 ==> coll[k - 1].id > 0)
    ensures Behind(coll, if k == 0 then 0 else coll[k - 1].id) == coll[k..]
  {
    if k == 1 {
      if |coll| > 1 {
        assert coll[1].id > coll[0].id;
      }
      assert Behind(coll, coll[0].id) == Behind(coll[1..], coll[0].id);
    } else if k > 1 {
      assert coll[0].id < coll[k - 1].id;
      BehindOne(coll[1..], k - 1);
    }
  }

  /** How many users k full pages hold. */
  function Held(k: nat, l: nat): nat { if k == 0 then 0 else Held(k - 1, l) + l }

  /** After k pages of a walk the first k times the limit users have been listed. */
  lemma {:induction false} FixedProgress(codec: Codec, fetches: seq<Fetch>, pages: seq<Page>, coll: seq<User>,
                                         limit: int)
    requires Lawful(codec) && IsWalk(codec, fetches, pages) && Fixed(fetches, coll, limit)
    requires ById(coll) && !Stalls(coll, limit)
    ensures AllItems(pages) == ToItems(Cut(coll, Held(|pages|, ClampLimit(limit))))
    ensures pages != [] ==> (Open(pages) <==> Held(|pages|, ClampLimit(limit)) < |coll|)
    decreases |pages|
  {
    if pages != [] {
      var m := |pages| - 1;
      var fs, ps := fetches[..m], pages[..m];
      WalkBefore(codec, fetches, pages);
      FixedBefore(fetches, coll, limit);
      FixedProgress(codec, fs, ps, coll, limit);
      WalkCursor(codec, fs, ps);
      assert fetches[m] == Fetch(coll, limit);
      FixedStep(codec, pages, coll, limit, Held(m, ClampLimit(limit)), Held(|pages|, ClampLimit(limit)));
    }
  }

  /** A walk is a shorter one and one more fetch. */
  lemma WalkBefore(codec: Codec, fetches: seq<Fetch>, pages: seq<Page>)
    requires IsWalk(codec, fetches, pages) && pages != []
    ensures IsWalk(codec, fetches[..|pages| - 1], pages[..|pages| - 1]) && Open(pages[..|pages| - 1])
    ensures |fetches| == |pages|
    ensures var f := fetches[|pages| - 1];
            Fetched(codec, f.coll, NextCursor(pages[..|pages| - 1]), f.limit) == Ok(pages[|pages| - 1])
  {
  }

  /** One more page behind the first k users: n is the end of the page, if they are that many. */
  lemma FixedStep(codec: Codec, pages: seq<Page>, coll: seq<User>, limit: int, k: nat, n: nat)
    requires Lawful(codec) && pages != [] && ById(coll) && !Stalls(coll, limit)
    requires Fetched(codec, coll, NextCursor(pages[..|pages| - 1]), limit) == Ok(pages[|pages| - 1])
    requires k == Held(|pages| - 1, ClampLimit(limit)) && (|pages| > 1 ==> k < |coll|) && n == k + ClampLimit(limit)
    requires AllItems(pages[..|pages| - 1]) == ToItems(Cut(coll, k))
    requires NextCursor(pages[..|pages| - 1]) == Text(codec, Position(AllItems(pages[..|pages| - 1])))
    ensures AllItems(pages) == ToItems(Cut(coll, n))
    ensures Open(pages) <==> n < |coll|
  {
    CutIsPrefix(coll, k);
    HeldEndsPositive(coll, limit, |pages| - 1);
    FixedLast(codec, pages, coll, limit, k, n);
  }

  lemma CutIsPrefix(coll: seq<User>, k: nat)
    ensures k <= |coll| ==> Cut(coll, k) == coll[..k]
  {
  }

  /** The last user of full pages with more behind them has an id that is not zero. */
  lemma HeldEndsPositive(coll: seq<User>, limit: int, m: nat)
    requires ById(coll) && !Stalls(coll, limit)
    ensures var k := Held(m, ClampLimit(limit)); 0 < k < |coll| ==> coll[k - 1].id > 0
  {
    var k := Held(m, ClampLimit(limit));
    if 1 < k < |coll| {
      assert coll[0].id < coll[k - 1].id;
    }
  }

  lemma FixedBefore(fetches: seq<Fetch>, coll: seq<User>, limit: int)
    requires Fixed(fetches, coll, limit) && fetches != [] && ById(coll) && !Stalls(coll, limit)
    ensures Fixed(fetches[..|fetches| - 1], coll, limit) && Sound(fetches[..|fetches| - 1])
    ensures fetches[|fetches| - 1] == Fetch(coll, limit)
  {
    var before := fetches[..|fetches| - 1];
    assert fetches[|fetches| - 1] in fetches;
    forall f | f in before ensures f == Fetch(coll, limit) {
      assert f in fetches;
    }
    assert before != [] ==> before[0] in before;
  }

  lemma FixedLast(codec: Codec, pages: seq<Page>, coll: seq<User>, limit: int, k: nat, n: nat)
    requires Lawful(codec) && pages != [] && ById(coll)
    requires Fetched(codec, coll, NextCursor(pages[..|pages| - 1]), limit) == Ok(pages[|pages| - 1])
    requires k <= |coll| && (k > 0 ==> coll[k - 1].id > 0) && n == k + ClampLimit(limit)
    requires AllItems(pages[..|pages| - 1]) == ToItems(coll[..k])
    requires NextCursor(pages[..|pages| - 1]) == Text(codec, Position(ToItems(coll[..k])))
    ensures AllItems(pages) == ToItems(Cut(coll, n))
    ensures Open(pages) <==> n < |coll|
  {
    var l := ClampLimit(limit);
    var cur := Position(ToItems(coll[..k]));
    assert cur == if k == 0 then 0 else coll[k - 1].id;
    FetchedAt(codec, coll, cur, limit);
    FixedPage(coll, k, limit);
    ItemsOfLast(codec, pages, Cut(coll[k..], l), n < |coll|);
    JoinItems(coll, k, l, n);
  }

  lemma ItemsConcat(a: seq<User>, b: seq<User>)
    ensures ToItems(a) + ToItems(b) == ToItems(a + b)
  {
  }

  lemma JoinItems(coll: seq<User>, k: nat, l: nat, n: nat)
    requires k <= |coll| && n == k + l
    ensures ToItems(coll[..k]) + ToItems(Cut(coll[k..], l)) == ToItems(Cut(coll, n))
  {
    ItemsConcat(coll[..k], Cut(coll[k..], l));
    CutJoin(coll, k, l, n);
  }

  lemma CutJoin(coll: seq<User>, k: nat, l: nat, n: nat)
    requires k <= |coll| && n == k + l
    ensures coll[..k] + Cut(coll[k..], l) == Cut(coll, n)
  {
    var m := Min(|coll| - k, l);
    assert coll[k..][..m] == coll[k..k + m];
    assert coll[..k] + coll[k..k + m] == coll[..k + m];
  }

  /** The page behind the first k users. */
  lemma FixedPage(coll: seq<User>, k: nat, limit: int)
    requires ById(coll) && k <= |coll| && (k > 0 ==> coll[k - 1].id > 0)
    ensures var cur := if k == 0 then 0 else coll[k - 1].id;
            && OnPage(coll, cur, limit) == Cut(coll[k..], ClampLimit(limit))
            && (More(coll, cur, limit) <==> k + ClampLimit(limit) < |coll|)
  {
    BehindOne(coll, k);
  }

  /** The number of pages for n users. */
  function PageCount(n: nat, limit: int): nat {
    var l := ClampLimit(limit);
    if n <= l then 1 else 1 + PageCount(n - l, limit)
  }

  /** It is the ceiling of n over the limit, and at least one. */
  lemma {:induction false} PageCountIsCeiling(n: nat, limit: int)
    ensures var k, l := PageCount(n, limit), ClampLimit(limit);
            k >= 1 && n <= k * l && (k > 1 ==> (k - 1) * l < n)
  {
    var l := ClampLimit(limit);
    if n > l {
      PageCountIsCeiling(n - l, limit);
      var k := PageCount(n - l, limit);
      Distribute(k, l);
    }
  }

  lemma Distribute(k: nat, l: nat)
    ensures (k + 1) * l == k * l + l
    ensures k >= 1 ==> k * l == (k - 1) * l + l
  {
  }

  lemma {:induction false} PageCountOf(n: nat, limit: int, k: nat)
    requires k >= 1 && Held(k, ClampLimit(limit)) >= n && (k > 1 ==> Held(k - 1, ClampLimit(limit)) < n)
    ensures PageCount(n, limit) == k
  {
    var l := ClampLimit(limit);
    if k > 1 {
      HeldIsMore(k - 1, l);
      PageCountOf(n - l, limit, k - 1);
    }
  }

  lemma {:induction false} HeldIsMore(k: nat, l: nat)
    requires k >= 1
    ensures Held(k, l) >= l
  {
    if k > 1 {
      HeldIsMore(k - 1, l);
    }
  }

  /** On a fixed collection a walk is finished exactly after PageCount pages, and is the whole collection. */
  lemma WalkOverFixed(codec: Codec, fetches: seq<Fetch>, pages: seq<Page>, coll: seq<User>, limit: int)
    requires Lawful(codec) && IsWalk(codec, fetches, pages) && Fixed(fetches, coll, limit)
    requires ById(coll) && !Stalls(coll, limit)
    ensures !Open(pages) <==> |pages| == PageCount(|coll|, limit)
    ensures !Open(pages) ==> ShowsAll(AllItems(pages), coll)
  {
    FixedProgress(codec, fetches, pages, coll, limit);
    if Open(pages) {
      if pages != [] {
        OpenIsEarlier(|coll|, limit, |pages|);
      }
    } else {
      FixedEarlier(codec, fetches, pages, coll, limit);
      PageCountOf(|coll|, limit, |pages|);
    }
  }

  lemma FixedEarlier(codec: Codec, fetches: seq<Fetch>, pages: seq<Page>, coll: seq<User>, limit: int)
    requires Lawful(codec) && IsWalk(codec, fetches, pages) && Fixed(fetches, coll, limit)
    requires ById(coll) && !Stalls(coll, limit) && pages != []
    ensures |pages| > 1 ==> Held(|pages| - 1, ClampLimit(limit)) < |coll|
  {
    var m := |pages| - 1;
    FixedBefore(fetches, coll, limit);
    FixedProgress(codec, fetches[..m], pages[..m], coll, limit);
  }

  lemma {:induction false} OpenIsEarlier(n: nat, limit: int, k: nat)
    requires Held(k, ClampLimit(limit)) < n
    ensures PageCount(n, limit) > k
  {
    var l := ClampLimit(limit);
    if k > 0 {
      HeldIsMore(k, l);
      OpenIsEarlier(n - l, limit, k - 1);
    }
  }

  // ----- the zero id ---------------------------------------------------------------------------

  /** The next cursor fetches the first page again exactly when the limit is one and the first id zero. */
  lemma ZeroIdRestarts(codec: Codec, coll: seq<User>, limit: int)
    requires Lawful(codec) && ById(coll) && More(coll, 0, limit)
    ensures var first := PageOf(codec, OnPage(coll, 0, limit), true);
            && Fetched(codec, coll, "", limit) == Ok(first)
            && (Fetched(codec, coll, first.nextCursor, limit) == Ok(first) <==>
                  ClampLimit(limit) == 1 && coll[0].id == 0)
  {
    var us := OnPage(coll, 0, limit);
    var cur := us[|us| - 1].id;
    assert |us| > 1 ==> us[0].id < cur;
    if cur != 0 {
      BehindDrops(coll, cur);
      var again := OnPage(coll, cur, limit);
      assert us[0].id <= cur;
      assert again != [] ==> ToItems(again)[0] != ToItems(us)[0];
    }
  }

  lemma {:induction false} BehindDrops(coll: seq<User>, cur: nat)
    requires cur != 0
    ensures Behind(coll, cur) != [] ==> Behind(coll, cur)[0].id > cur
  {
    if coll != [] && coll[0].id <= cur {
      BehindDrops(coll[1..], cur);
    }
  }

  /** Then a walk over a fixed collection gets the first page for ever. */
  lemma {:induction false} StalledWalk(codec: Codec, coll: seq<User>, limit: int, n: nat)
    returns (fetches: seq<Fetch>, pages: seq<Page>)
    requires Lawful(codec) && Stalls(coll, limit)
    ensures IsWalk(codec, fetches, pages) && Fixed(fetches, coll, limit) && |pages| == n && Open(pages)
    ensures n > 0 ==> NextCursor(pages) == codec.enc(0)
  {
    if n == 0 {
      fetches, pages := [], [];
    } else {
      var fs, ps := StalledWalk(codec, coll, limit, n - 1);
      var first := PageOf(codec, OnPage(coll, 0, limit), true);
      assert codec.dec(codec.enc(0)) == Ok(0);
      assert Fetched(codec, coll, NextCursor(ps), limit) == Ok(first);
      fetches, pages := fs + [Fetch(coll, limit)], ps + [first];
      assert fetches[..n - 1] == fs && pages[..n - 1] == ps;
    }
  }

  /** Every walk over the collection ends after PageCount pages with all of it. */
  ghost predicate WalksWell(codec: Codec, coll: seq<User>, limit: int) {
    forall fetches, pages :: IsWalk(codec, fetches, pages) && Fixed(fetches, coll, limit) ==>
      && (!Open(pages) <==> |pages| == PageCount(|coll|, limit))
      && (!Open(pages) ==> ShowsAll(AllItems(pages), coll))
  }

  /** On a fixed collection walks are right if and only if the first page does not stall on a zero id. */
  lemma FixedWalkIff(codec: Codec, coll: seq<User>, limit: int)
    requires Lawful(codec) && ById(coll)
    ensures WalksWell(codec, coll, limit) <==> !Stalls(coll, limit)
  {
    if Stalls(coll, limit) {
      var fetches, pages := StalledWalk(codec, coll, limit, PageCount(|coll|, limit));
    } else {
      forall fetches, pages | IsWalk(codec, fetches, pages) && Fixed(fetches, coll, limit)
        ensures !Open(pages) <==> |pages| == PageCount(|coll|, limit)
        ensures !Open(pages) ==> ShowsAll(AllItems(pages), coll)
      {
        WalkOverFixed(codec, fetches, pages, coll, limit);
      }
    }
  }
}
