/**
 * Keyset pagination: pages of `limit` rows in (sort value, id) order, each starting
 * strictly after the last row of the one before. The table may change in any way
 * between two requests.
 */
module Paging {
  import opened Wrappers

  /** The composite sort key. A sort value stands for its place in the column's order. */
  datatype Key = Key(sort: int, id: int)

  datatype Direction = Asc | Desc

  datatype Page = Page(items: seq<Key>, next: Option<Key>)

  /** `a` is listed before `b`. */
  predicate Before(dir: Direction, a: Key, b: Key) {
    match dir
    case Asc => a.sort < b.sort || (a.sort == b.sort && a.id < b.id)
    case Desc => b.sort < a.sort || (b.sort == a.sort && b.id < a.id)
  }

  predicate Listed(dir: Direction, s: seq<Key>) {
    forall i, j :: 0 <= i < j < |s| ==> Before(dir, s[i], s[j])
  }

  // ── ORDER BY ───────────────────────────────────────────────────────────────

  lemma {:induction false} FirstExists(dir: Direction, keys: set<Key>)
    requires keys != {}
    ensures exists k :: k in keys && forall other :: other in keys ==> other == k || Before(dir, k, other)
  {
    var k :| k in keys;
    if keys != {k} {
      FirstExists(dir, keys - {k});
      var first :| first in keys - {k} && forall other :: other in keys - {k} ==>
        other == first || Before(dir, first, other);
      var best := if Before(dir, k, first) then k else first;
      forall other | other in keys
        ensures other == best || Before(dir, best, other)
      {
        assert other == k || other in keys - {k};
      }
    }
  }

  ghost function First(dir: Direction, keys: set<Key>): (k: Key)
    requires keys != {}
    ensures k in keys && forall other :: other in keys ==> other == k || Before(dir, k, other)
  {
    FirstExists(dir, keys);
    var k :| k in keys && forall other :: other in keys ==> other == k || Before(dir, k, other);
    k
  }

  /** The matching rows in list order. */
  ghost function Listing(dir: Direction, keys: set<Key>): seq<Key>
    decreases |keys|
  {
    if keys == {} then []
    else
      var k := First(dir, keys);
      [k] + Listing(dir, keys - {k})
  }

  lemma FirstThenRest(dir: Direction, first: Key, tail: seq<Key>)
    requires Listed(dir, tail) && forall k :: k in tail ==> Before(dir, first, k)
    ensures Listed(dir, [first] + tail)
  {
    assert forall j :: 0 <= j < |tail| ==> tail[j] in tail;
  }

  lemma {:induction false} ListingIsListed(dir: Direction, keys: set<Key>)
    ensures Listed(dir, Listing(dir, keys))
    ensures |Listing(dir, keys)| == |keys|
    ensures forall k :: k in Listing(dir, keys) <==> k in keys
    decreases |keys|
  {
    if keys != {} {
      var first := First(dir, keys);
      ListingIsListed(dir, keys - {first});
      FirstThenRest(dir, first, Listing(dir, keys - {first}));
    }
  }

  lemma NonEmptyHasOne(s: seq<Key>)
    ensures s != [] ==> exists k :: k in s
  {
    assert s != [] ==> s[0] in s;
  }

  lemma TailOf(dir: Direction, s: seq<Key>)
    requires Listed(dir, s) && s != []
    ensures Listed(dir, s[1..]) && forall k :: k in s[1..] <==> k in s && k != s[0]
  {
  }

  /** There is only one way to list a set of rows. */
  lemma {:induction false} ListedIsUnique(dir: Direction, s: seq<Key>, t: seq<Key>)
    requires Listed(dir, s) && Listed(dir, t) && forall k :: k in s <==> k in t
    ensures s == t
  {
    NonEmptyHasOne(t);
    if s != [] {
      assert s[0] in t;
      assert t[0] in s;
      assert s[0] == t[0];
      TailOf(dir, s);
      TailOf(dir, t);
      ListedIsUnique(dir, s[1..], t[1..]);
    }
  }

  // ── One page ───────────────────────────────────────────────────────────────

  ghost function Remaining(dir: Direction, keys: set<Key>, cursor: Option<Key>): set<Key> {
    set k | k in keys && (cursor.Some? ==> Before(dir, cursor.value, k))
  }

  /** LIMIT limit + 1: one row more than asked for answers whether there is another page. */
  function Cut(rows: seq<Key>, limit: nat): Page
    requires limit >= 1
  {
    var fetched := if |rows| > limit + 1 then rows[..limit + 1] else rows;
    var page := if |fetched| > limit then fetched[..limit] else fetched;
    Page(page, if |fetched| > limit then Some(page[|page| - 1]) else None)
  }

  ghost function Fetch(dir: Direction, keys: set<Key>, cursor: Option<Key>, limit: nat): Page
    requires limit >= 1
  {
    Cut(Listing(dir, Remaining(dir, keys, cursor)), limit)
  }

  /** Past the cursor, and not past the page's own last row when another page follows. */
  predicate InWindow(dir: Direction, cursor: Option<Key>, next: Option<Key>, k: Key) {
    && (cursor.Some? ==> Before(dir, cursor.value, k))
    && (next.Some? ==> k == next.value || Before(dir, k, next.value))
  }

  lemma CutIsWindow(dir: Direction, rows: seq<Key>, limit: nat)
    requires limit >= 1 && Listed(dir, rows)
    ensures var page := Cut(rows, limit);
            && Listed(dir, page.items) && |page.items| <= limit
            && (page.next.Some? ==> page.next.value in page.items)
            && forall k :: k in page.items <==> k in rows && InWindow(dir, None, page.next, k)
  {
  }

  /** A page is exactly the matching rows in its window, in order. */
  lemma FetchIsWindow(dir: Direction, keys: set<Key>, cursor: Option<Key>, limit: nat)
    requires limit >= 1
    ensures var page := Fetch(dir, keys, cursor, limit);
            && Listed(dir, page.items) && |page.items| <= limit
            && (page.next.Some? ==> page.next.value in page.items)
            && forall k :: k in page.items <==> k in keys && InWindow(dir, cursor, page.next, k)
  {
    ListingIsListed(dir, Remaining(dir, keys, cursor));
    CutIsWindow(dir, Listing(dir, Remaining(dir, keys, cursor)), limit);
  }

  /** A page is full unless fewer rows are left, and there is a cursor exactly when more are left than it holds. */
  lemma PageSize(dir: Direction, keys: set<Key>, cursor: Option<Key>, limit: nat)
    requires limit >= 1
    ensures var page, left := Fetch(dir, keys, cursor, limit), |Remaining(dir, keys, cursor)|;
            && |page.items| == (if left > limit then limit else left)
            && (page.next.Some? <==> left > limit)
            && (page.next.Some? ==> page.next.value == page.items[limit - 1])
  {
    ListingIsListed(dir, Remaining(dir, keys, cursor));
  }

  // ── Following the cursors ──────────────────────────────────────────────────

  function CursorAt(pages: seq<Page>, i: nat): Option<Key>
    requires i <= |pages|
  {
    if i == 0 then None else pages[i - 1].next
  }

  /** Request i is answered from the table as it is then. */
  ghost predicate AnsweredAt(dir: Direction, limit: nat, tables: seq<set<Key>>, pages: seq<Page>, i: nat)
    requires limit >= 1 && i < |pages| == |tables|
  {
    pages[i] == Fetch(dir, tables[i], CursorAt(pages, i), limit)
  }

  /** One request per table state, each with the last one's cursor. */
  ghost predicate Asked(dir: Direction, limit: nat, tables: seq<set<Key>>, pages: seq<Page>)
    requires limit >= 1
  {
    && |pages| == |tables| > 0
    && (forall i :: 0 <= i < |pages| ==> AnsweredAt(dir, limit, tables, pages, i))
    && (forall i :: 0 <= i < |pages| - 1 ==> pages[i].next.Some?)
  }

  /** The same, until there is no cursor. */
  ghost predicate Followed(dir: Direction, limit: nat, tables: seq<set<Key>>, pages: seq<Page>)
    requires limit >= 1
  {
    Asked(dir, limit, tables, pages) && pages[|pages| - 1].next.None?
  }

  predicate WindowAt(dir: Direction, pages: seq<Page>, i: nat, k: Key)
    requires i < |pages|
  {
    InWindow(dir, CursorAt(pages, i), pages[i].next, k)
  }

  predicate MovesOn(dir: Direction, pages: seq<Page>, i: nat)
    requires 0 < i < |pages| && pages[i - 1].next.Some? && pages[i].next.Some?
  {
    Before(dir, pages[i - 1].next.value, pages[i].next.value)
  }

  /** Only the last page ends the walk, and every other one moves the cursor strictly forward. */
  predicate Advancing(dir: Direction, pages: seq<Page>) {
    && pages != []
    && (forall i :: 0 <= i < |pages| ==> (pages[i].next == None <==> i == |pages| - 1))
    && (forall i :: 0 < i < |pages| - 1 ==> MovesOn(dir, pages, i))
  }

  /** Page i holds exactly the rows of table i in its window. */
  ghost predicate HoldsWindow(dir: Direction, tables: seq<set<Key>>, pages: seq<Page>, i: nat)
    requires i < |pages| == |tables|
  {
    && Listed(dir, pages[i].items)
    && forall k :: k in pages[i].items <==> k in tables[i] && WindowAt(dir, pages, i, k)
  }

  lemma PageHoldsWindow(dir: Direction, limit: nat, tables: seq<set<Key>>, pages: seq<Page>, i: nat)
    requires limit >= 1 && Followed(dir, limit, tables, pages) && i < |pages|
    ensures HoldsWindow(dir, tables, pages, i)
    ensures pages[i].next.Some? ==> WindowAt(dir, pages, i, pages[i].next.value)
  {
    assert AnsweredAt(dir, limit, tables, pages, i);
    FetchIsWindow(dir, tables[i], CursorAt(pages, i), limit);
  }

  lemma {:induction false} FollowedAdvances(dir: Direction, limit: nat, tables: seq<set<Key>>, pages: seq<Page>)
    requires limit >= 1 && Followed(dir, limit, tables, pages)
    ensures Advancing(dir, pages)
  {
    forall i | 0 < i < |pages| - 1
      ensures MovesOn(dir, pages, i)
    {
      PageHoldsWindow(dir, limit, tables, pages, i);
    }
  }

  lemma {:induction false} CursorsAdvance(dir: Direction, pages: seq<Page>, i: nat, j: nat)
    requires Advancing(dir, pages) && i < j < |pages| - 1
    ensures Before(dir, pages[i].next.value, pages[j].next.value)
  {
    assert MovesOn(dir, pages, j);
    if i < j - 1 {
      CursorsAdvance(dir, pages, i, j - 1);
    }
  }

  /** A key in one page's window is in no later page's. */
  lemma WindowsDisjoint(dir: Direction, pages: seq<Page>, i: nat, j: nat, k: Key)
    requires Advancing(dir, pages) && i < j < |pages| && WindowAt(dir, pages, i, k)
    ensures !WindowAt(dir, pages, j, k)
  {
    if i < j - 1 {
      CursorsAdvance(dir, pages, i, j - 1);
    }
  }

  /** Every possible key falls in the window of exactly one page. */
  lemma WindowsPartition(dir: Direction, pages: seq<Page>, k: Key) returns (at: nat)
    requires Advancing(dir, pages)
    ensures at < |pages|
    ensures forall i :: 0 <= i < |pages| ==> (WindowAt(dir, pages, i, k) <==> i == at)
  {
    at := 0;
    while pages[at].next.Some? && Before(dir, pages[at].next.value, k)
      invariant at < |pages|
      invariant at > 0 ==> pages[at - 1].next.Some? && Before(dir, pages[at - 1].next.value, k)
      decreases |pages| - at
    {
      at := at + 1;
    }
    assert WindowAt(dir, pages, at, k);
    forall i | 0 <= i < |pages| && i != at
      ensures !WindowAt(dir, pages, i, k)
    {
      if i < at {
        if WindowAt(dir, pages, i, k) {
          WindowsDisjoint(dir, pages, i, at, k);
        }
      } else {
        WindowsDisjoint(dir, pages, at, i, k);
      }
    }
  }

  /** The pages a key is on: the one whose window holds it, if the table of that moment has it. */
  lemma {:induction false} ReturnedIff(dir: Direction, limit: nat, tables: seq<set<Key>>, pages: seq<Page>, k: Key)
    returns (at: nat)
    requires limit >= 1 && Followed(dir, limit, tables, pages)
    ensures Advancing(dir, pages)
    ensures at < |pages| == |tables| && WindowAt(dir, pages, at, k)
    ensures forall i :: 0 <= i < |pages| ==> (k in pages[i].items <==> i == at && k in tables[i])
  {
    FollowedAdvances(dir, limit, tables, pages);
    at := WindowsPartition(dir, pages, k);
    forall i | 0 <= i < |pages|
      ensures k in pages[i].items <==> i == at && k in tables[i]
    {
      PageHoldsWindow(dir, limit, tables, pages, i);
    }
  }

  /** How many times pages list a key; a page lists it at most once. */
  function Times(pages: seq<Page>, k: Key): nat {
    if pages == [] then 0
    else Times(pages[..|pages| - 1], k) + if k in pages[|pages| - 1].items then 1 else 0
  }

  lemma {:induction false} TimesIs(pages: seq<Page>, k: Key, at: nat)
    requires at < |pages| && forall i :: 0 <= i < |pages| && i != at ==> k !in pages[i].items
    ensures Times(pages, k) == if k in pages[at].items then 1 else 0
  {
    var last := |pages| - 1;
    if at == last {
      TimesZero(pages[..last], k);
    } else {
      TimesIs(pages[..last], k, at);
    }
  }

  lemma {:induction false} TimesZero(pages: seq<Page>, k: Key)
    requires forall i :: 0 <= i < |pages| ==> k !in pages[i].items
    ensures Times(pages, k) == 0
  {
    if pages != [] {
      TimesZero(pages[..|pages| - 1], k);
    }
  }

  /** A key is listed at most once, and exactly once if it is there whenever its window comes up. */
  lemma {:induction false} UnchangedRowExactlyOnce(dir: Direction, limit: nat, tables: seq<set<Key>>,
          pages: seq<Page>, k: Key)
    requires limit >= 1 && Followed(dir, limit, tables, pages)
    ensures Times(pages, k) <= 1
    ensures (forall i :: 0 <= i < |tables| ==> k in tables[i]) ==> Times(pages, k) == 1
    ensures (forall i :: 0 <= i < |tables| ==> k !in tables[i]) ==> Times(pages, k) == 0
  {
    var at := ReturnedIff(dir, limit, tables, pages, k);
    TimesIs(pages, k, at);
  }

  /** A table that only grows, as the audit log does: everything there at the first request comes exactly once. */
  lemma {:induction false} GrowingTableComplete(dir: Direction, limit: nat, tables: seq<set<Key>>, pages: seq<Page>,
          k: Key)
    requires limit >= 1 && Followed(dir, limit, tables, pages)
    requires forall i, j :: 0 <= i < j < |tables| ==> tables[i] <= tables[j]
    requires k in tables[0]
    ensures Times(pages, k) == 1
  {
    assert forall i :: 0 < i < |tables| ==> tables[0] <= tables[i];
    UnchangedRowExactlyOnce(dir, limit, tables, pages, k);
  }

  // ── Rows whose key changes ─────────────────────────────────────────────────

  /** The row carries `old` up to request `t` and `now` from it on, and matches throughout. */
  ghost predicate MovesAt(tables: seq<set<Key>>, t: nat, was: Key, now: Key) {
    && 0 < t < |tables| && was != now
    && (forall i :: 0 <= i < |tables| ==> (was in tables[i] <==> i < t))
    && (forall i :: 0 <= i < |tables| ==> (now in tables[i] <==> t <= i))
  }

  /**
   * Exactly how often a row whose key changes once is listed: once if the change leaves it
   * on the same side of the cursor in force, twice if it moves ahead of it, and never if it
   * moves from ahead of it to behind.
   */
  lemma {:induction false} MovedRow(dir: Direction, limit: nat, tables: seq<set<Key>>, pages: seq<Page>, t: nat,
                                    was: Key, now: Key)
    requires limit >= 1 && Followed(dir, limit, tables, pages) && MovesAt(tables, t, was, now)
    ensures CursorAt(pages, t).Some?
    ensures var cursor := CursorAt(pages, t).value;
            && Times(pages, was) == (if Before(dir, cursor, was) then 0 else 1)
            && Times(pages, now) == (if Before(dir, cursor, now) then 1 else 0)
  {
    var o := ReturnedIff(dir, limit, tables, pages, was);
    var n := ReturnedIff(dir, limit, tables, pages, now);
    WindowSide(dir, pages, t, o, was);
    WindowSide(dir, pages, t, n, now);
    TimesIs(pages, was, o);
    TimesIs(pages, now, n);
  }

  /** A key's window comes before request `t` exactly when the key is not past the cursor of request `t`. */
  lemma WindowSide(dir: Direction, pages: seq<Page>, t: nat, at: nat, k: Key)
    requires Advancing(dir, pages) && 0 < t < |pages| && at < |pages| && WindowAt(dir, pages, at, k)
    ensures CursorAt(pages, t).Some?
    ensures at < t <==> !Before(dir, CursorAt(pages, t).value, k)
  {
    if at < t - 1 {
      CursorsAdvance(dir, pages, at, t - 1);
    } else if t < at {
      CursorsAdvance(dir, pages, t - 1, at - 1);
    }
  }

  const HIGH := Key(3, 3)
  const LOW := Key(2, 2)
  const STALE := Key(1, 1)
  const TOUCHED := Key(9, 1)

  /** Newest first, pages of two, and the third row touched between the two requests. */
  lemma TouchedWalk()
    ensures Followed(Desc, 2, [{HIGH, LOW, STALE}, {HIGH, LOW, TOUCHED}], [Page([HIGH, LOW], Some(LOW)), Page([], None)])
  {
    FetchFrom(Desc, {HIGH, LOW, STALE}, None, 2, [HIGH, LOW, STALE]);
    FetchFrom(Desc, {HIGH, LOW, TOUCHED}, Some(LOW), 2, []);
  }

  /** It is there, and matches, at both requests; no page lists it. */
  lemma TouchedRowIsDropped()
    ensures var tables := [{HIGH, LOW, STALE}, {HIGH, LOW, TOUCHED}];
            var pages := [Page([HIGH, LOW], Some(LOW)), Page([], None)];
            && Followed(Desc, 2, tables, pages)
            && MovesAt(tables, 1, STALE, TOUCHED)
            && Times(pages, STALE) == 0 && Times(pages, TOUCHED) == 0
  {
    TouchedWalk();
    var pages := [Page([HIGH, LOW], Some(LOW)), Page([], None)];
    TimesZero(pages, STALE);
    TimesZero(pages, TOUCHED);
  }

  lemma FetchFrom(dir: Direction, keys: set<Key>, cursor: Option<Key>, limit: nat, rest: seq<Key>)
    requires limit >= 1 && Listed(dir, rest)
    requires forall k :: k in rest <==> k in keys && (cursor.Some? ==> Before(dir, cursor.value, k))
    ensures Fetch(dir, keys, cursor, limit) == Cut(rest, limit)
  {
    ListedFrom(dir, Remaining(dir, keys, cursor), rest);
  }

  lemma ListedFrom(dir: Direction, keys: set<Key>, s: seq<Key>)
    requires Listed(dir, s) && forall k :: k in s <==> k in keys
    ensures Listing(dir, keys) == s
  {
    ListingIsListed(dir, keys);
    ListedIsUnique(dir, s, Listing(dir, keys));
  }

  // ── A table that holds still ───────────────────────────────────────────────

  function Joined(pages: seq<Page>): seq<Key> {
    if pages == [] then [] else Joined(pages[..|pages| - 1]) + pages[|pages| - 1].items
  }

  lemma {:induction false} JoinedIsListed(dir: Direction, tables: seq<set<Key>>, pages: seq<Page>, n: nat)
    requires Advancing(dir, pages) && |pages| == |tables| && n <= |pages|
    requires forall i :: 0 <= i < |pages| ==> HoldsWindow(dir, tables, pages, i)
    ensures Listed(dir, Joined(pages[..n]))
    ensures UpTo(dir, Joined(pages[..n]), CursorAt(pages, n))
  {
    if n > 0 {
      var before, page := Joined(pages[..n - 1]), pages[n - 1];
      JoinedIsListed(dir, tables, pages, n - 1);
      assert pages[..n][..n - 1] == pages[..n - 1];
      assert HoldsWindow(dir, tables, pages, n - 1);
      assert 0 < n - 1 < |pages| - 1 ==> MovesOn(dir, pages, n - 1);
      assert forall k :: k in page.items ==> InWindow(dir, CursorAt(pages, n - 1), page.next, k);
      ListedJoins(dir, before, page.items, CursorAt(pages, n - 1));
      UpToJoins(dir, before, page.items, CursorAt(pages, n - 1), page.next);
    }
  }

  /** However the tables change, the walk comes out in list order: no key comes twice or out of place. */
  lemma WalkIsListed(dir: Direction, limit: nat, tables: seq<set<Key>>, pages: seq<Page>)
    requires limit >= 1 && Followed(dir, limit, tables, pages)
    ensures Listed(dir, Joined(pages))
  {
    FollowedAdvances(dir, limit, tables, pages);
    forall i | 0 <= i < |pages|
      ensures HoldsWindow(dir, tables, pages, i)
    {
      PageHoldsWindow(dir, limit, tables, pages, i);
    }
    JoinedIsListed(dir, tables, pages, |pages|);
    assert pages[..|pages|] == pages;
  }

  /** Nothing in `s` is past the cursor. */
  predicate UpTo(dir: Direction, s: seq<Key>, cursor: Option<Key>) {
    cursor.Some? ==> forall i :: 0 <= i < |s| ==> s[i] == cursor.value || Before(dir, s[i], cursor.value)
  }

  lemma UpToJoins(dir: Direction, s: seq<Key>, t: seq<Key>, cursor: Option<Key>, next: Option<Key>)
    requires UpTo(dir, s, cursor) && (cursor.None? ==> s == [])
    requires cursor.Some? && next.Some? ==> Before(dir, cursor.value, next.value)
    requires forall k :: k in t ==> InWindow(dir, cursor, next, k)
    ensures UpTo(dir, s + t, next)
  {
    assert forall i :: 0 <= i < |t| ==> t[i] in t;
  }

  lemma ListedJoins(dir: Direction, s: seq<Key>, t: seq<Key>, cursor: Option<Key>)
    requires Listed(dir, s) && Listed(dir, t)
    requires UpTo(dir, s, cursor) && (cursor.None? ==> s == [])
    requires cursor.Some? ==> forall k :: k in t ==> Before(dir, cursor.value, k)
    ensures Listed(dir, s + t)
  {
    forall i, j | 0 <= i < j < |s + t|
      ensures Before(dir, (s + t)[i], (s + t)[j])
    {
      if i < |s| <= j {
        assert t[j - |s|] in t;
      }
    }
  }

  lemma {:induction false} JoinedHasAll(pages: seq<Page>, k: Key)
    ensures k in Joined(pages) <==> exists i :: 0 <= i < |pages| && k in pages[i].items
  {
    if pages != [] {
      JoinedHasAll(pages[..|pages| - 1], k);
    }
  }

  /** With the table unchanged, the pages joined end to end are the sorted, filtered list. */
  lemma {:induction false} FixedTableIsTheList(dir: Direction, limit: nat, tables: seq<set<Key>>, pages: seq<Page>,
          keys: set<Key>)
    requires limit >= 1 && Followed(dir, limit, tables, pages)
    requires forall i :: 0 <= i < |tables| ==> tables[i] == keys
    ensures Joined(pages) == Listing(dir, keys)
  {
    WalkIsListed(dir, limit, tables, pages);
    forall k
      ensures k in Joined(pages) <==> k in keys
    {
      FixedTableHasAll(dir, limit, tables, pages, keys, k);
    }
    ListedFrom(dir, keys, Joined(pages));
  }

  lemma {:induction false} FixedTableHasAll(dir: Direction, limit: nat, tables: seq<set<Key>>, pages: seq<Page>,
          keys: set<Key>, k: Key)
    requires limit >= 1 && Followed(dir, limit, tables, pages)
    requires forall i :: 0 <= i < |tables| ==> tables[i] == keys
    ensures k in Joined(pages) <==> k in keys
  {
    JoinedHasAll(pages, k);
    var at := ReturnedIff(dir, limit, tables, pages, k);
    assert k in pages[at].items <==> k in keys;
  }

  /** Every page but the last is full, so the pages before page `n` hold `n` times the limit. */
  lemma {:induction false} FullPages(dir: Direction, limit: nat, tables: seq<set<Key>>, pages: seq<Page>, n: nat)
    requires limit >= 1 && Followed(dir, limit, tables, pages) && n < |pages|
    ensures |Joined(pages[..n])| == n * limit
  {
    if n > 0 {
      FullPages(dir, limit, tables, pages, n - 1);
      assert pages[..n][..n - 1] == pages[..n - 1];
      assert AnsweredAt(dir, limit, tables, pages, n - 1);
      PageSize(dir, tables[n - 1], CursorAt(pages, n - 1), limit);
      assert n * limit == (n - 1) * limit + limit;
    }
  }

  /** Something is left for the last page, unless it is the first. */
  lemma LastPageHolds(dir: Direction, limit: nat, tables: seq<set<Key>>, pages: seq<Page>, keys: set<Key>)
    requires limit >= 1 && Followed(dir, limit, tables, pages)
    requires forall i :: 0 <= i < |tables| ==> tables[i] == keys
    ensures var last := |pages| - 1;
            |pages[last].items| <= limit && (last > 0 ==> |pages[last].items| >= 1)
  {
    var last := |pages| - 1;
    assert AnsweredAt(dir, limit, tables, pages, last);
    PageSize(dir, keys, CursorAt(pages, last), limit);
    if last > 0 {
      var before := Remaining(dir, keys, CursorAt(pages, last - 1));
      assert AnsweredAt(dir, limit, tables, pages, last - 1);
      PageSize(dir, keys, CursorAt(pages, last - 1), limit);
      FetchIsWindow(dir, keys, CursorAt(pages, last - 1), limit);
      var page := pages[last - 1];
      if Remaining(dir, keys, page.next) == {} {
        forall k | k in before
          ensures k in page.items
        {
          assert k !in Remaining(dir, keys, page.next);
        }
        FewerDistinct(page.items, before);
      }
    }
  }

  lemma {:induction false} FewerDistinct(s: seq<Key>, keys: set<Key>)
    requires forall k :: k in keys ==> k in s
    ensures |keys| <= |s|
  {
    if s == [] {
      assert keys == {};
    } else {
      var last := s[|s| - 1];
      FewerDistinct(s[..|s| - 1], keys - {last});
      assert |keys - {last}| >= |keys| - 1;
    }
  }

  /** How many requests a table that holds still takes: as many as pages are needed, and one if it is empty. */
  lemma {:induction false} RequestsNeeded(dir: Direction, limit: nat, tables: seq<set<Key>>, pages: seq<Page>, keys: set<Key>)
    requires limit >= 1 && Followed(dir, limit, tables, pages)
    requires forall i :: 0 <= i < |tables| ==> tables[i] == keys
    ensures |keys| == 0 ==> |pages| == 1
    ensures |keys| > 0 ==> (|pages| - 1) * limit < |keys| <= |pages| * limit
  {
    var last := |pages| - 1;
    FullPages(dir, limit, tables, pages, last);
    LastPageHolds(dir, limit, tables, pages, keys);
    FixedTableIsTheList(dir, limit, tables, pages, keys);
    ListingIsListed(dir, keys);
    assert |Joined(pages)| == last * limit + |pages[last].items|;
    RoundedUp(|keys|, last, limit, |pages[last].items|);
  }

  lemma RoundedUp(total: nat, full: nat, limit: nat, rest: nat)
    requires limit >= 1 && rest <= limit && (full > 0 ==> rest >= 1) && total == full * limit + rest
    ensures total == 0 ==> full == 0
    ensures total > 0 ==> full * limit < total <= (full + 1) * limit
  {
    assert (full + 1) * limit == full * limit + limit;
    assert full * limit >= 0;
  }

  lemma AskAgain(dir: Direction, limit: nat, tables: seq<set<Key>>, pages: seq<Page>, keys: set<Key>, page: Page)
    requires limit >= 1 && Asked(dir, limit, tables, pages) && pages[|pages| - 1].next.Some?
    requires page == Fetch(dir, keys, pages[|pages| - 1].next, limit)
    ensures Asked(dir, limit, tables + [keys], pages + [page])
  {
    forall i | 0 <= i <= |pages|
      ensures AnsweredAt(dir, limit, tables + [keys], pages + [page], i)
    {
      assert CursorAt(pages + [page], i) == CursorAt(pages, i);
      assert i < |pages| ==> AnsweredAt(dir, limit, tables, pages, i);
    }
  }

  /** Asking on over one table, with the cursor last handed out, until there is none. */
  lemma {:induction false} AskOn(dir: Direction, limit: nat, keys: set<Key>, tables: seq<set<Key>>, pages: seq<Page>)
    returns (allTables: seq<set<Key>>, allPages: seq<Page>)
    requires limit >= 1 && Asked(dir, limit, tables, pages) && forall i :: 0 <= i < |tables| ==> tables[i] == keys
    ensures Followed(dir, limit, allTables, allPages) && forall i :: 0 <= i < |allTables| ==> allTables[i] == keys
    decreases Ahead(dir, keys, pages[|pages| - 1].next)
  {
    var cursor := pages[|pages| - 1].next;
    if cursor.None? {
      allTables, allPages := tables, pages;
    } else {
      var page := Fetch(dir, keys, cursor, limit);
      AskAgain(dir, limit, tables, pages, keys, page);
      CursorCatchesUp(dir, keys, cursor, limit);
      allTables, allPages := AskOn(dir, limit, keys, tables + [keys], pages + [page]);
    }
  }

  /** The walk over such a table does end: a client that follows cursors gets the whole list in finitely many requests. */
  lemma WalkEnds(dir: Direction, limit: nat, keys: set<Key>) returns (tables: seq<set<Key>>, pages: seq<Page>)
    requires limit >= 1
    ensures Followed(dir, limit, tables, pages)
    ensures forall i :: 0 <= i < |tables| ==> tables[i] == keys
    ensures Joined(pages) == Listing(dir, keys)
  {
    FirstAsked(dir, limit, keys);
    tables, pages := AskOn(dir, limit, keys, [keys], [Fetch(dir, keys, None, limit)]);
    FixedTableIsTheList(dir, limit, tables, pages, keys);
  }

  lemma FirstAsked(dir: Direction, limit: nat, keys: set<Key>)
    requires limit >= 1
    ensures Asked(dir, limit, [keys], [Fetch(dir, keys, None, limit)])
  {
  }

  /** What is left to fetch when a cursor is handed out. */
  ghost function Ahead(dir: Direction, keys: set<Key>, cursor: Option<Key>): nat {
    if cursor.None? then 0 else 1 + |Remaining(dir, keys, cursor)|
  }

  lemma CursorCatchesUp(dir: Direction, keys: set<Key>, cursor: Option<Key>, limit: nat)
    requires limit >= 1 && cursor.Some?
    ensures Ahead(dir, keys, Fetch(dir, keys, cursor, limit).next) < Ahead(dir, keys, cursor)
  {
    var next := Fetch(dir, keys, cursor, limit).next;
    FetchIsWindow(dir, keys, cursor, limit);
    if next.Some? {
      var before, after := Remaining(dir, keys, cursor), Remaining(dir, keys, next);
      assert next.value in before && next.value !in after;
      FewerLeft(before, after, next.value);
    }
  }

  lemma FewerLeft(before: set<Key>, after: set<Key>, k: Key)
    requires after <= before && k in before && k !in after
    ensures |after| < |before|
  {
    assert |before - {k}| == |before| - 1;
    AtMost(after, before - {k});
  }

  lemma {:induction false} AtMost(a: set<Key>, b: set<Key>)
    requires a <= b
    ensures |a| <= |b|
  {
    if a != {} {
      var k :| k in a;
      AtMost(a - {k}, b - {k});
    }
  }
}
