/** Keyset pagination: the pages of `listAuctions`, and the client that follows their cursors. */
module Pagination {
  import opened Domain
  import opened Cursor
  import opened Subsequences

  /** A listed auction; ids are canonical UUID text, whose order as text is their order as UUIDs. */
  datatype Item = Item(id: string, start: Civil, status: Status)

  datatype Bound = Bound(start: Civil, id: string)

  // ---------- the order of the listing ----------

  /** Valid instants compare as these numbers do. */
  function Rank(t: Civil): int {
    (((((t.year * 13 + t.month) * 32 + t.day) * 24 + t.hour) * 60 + t.minute) * 60 + t.second) * 1_000_000_000 + t.nano
  }

  predicate TextBefore(s: string, t: string) {
    t != "" && (s == "" || s[0] < t[0] || (s[0] == t[0] && TextBefore(s[1..], t[1..])))
  }

  /** `start_time < b.start or (start_time = b.start and id < b.id)` */
  predicate Below(x: Item, b: Bound) {
    Rank(x.start) < Rank(b.start) || (Rank(x.start) == Rank(b.start) && TextBefore(x.id, b.id))
  }

  function BoundOf(x: Item): Bound {
    Bound(x.start, x.id)
  }

  predicate Before(x: Item, y: Item) {
    Below(x, BoundOf(y))
  }

  lemma {:induction false} TextOrder(s: string, t: string, u: string)
    ensures !TextBefore(s, s)
    ensures TextBefore(s, t) && TextBefore(t, u) ==> TextBefore(s, u)
    ensures s != t ==> TextBefore(s, t) || TextBefore(t, s)
    decreases |s| + |t| + |u|
  {
    if s != "" && t != "" && u != "" {
      TextOrder(s[1..], t[1..], u[1..]);
      assert s == [s[0]] + s[1..] && t == [t[0]] + t[1..];
    } else if s != "" && t != "" {
      TextOrder(s[1..], t[1..], "");
      assert s == [s[0]] + s[1..] && t == [t[0]] + t[1..];
    } else if s != "" {
      TextOrder(s[1..], "", "");
    }
  }

  lemma Order(x: Item, y: Item, z: Item)
    ensures !Before(x, x)
    ensures Before(x, y) && Before(y, z) ==> Before(x, z)
    ensures Before(x, y) ==> !Before(y, x)
    ensures x.id != y.id ==> Before(x, y) || Before(y, x)
  {
    TextOrder(x.id, y.id, z.id);
    TextOrder(x.id, y.id, x.id);
  }

  lemma BelowTransitive(x: Item, y: Item, b: Bound)
    requires Before(x, y) && Below(y, b)
    ensures Below(x, b)
  {
    TextOrder(x.id, y.id, b.id);
  }

  /** Ids are a primary key. */
  predicate Keyed(items: set<Item>) {
    forall x, y | x in items && y in items && x.id == y.id :: x == y
  }

  predicate Descending(items: seq<Item>) {
    forall i, j | 0 <= i < j < |items| :: Before(items[j], items[i])
  }

  ghost predicate Tops(m: Item, items: set<Item>) {
    m in items && forall x | x in items && x != m :: Before(x, m)
  }

  lemma {:induction false} GreatestExists(items: set<Item>)
    requires items != {} && Keyed(items)
    ensures exists m :: Tops(m, items)
    decreases |items|
  {
    var m :| m in items;
    var rest := items - {m};
    if rest == {} {
      assert items == {m};
      assert Tops(m, items);
    } else {
      GreatestExists(rest);
      var n :| Tops(n, rest);
      Order(m, n, n);
      if Before(m, n) {
        assert Tops(n, items);
      } else {
        forall x | x in items && x != m ensures Before(x, m) {
          assert x in rest;
          Order(x, n, m);
        }
        assert Tops(m, items);
      }
    }
  }

  /** These items, in descending order. */
  ghost predicate IsListing(items: set<Item>, s: seq<Item>) {
    Descending(s) && forall x :: x in s <==> x in items
  }

  /** The greatest item, and then the others. */
  lemma ListingOf(items: set<Item>, m: Item, rest: seq<Item>)
    requires Tops(m, items) && IsListing(items - {m}, rest)
    ensures IsListing(items, [m] + rest)
  {
    assert forall x | x in rest :: Before(x, m);
  }

  lemma {:induction false} ListingExists(items: set<Item>)
    requires Keyed(items)
    ensures exists s :: IsListing(items, s) && |s| == |items|
    decreases |items|
  {
    if items == {} {
      assert IsListing(items, []);
    } else {
      GreatestExists(items);
      var m :| Tops(m, items);
      ListingExists(items - {m});
      var rest :| IsListing(items - {m}, rest) && |rest| == |items - {m}|;
      ListingOf(items, m, rest);
      assert IsListing(items, [m] + rest);
    }
  }

  /** `order by start_time desc, id desc` */
  ghost function Sorted(items: set<Item>): (s: seq<Item>)
    requires Keyed(items)
    ensures IsListing(items, s) && |s| == |items|
  {
    ListingExists(items);
    var s :| IsListing(items, s) && |s| == |items|;
    s
  }

  lemma ListingHead(items: set<Item>, s: seq<Item>)
    requires IsListing(items, s) && s != []
    ensures Tops(s[0], items) && IsListing(items - {s[0]}, s[1..])
  {
    assert s[0] in s;
    forall x | x in items && x != s[0] ensures Before(x, s[0]) && x in s[1..] {
      var i :| 0 <= i < |s| && s[i] == x;
      assert s[1..][i - 1] == x;
    }
    forall x | x in s[1..] ensures x in items && x != s[0] {
      var i :| 0 <= i < |s[1..]| && s[1..][i] == x;
      assert s[i + 1] == x && x in s;
      Order(x, x, x);
    }
  }

  lemma HasFirst(s: seq<Item>)
    requires s != []
    ensures s[0] in s
  {
  }

  /** There is no other way to list these items in descending order. */
  lemma {:induction false} ListingUnique(items: set<Item>, s: seq<Item>, t: seq<Item>)
    requires IsListing(items, s) && IsListing(items, t)
    ensures s == t
    decreases |s|
  {
    if s != [] && t != [] {
      ListingHead(items, s);
      ListingHead(items, t);
      Order(s[0], t[0], s[0]);
      ListingUnique(items - {s[0]}, s[1..], t[1..]);
      assert s == [s[0]] + s[1..] && t == [t[0]] + t[1..];
    } else if s != [] {
      HasFirst(s);
    } else if t != [] {
      HasFirst(t);
    }
  }

  ghost function Under(items: set<Item>, y: Item): set<Item> {
    set x | x in items && Before(x, y)
  }

  /** What lies below an item of the listing is the rest of the listing. */
  lemma BelowIsSuffix(items: set<Item>, i: nat)
    requires Keyed(items) && i < |Sorted(items)|
    ensures Sorted(Under(items, Sorted(items)[i])) == Sorted(items)[i + 1..]
  {
    var s := Sorted(items);
    forall x ensures x in s[i + 1..] <==> x in Under(items, s[i]) {
      if x in items && Before(x, s[i]) {
        var j :| 0 <= j < |s| && s[j] == x;
        Order(x, s[i], x);
        assert i < j && s[i + 1..][j - i - 1] == x;
      }
      if x in s[i + 1..] {
        var j :| 0 <= j < |s[i + 1..]| && s[i + 1..][j] == x;
        assert s[i + 1 + j] == x && x in s;
      }
    }
    ListingUnique(Under(items, s[i]), s[i + 1..], Sorted(Under(items, s[i])));
  }

  // ---------- one page ----------

  /** The rows a query is about. */
  ghost function Matching(table: set<Item>, status: Status, bound: Option<Bound>): set<Item> {
    set x | x in table && x.status == status && (bound.Some? ==> Below(x, bound.value))
  }

  /** The result of the query with `limit n`. */
  ghost function Query(table: set<Item>, status: Status, bound: Option<Bound>, n: nat): seq<Item>
    requires Keyed(table)
  {
    var all := Sorted(Matching(table, status, bound));
    if n < |all| then all[..n] else all
  }

  /** `Invalid` is the 400 and `Failed` the 500. */
  datatype Response =
    | Invalid
    | Failed
    | Page(items: seq<Item>, next: string, more: bool)

  /** Zero, which an absent or unreadable parameter gives, means 20. */
  function LimitOf(param: int): Option<nat> {
    var limit := if param == 0 then 20 else param;
    if 1 <= limit <= 100 then Some(limit) else None
  }

  /** The bound a cursor stands for; `None` is an invalid cursor. */
  function BoundFrom(cursor: string): Option<Option<Bound>> {
    var c := DecodeCursor(cursor);
    if c.None? then None
    else if c.value.1 == "" then Some(None)
    else Some(Some(Bound(c.value.0, c.value.1)))
  }

  predicate ValidItem(x: Item) {
    ValidCivil(x.start) && Ascii(x.id) && x.id != ""
  }

  /** The start of the last item makes a detour through its JSON text. */
  function NextCursor(last: Item): string
    requires ValidItem(last)
  {
    var start := Parse(Format(last.start));
    if start.None? then "" else EncodeCursor(start.value, last.id)
  }

  /** How cursors are made and read. */
  datatype Codec = Codec(decode: string -> Option<Option<Bound>>, encode: Item -> string)

  /** The cursors of the server. */
  const CURSORS: Codec := Codec(c => BoundFrom(c), x => if ValidItem(x) then NextCursor(x) else "")

  ghost predicate ValidTable(table: set<Item>) {
    Keyed(table) && forall x | x in table :: ValidItem(x)
  }

  /** The items of a page, and whether there are more. */
  datatype Slice = Slice(items: seq<Item>, more: bool)

  /** The first `limit` of the matching rows below the bound. */
  ghost function SliceAt(table: set<Item>, status: Status, limit: nat, bound: Option<Bound>): (p: Slice)
    requires Keyed(table)
    ensures Descending(p.items) && forall x | x in p.items :: x in Matching(table, status, bound)
    ensures p.more ==> |p.items| == limit
    ensures p.more <==> limit < |Matching(table, status, bound)|
  {
    var all := Sorted(Matching(table, status, bound));
    if |all| <= limit then Slice(all, false) else Slice(all[..limit], true)
  }

  /** What is not on the page comes after it. */
  lemma SliceLeaves(table: set<Item>, status: Status, limit: nat, bound: Option<Bound>, x: Item)
    requires Keyed(table) && 1 <= limit && x in Matching(table, status, bound)
    ensures var p := SliceAt(table, status, limit, bound);
            x in p.items || (p.more && Before(x, Last(p.items)))
  {
    var all := Sorted(Matching(table, status, bound));
    assert x in all;
    var i :| 0 <= i < |all| && all[i] == x;
    if i < limit < |all| {
      assert all[..limit][i] == x;
    }
  }

  lemma LastIn(items: seq<Item>)
    requires items != []
    ensures Last(items) in items
  {
  }

  /** What `listAuctions` answers. */
  ghost function ListPage(codec: Codec, table: set<Item>, status: Status, param: int, cursor: string): Response
    requires ValidTable(table)
  {
    var limit, bound := LimitOf(param), codec.decode(cursor);
    if limit.None? || bound.None? then Invalid
    else
      var p := SliceAt(table, status, limit.value, bound.value);
      Page(p.items, if p.more then codec.encode(Last(p.items)) else "", p.more)
  }

  /** The loop over the rows, and the cut. */
  method Collect(rows: seq<Item>, limit: nat) returns (items: seq<Item>, more: bool)
    ensures more <==> limit < |rows|
    ensures items == if more then rows[..limit] else rows
  {
    items := [];
    var i := 0;
    while i < |rows|
      invariant 0 <= i <= |rows| && items == rows[..i]
    {
      items := items + [rows[i]];
      i := i + 1;
    }
    more := |items| > limit;
    if more {
      items := items[..limit];
    }
  }

  /** One row more than the page tells whether there are more. */
  lemma FetchedIsSlice(table: set<Item>, status: Status, limit: nat, bound: Option<Bound>, rows: seq<Item>)
    requires ValidTable(table) && rows == Query(table, status, bound, limit + 1)
    ensures var p := SliceAt(table, status, limit, bound);
            && (p.more <==> limit < |rows|)
            && p.items == if limit < |rows| then rows[..limit] else rows
    ensures forall x | x in rows :: x in table
  {
    var all := Sorted(Matching(table, status, bound));
    assert forall x | x in rows :: x in all;
  }

  /**
   * `listAuctions`: `fetch` runs the query in the database and reads its rows, or fails to; the server's codec is
   * `CURSORS`. A failure is reported only for a request that is valid.
   */
  method ListAuctions(codec: Codec, ghost table: set<Item>, fetch: (Status, Option<Bound>, nat) -> Option<seq<Item>>,
                      status: Status, param: int, cursor: string) returns (r: Response)
    requires ValidTable(table)
    requires forall s, b, n :: fetch(s, b, n).Some? ==> fetch(s, b, n).value == Query(table, s, b, n)
    ensures var page := ListPage(codec, table, status, param, cursor);
            r == if page.Page? && fetch(status, codec.decode(cursor).value, LimitOf(param).value + 1).None? then Failed
                 else page
  {
    var limit := param;
    if limit == 0 {
      limit := 20;
    }
    if limit < 1 || limit > 100 {
      return Invalid;
    }
    var bound := codec.decode(cursor);
    if bound.None? {
      return Invalid;
    }
    var rows := fetch(status, bound.value, limit + 1);
    if rows.None? {
      return Failed;
    }
    FetchedIsSlice(table, status, limit, bound.value, rows.value);
    var items, more := Collect(rows.value, limit);
    var next := "";
    if more {
      next := codec.encode(items[|items| - 1]);
    }
    return Page(items, next, more);
  }

  /** Before, field by field. */
  predicate Earlier(t: Civil, u: Civil) {
    || t.year < u.year
    || (t.year == u.year && t.month < u.month)
    || (t.year == u.year && t.month == u.month && t.day < u.day)
    || (t.year == u.year && t.month == u.month && t.day == u.day && t.hour < u.hour)
    || (t.year == u.year && t.month == u.month && t.day == u.day && t.hour == u.hour && t.minute < u.minute)
    || (t.year == u.year && t.month == u.month && t.day == u.day && t.hour == u.hour && t.minute == u.minute
        && t.second < u.second)
    || (t.year == u.year && t.month == u.month && t.day == u.day && t.hour == u.hour && t.minute == u.minute
        && t.second == u.second && t.nano < u.nano)
  }

  /** The numbers order instants as time does, and tell any two of them apart. */
  lemma RankIsTime(t: Civil, u: Civil)
    requires ValidCivil(t) && ValidCivil(u)
    ensures Rank(t) < Rank(u) <==> Earlier(t, u)
    ensures Rank(t) == Rank(u) <==> t == u
  {
  }

  /** Where two texts part, the smaller one ends or has the smaller character. */
  predicate PartsAt(s: string, t: string, k: nat) {
    && k <= |s| && k < |t| && s[..k] == t[..k]
    && (k == |s| || s[k] < t[k])
  }

  lemma {:induction false} TextBeforeExactly(s: string, t: string)
    ensures TextBefore(s, t) <==> exists k: nat :: PartsAt(s, t, k)
    decreases |s|
  {
    if s == "" {
      assert t != "" ==> PartsAt(s, t, 0);
    } else if t != "" {
      if s[0] < t[0] {
        assert PartsAt(s, t, 0);
      } else if s[0] == t[0] {
        TextBeforeExactly(s[1..], t[1..]);
        if k: nat :| PartsAt(s[1..], t[1..], k) {
          assert s[..k + 1] == [s[0]] + s[1..][..k] && t[..k + 1] == [t[0]] + t[1..][..k];
          assert PartsAt(s, t, k + 1);
        }
      }
      if k: nat :| PartsAt(s, t, k) {
        if 0 < k {
          assert s[..k][0] == t[..k][0];
          assert s[1..][..k - 1] == s[..k][1..] && t[1..][..k - 1] == t[..k][1..];
          assert PartsAt(s[1..], t[1..], k - 1);
        }
      }
    }
  }

  /** Further down the listing than this start and id: earlier, or at the same start with a smaller id. */
  predicate Further(x: Item, start: Civil, id: string) {
    Earlier(x.start, start) || (x.start == start && TextBefore(x.id, id))
  }

  lemma BelowIsFurther(x: Item, b: Bound)
    requires ValidCivil(x.start) && ValidCivil(b.start)
    ensures Below(x, b) <==> Further(x, b.start, b.id)
  {
    RankIsTime(x.start, b.start);
  }

  lemma BoundIsValid(cursor: string)
    requires BoundFrom(cursor).Some? && BoundFrom(cursor).value.Some?
    ensures ValidCivil(BoundFrom(cursor).value.value.start)
  {
  }

  /** The rows that a request is about: of this status, and further down than its cursor. */
  ghost predicate AskedFor(x: Item, table: set<Item>, status: Status, bound: Option<Bound>) {
    x in table && x.status == status && (bound.Some? ==> Further(x, bound.value.start, bound.value.id))
  }

  lemma MatchingIsAskedFor(table: set<Item>, status: Status, cursor: string, x: Item)
    requires ValidTable(table) && BoundFrom(cursor).Some?
    ensures x in Matching(table, status, BoundFrom(cursor).value)
            <==> AskedFor(x, table, status, BoundFrom(cursor).value)
  {
    if x in table && BoundFrom(cursor).value.Some? {
      BoundIsValid(cursor);
      BelowIsFurther(x, BoundFrom(cursor).value.value);
    }
  }

  /** A request is invalid exactly if its limit is neither 0 nor from 1 to 100, or its cursor cannot be read. */
  lemma InvalidExactly(table: set<Item>, status: Status, param: int, cursor: string)
    requires ValidTable(table)
    ensures ListPage(CURSORS, table, status, param, cursor) == Invalid <==>
            !(param == 0 || 1 <= param <= 100) || BoundFrom(cursor).None?
  {
  }

  lemma MoreExactly(table: set<Item>, status: Status, limit: nat, bound: Option<Bound>)
    requires Keyed(table) && 1 <= limit
    ensures var p := SliceAt(table, status, limit, bound);
            p.more <==> exists x :: x in Matching(table, status, bound) && x !in p.items
  {
    var p, all := SliceAt(table, status, limit, bound), Sorted(Matching(table, status, bound));
    if p.more {
      assert all[limit] in all;
      forall x | x in p.items ensures x != all[limit] {
        var i :| 0 <= i < |p.items| && p.items[i] == x;
        assert Before(all[limit], all[i]);
        Order(x, x, x);
      }
    }
  }

  /**
   * What a page is, in terms of starts and ids alone: of the rows asked for, the latest starts and at equal starts
   * the greatest ids, in that order, 20 of them or as many as the limit says; and there are more exactly if a row
   * asked for is not among them, which then comes further down than all of them.
   */
  lemma PageExactly(table: set<Item>, status: Status, param: int, cursor: string)
    requires ValidTable(table) && ListPage(CURSORS, table, status, param, cursor).Page?
    ensures var page := ListPage(CURSORS, table, status, param, cursor);
            var limit := if param == 0 then 20 else param;
            var bound := BoundFrom(cursor).value;
            && |page.items| <= limit && (page.more ==> |page.items| == limit)
            && (forall x | x in page.items :: AskedFor(x, table, status, bound))
            && (forall i, j | 0 <= i < j < |page.items| ::
                  Further(page.items[j], page.items[i].start, page.items[i].id))
            && (page.more <==> exists x :: AskedFor(x, table, status, bound) && x !in page.items)
            && (forall x, i | AskedFor(x, table, status, bound) && x !in page.items && 0 <= i < |page.items| ::
                  Further(x, page.items[i].start, page.items[i].id))
            && (page.next == "" || page.more)
  {
    var limit, bound := LimitOf(param).value, BoundFrom(cursor).value;
    var items := SliceAt(table, status, limit, bound).items;
    forall x ensures x in Matching(table, status, bound) <==> AskedFor(x, table, status, bound) {
      MatchingIsAskedFor(table, status, cursor, x);
    }
    forall i, j | 0 <= i < j < |items| ensures Further(items[j], items[i].start, items[i].id) {
      assert items[i] in items && items[j] in items;
      BelowIsFurther(items[j], BoundOf(items[i]));
    }
    forall x, i | AskedFor(x, table, status, bound) && x !in items && 0 <= i < |items|
      ensures Further(x, items[i].start, items[i].id)
    {
      SliceLeaves(table, status, limit, bound, x);
      assert items[i] in items;
      Order(x, Last(items), items[i]);
      BelowIsFurther(x, BoundOf(items[i]));
    }
    MoreExactly(table, status, limit, bound);
  }

  /** A cursor leads back to the item it was made of, if the item's start and id survive the trip. */
  lemma CursorLeadsBack(last: Item)
    requires ValidItem(last) && Survives(last.start, last.id)
    ensures NextCursor(last) != "" && BoundFrom(NextCursor(last)) == Some(Some(BoundOf(last)))
  {
    InstantRoundTrip(last.start);
    CursorDecodes(last.start, last.id);
  }

  /**
   * A page with more to come has a non-empty cursor exactly when its last item starts neither at the zero time
   * nor, in UTC, outside the years 0 to 9999.
   */
  lemma CursorWhenMore(table: set<Item>, status: Status, param: int, cursor: string)
    requires ValidTable(table)
    requires ListPage(CURSORS, table, status, param, cursor).Page?
    requires ListPage(CURSORS, table, status, param, cursor).more
    ensures var page := ListPage(CURSORS, table, status, param, cursor);
            && page.items != []
            && var last := Last(page.items);
               page.next != "" <==> last.start != ZERO && 0 <= last.start.year <= 9999
  {
    var p := SliceAt(table, status, LimitOf(param).value, BoundFrom(cursor).value);
    LastIn(p.items);
    var last := Last(p.items);
    InstantRoundTrip(last.start);
    if last.start != ZERO && 0 <= last.start.year <= 9999 {
      CursorDecodes(last.start, last.id);
    }
  }

  /** The start of a creation request for 9999-12-31T23:59:59-01:00, in UTC. */
  const LATE: Civil := Civil(10000, 1, 1, 0, 59, 59, 0)
  const LATE_A: Item := Item("a", LATE, ACTIVE)
  const LATE_B: Item := Item("b", LATE, ACTIVE)
  const LATE_TABLE: set<Item> := {LATE_A, LATE_B}

  /** The listing starts with b. */
  lemma TopIsB()
    requires Keyed(LATE_TABLE)
    ensures |Sorted(LATE_TABLE)| == 2 && Sorted(LATE_TABLE)[0] == LATE_B
  {
    var s := Sorted(LATE_TABLE);
    assert |LATE_TABLE| == 2;
    assert s[0] in s && s[1] in s;
    assert Before(s[1], s[0]);
    Order(LATE_A, LATE_B, LATE_A);
    assert TextBefore("a", "b");
  }

  /** Two such auctions, and a page of one: there is more, and no cursor to get it with. */
  lemma MoreWithoutCursor()
    ensures ValidTable(LATE_TABLE)
    ensures ListPage(CURSORS, LATE_TABLE, ACTIVE, 1, "") == Page([LATE_B], "", true)
  {
    assert LATE_A.id[0] != LATE_B.id[0];
    assert Matching(LATE_TABLE, ACTIVE, None) == LATE_TABLE;
    assert |LATE_TABLE| == 2;
    CursorWhenMore(LATE_TABLE, ACTIVE, 1, "");
    TopIsB();
  }

  /** Instants are stored to the microsecond; what is finer is cut off. */
  function Stored(t: Civil): Civil {
    t.(nano := t.nano - t.nano % 1000)
  }

  /** Creation rejects the zero time, but not the other instants of its microsecond. */
  predicate StoredAsZero(t: Civil) {
    t == ZERO.(nano := t.nano) && t.nano < 1000
  }

  /** The rows come from creation requests that asked for these starts. */
  ghost predicate Created(table: set<Item>, asked: map<string, Civil>) {
    forall x | x in table ::
      x.id in asked && ValidCivil(asked[x.id]) && asked[x.id] != ZERO && x.start == Stored(asked[x.id])
  }

  lemma StoredZero(t: Civil)
    requires t != ZERO
    ensures Stored(t) == ZERO <==> StoredAsZero(t)
  {
  }

  /**
   * On rows that come from creation requests, a page with more to come has a non-empty cursor exactly when the
   * start asked for lies, in UTC, in the years 0 to 9999 and is not stored as the zero time.
   */
  lemma CursorOfCreated(table: set<Item>, asked: map<string, Civil>, status: Status, param: int, cursor: string)
    requires ValidTable(table) && Created(table, asked)
    requires ListPage(CURSORS, table, status, param, cursor).Page?
    requires ListPage(CURSORS, table, status, param, cursor).more
    ensures var page := ListPage(CURSORS, table, status, param, cursor);
            && page.items != [] && Last(page.items).id in asked
            && var start := asked[Last(page.items).id];
               page.next != "" <==> 0 <= start.year <= 9999 && !StoredAsZero(start)
  {
    CursorWhenMore(table, status, param, cursor);
    var p := SliceAt(table, status, LimitOf(param).value, BoundFrom(cursor).value);
    LastIn(p.items);
    var last := Last(p.items);
    assert last in table;
    StoredZero(asked[last.id]);
  }

  // ---------- the client ----------

  /** The pages a client has fetched; `finished` once a page says that there is no more. */
  datatype Walk = Walk(pages: seq<seq<Item>>, finished: bool)

  function Prepend(page: seq<Item>, w: Walk): Walk {
    Walk([page] + w.pages, w.finished)
  }

  ghost predicate ValidTables(tables: seq<set<Item>>) {
    forall i | 0 <= i < |tables| :: ValidTable(tables[i])
  }

  /** A client that follows `next_cursor`; `tables[i]` is the table at its i-th fetch. */
  ghost function ClientWalk(codec: Codec, tables: seq<set<Item>>, status: Status, param: int, cursor: string): Walk
    requires ValidTables(tables)
  {
    if tables == [] then Walk([], false)
    else
      match ListPage(codec, tables[0], status, param, cursor)
      case Page(items, next, more) =>
        if more then Prepend(items, ClientWalk(codec, tables[1..], status, param, next)) else Walk([items], true)
      case _ => Walk([], false)
  }

  /** The same walk on bounds instead of cursors. */
  ghost function KeyWalk(tables: seq<set<Item>>, status: Status, limit: nat, bound: Option<Bound>): Walk
    requires ValidTables(tables) && 1 <= limit
  {
    if tables == [] then Walk([], false)
    else
      var p := SliceAt(tables[0], status, limit, bound);
      if p.more then Prepend(p.items, KeyWalk(tables[1..], status, limit, Some(BoundOf(Last(p.items)))))
      else Walk([p.items], true)
  }

  /** The cursor made of this item leads back to it. */
  ghost predicate Reads(codec: Codec, x: Item) {
    codec.decode(codec.encode(x)) == Some(Some(BoundOf(x)))
  }

  /** The cursor made of this item is invalid, or the empty one, which leads to the start. */
  ghost predicate Misleads(codec: Codec, x: Item) {
    codec.decode(codec.encode(x)) in {None, Some(None)}
  }

  /** One or the other, depending on whether the item survives. */
  lemma ReadsIfSurvives(x: Item)
    requires ValidItem(x)
    ensures if Survives(x.start, x.id) then Reads(CURSORS, x) else Misleads(CURSORS, x) && !Reads(CURSORS, x)
    ensures !Survives(x.start, x.id) && !Blank(x.id) ==> CURSORS.encode(x) == ""
  {
    if Survives(x.start, x.id) {
      CursorLeadsBack(x);
    } else {
      InstantRoundTrip(x.start);
      if x.start != ZERO && 0 <= x.start.year <= 9999 {
        CursorDecodes(x.start, x.id);
      }
    }
  }

  /** Each page but the last one, whose cursor the client does not follow, ends in an item whose cursor leads back. */
  ghost predicate EndsRead(codec: Codec, pages: seq<seq<Item>>) {
    forall m | 0 <= m < |pages| - 1 :: pages[m] != [] && Reads(codec, Last(pages[m]))
  }

  lemma OnePageAtLeast(tables: seq<set<Item>>, status: Status, limit: nat, bound: Option<Bound>)
    requires ValidTables(tables) && 1 <= limit && tables != []
    ensures KeyWalk(tables, status, limit, bound).pages != []
  {
  }

  lemma RestReads(codec: Codec, page: seq<Item>, rest: seq<seq<Item>>)
    requires rest != [] && EndsRead(codec, [page] + rest)
    ensures page != [] && Reads(codec, Last(page)) && EndsRead(codec, rest)
  {
    var pages := [page] + rest;
    assert pages[0] == page;
    forall m | 0 <= m < |rest| - 1 ensures rest[m] != [] && Reads(codec, Last(rest[m])) {
      assert pages[m + 1] == rest[m];
    }
  }

  /** Then following cursors is following bounds. */
  lemma {:induction false} CursorsAreBounds(
      codec: Codec, tables: seq<set<Item>>, status: Status, param: int, cursor: string, bound: Option<Bound>)
    requires ValidTables(tables) && LimitOf(param).Some? && codec.decode(cursor) == Some(bound)
    requires EndsRead(codec, KeyWalk(tables, status, LimitOf(param).value, bound).pages)
    ensures ClientWalk(codec, tables, status, param, cursor) == KeyWalk(tables, status, LimitOf(param).value, bound)
    decreases |tables|
  {
    if tables != [] {
      var p := SliceAt(tables[0], status, LimitOf(param).value, bound);
      if p.more && |tables| > 1 {
        var next := Some(BoundOf(Last(p.items)));
        var rest := KeyWalk(tables[1..], status, LimitOf(param).value, next).pages;
        OnePageAtLeast(tables[1..], status, LimitOf(param).value, next);
        RestReads(codec, p.items, rest);
        CursorsAreBounds(codec, tables[1..], status, param, codec.encode(Last(p.items)), next);
      }
    }
  }

  /** The first fetch of a walk that has another one. */
  lemma KeyStep(tables: seq<set<Item>>, status: Status, limit: nat, bound: Option<Bound>)
    requires ValidTables(tables) && 1 <= limit && 1 < |KeyWalk(tables, status, limit, bound).pages|
    ensures tables != [] && SliceAt(tables[0], status, limit, bound).more
    ensures var p := SliceAt(tables[0], status, limit, bound);
            KeyWalk(tables, status, limit, bound)
            == Prepend(p.items, KeyWalk(tables[1..], status, limit, Some(BoundOf(Last(p.items)))))
  {
  }

  lemma ClientStep(
      codec: Codec, tables: seq<set<Item>>, status: Status, param: int, cursor: string, bound: Option<Bound>)
    requires ValidTables(tables) && tables != [] && LimitOf(param).Some? && codec.decode(cursor) == Some(bound)
    requires SliceAt(tables[0], status, LimitOf(param).value, bound).more
    ensures var p := SliceAt(tables[0], status, LimitOf(param).value, bound);
            ClientWalk(codec, tables, status, param, cursor)
            == Prepend(p.items, ClientWalk(codec, tables[1..], status, param, codec.encode(Last(p.items))))
  {
  }

  lemma {:induction false} PagesFit(tables: seq<set<Item>>, status: Status, limit: nat, bound: Option<Bound>)
    requires ValidTables(tables) && 1 <= limit
    ensures |KeyWalk(tables, status, limit, bound).pages| <= |tables|
    decreases |tables|
  {
    if tables != [] && SliceAt(tables[0], status, limit, bound).more {
      PagesFit(tables[1..], status, limit, Some(BoundOf(Last(SliceAt(tables[0], status, limit, bound).items))));
    }
  }

  /** These pages, and then what `again` gets. */
  function AndThen(pages: seq<seq<Item>>, again: Walk): Walk {
    Walk(pages + again.pages, again.finished)
  }

  lemma PrependThen(page: seq<Item>, rest: seq<seq<Item>>, m: nat, again: Walk)
    requires m < |rest|
    ensures Prepend(page, AndThen(rest[..m + 1], again)) == AndThen(([page] + rest)[..m + 2], again)
  {
    assert ([page] + rest)[..m + 2] == [page] + rest[..m + 1];
  }

  /**
   * What the client gets otherwise: at the first page end whose cursor is empty, it starts over at the top of
   * the table as it is by then, and goes on from there.
   */
  lemma {:induction false} StartsOver(codec: Codec, tables: seq<set<Item>>, status: Status, param: int, cursor: string,
                                      bound: Option<Bound>, m: nat)
    requires ValidTables(tables) && LimitOf(param).Some? && codec.decode(cursor) == Some(bound) && m < |tables|
    requires m < |KeyWalk(tables, status, LimitOf(param).value, bound).pages| - 1
    requires var pages := KeyWalk(tables, status, LimitOf(param).value, bound).pages;
             EndsRead(codec, pages[..m + 1]) && pages[m] != [] && codec.encode(Last(pages[m])) == ""
    ensures ClientWalk(codec, tables, status, param, cursor)
            == AndThen(KeyWalk(tables, status, LimitOf(param).value, bound).pages[..m + 1],
                       ClientWalk(codec, tables[m + 1..], status, param, ""))
    decreases m
  {
    var limit := LimitOf(param).value;
    KeyStep(tables, status, limit, bound);
    ClientStep(codec, tables, status, param, cursor, bound);
    var page := SliceAt(tables[0], status, limit, bound).items;
    var next := Some(BoundOf(Last(page)));
    var rest := KeyWalk(tables[1..], status, limit, next).pages;
    if 0 < m {
      assert ([page] + rest)[..m + 1] == [page] + rest[..m];
      RestReads(codec, page, rest[..m]);
      assert ([page] + rest)[m] == rest[m - 1];
      StartsOver(codec, tables[1..], status, param, codec.encode(Last(page)), next, m - 1);
      assert tables[1..][m..] == tables[m + 1..];
      PrependThen(page, rest, m - 1, ClientWalk(codec, tables[m + 1..], status, param, ""));
    } else {
      assert ([page] + rest)[..1] == [page];
    }
  }

  function Flatten(pages: seq<seq<Item>>): seq<Item> {
    if pages == [] then [] else pages[0] + Flatten(pages[1..])
  }

  // ---------- on a table that does not change ----------

  /** `count` is max(1, ceil(n / limit)). */
  predicate IsPageCount(count: nat, n: nat, limit: nat) {
    1 <= count && n <= count * limit && (1 < count ==> (count - 1) * limit < n)
  }

  function PageCount(n: nat, limit: nat): (count: nat)
    requires 1 <= limit
    ensures 1 <= count
  {
    if n <= limit then 1 else 1 + PageCount(n - limit, limit)
  }

  lemma {:induction false} PageCountMeans(n: nat, limit: nat)
    requires 1 <= limit
    ensures IsPageCount(PageCount(n, limit), n, limit)
  {
    if limit < n {
      var fewer := PageCount(n - limit, limit);
      PageCountMeans(n - limit, limit);
      assert (fewer + 1) * limit == fewer * limit + limit && (fewer - 1) * limit == fewer * limit - limit;
    }
  }

  /** What is below the last item of a page, below the bound of the page. */
  lemma NextMatching(table: set<Item>, status: Status, bound: Option<Bound>, last: Item)
    requires last in Matching(table, status, bound)
    ensures Matching(table, status, Some(BoundOf(last))) == Under(Matching(table, status, bound), last)
  {
    forall x | x in table && Before(x, last) && bound.Some? ensures Below(x, bound.value) {
      BelowTransitive(x, last, bound.value);
    }
  }

  function Still(table: set<Item>, n: nat): seq<set<Item>> {
    seq(n, _ => table)
  }

  /** A finished walk whose pages are together the listing of these items, and as few as can be. */
  ghost predicate Covers(w: Walk, items: set<Item>, limit: nat)
    requires Keyed(items) && 1 <= limit
  {
    w.finished && Flatten(w.pages) == Sorted(items) && |w.pages| == PageCount(|items|, limit)
  }

  ghost function StillWalk(table: set<Item>, n: nat, status: Status, limit: nat, bound: Option<Bound>): Walk
    requires ValidTable(table) && 1 <= limit
  {
    KeyWalk(Still(table, n), status, limit, bound)
  }

  lemma Flattened(page: seq<Item>, pages: seq<seq<Item>>)
    ensures Flatten([page] + pages) == page + Flatten(pages)
  {
    assert ([page] + pages)[1..] == pages;
  }

  lemma FirstPage(page: seq<Item>, w: Walk, items: set<Item>, rest: set<Item>, limit: nat)
    requires Keyed(items) && Keyed(rest) && 1 <= limit && Covers(w, rest, limit)
    requires Sorted(items) == page + Sorted(rest) && |rest| == |items| - limit && limit < |items|
    ensures Covers(Prepend(page, w), items, limit)
  {
    Flattened(page, w.pages);
  }

  /** The first fetch of a walk on a table that does not change. */
  lemma StillStep(table: set<Item>, n: nat, status: Status, limit: nat, bound: Option<Bound>)
    requires ValidTable(table) && 1 <= limit && 1 <= n
    ensures var p := SliceAt(table, status, limit, bound);
            var w := StillWalk(table, n, status, limit, bound);
            if p.more
            then w == Prepend(p.items, StillWalk(table, n - 1, status, limit, Some(BoundOf(Last(p.items)))))
            else w == Walk([p.items], true) && p.items == Sorted(Matching(table, status, bound))
  {
    assert Still(table, n)[1..] == Still(table, n - 1);
  }

  lemma FirstSlice(table: set<Item>, status: Status, limit: nat, bound: Option<Bound>)
    requires Keyed(table) && 1 <= limit && SliceAt(table, status, limit, bound).more
    ensures var p, all := SliceAt(table, status, limit, bound), Sorted(Matching(table, status, bound));
            && limit < |all| && p.items == all[..limit] && Last(p.items) == all[limit - 1]
            && all == all[..limit] + all[limit..]
  {
  }

  /** A page, and what is below its last item, are together the whole listing. */
  lemma SliceAndRest(table: set<Item>, status: Status, limit: nat, bound: Option<Bound>)
    requires Keyed(table) && 1 <= limit && SliceAt(table, status, limit, bound).more
    ensures var p := SliceAt(table, status, limit, bound);
            var items, rest := Matching(table, status, bound), Matching(table, status, Some(BoundOf(Last(p.items))));
            && Sorted(items) == p.items + Sorted(rest)
            && |rest| == |items| - limit
  {
    var items := Matching(table, status, bound);
    var all := Sorted(items);
    var last := all[limit - 1];
    assert last in all;
    NextMatching(table, status, bound, last);
    BelowIsSuffix(items, limit - 1);
    var rest := Matching(table, status, Some(BoundOf(last)));
    assert Sorted(rest) == all[limit..] && |rest| == |all[limit..]|;
    FirstSlice(table, status, limit, bound);
  }

  lemma StillWalkGoesOn(table: set<Item>, n: nat, status: Status, limit: nat, bound: Option<Bound>)
    requires ValidTable(table) && 1 <= limit && 1 <= n && SliceAt(table, status, limit, bound).more
    requires var next := Some(BoundOf(Last(SliceAt(table, status, limit, bound).items)));
             Covers(StillWalk(table, n - 1, status, limit, next), Matching(table, status, next), limit)
    ensures Covers(StillWalk(table, n, status, limit, bound), Matching(table, status, bound), limit)
  {
    var p, items := SliceAt(table, status, limit, bound), Matching(table, status, bound);
    var next := Some(BoundOf(Last(p.items)));
    StillStep(table, n, status, limit, bound);
    SliceAndRest(table, status, limit, bound);
    FirstPage(p.items, StillWalk(table, n - 1, status, limit, next), items, Matching(table, status, next), limit);
  }

  lemma RestSize(table: set<Item>, status: Status, limit: nat, bound: Option<Bound>)
    requires Keyed(table) && 1 <= limit && SliceAt(table, status, limit, bound).more
    ensures var last := Last(SliceAt(table, status, limit, bound).items);
            |Matching(table, status, Some(BoundOf(last)))| == |Matching(table, status, bound)| - limit
  {
    SliceAndRest(table, status, limit, bound);
  }

  lemma {:induction false} StillWalkCovers(table: set<Item>, n: nat, status: Status, limit: nat, bound: Option<Bound>)
    requires ValidTable(table) && 1 <= limit
    requires PageCount(|Matching(table, status, bound)|, limit) <= n
    ensures Covers(StillWalk(table, n, status, limit, bound), Matching(table, status, bound), limit)
    decreases n
  {
    var p := SliceAt(table, status, limit, bound);
    if p.more {
      RestSize(table, status, limit, bound);
      StillWalkCovers(table, n - 1, status, limit, Some(BoundOf(Last(p.items))));
      StillWalkGoesOn(table, n, status, limit, bound);
    } else {
      StillStep(table, n, status, limit, bound);
      Flattened(p.items, []);
    }
  }

  /** From this bound on, each page with more to come ends in an item whose cursor leads back. */
  ghost predicate Readable(codec: Codec, table: set<Item>, status: Status, limit: nat, bound: Option<Bound>)
    requires Keyed(table) && 1 <= limit
    decreases |Matching(table, status, bound)|
  {
    var p := SliceAt(table, status, limit, bound);
    if !p.more then true
    else
      RestSize(table, status, limit, bound);
      Reads(codec, Last(p.items)) && Readable(codec, table, status, limit, Some(BoundOf(Last(p.items))))
  }

  ghost function StillClient(codec: Codec, table: set<Item>, n: nat, status: Status, param: int, cursor: string): Walk
    requires ValidTable(table)
  {
    ClientWalk(codec, Still(table, n), status, param, cursor)
  }

  /** The first fetch of a client on a table that does not change. */
  lemma StillClientStep(
      codec: Codec, table: set<Item>, n: nat, status: Status, param: int, cursor: string, bound: Option<Bound>)
    requires ValidTable(table) && LimitOf(param).Some? && codec.decode(cursor) == Some(bound) && 1 <= n
    ensures var p := SliceAt(table, status, LimitOf(param).value, bound);
            StillClient(codec, table, n, status, param, cursor) ==
            if p.more
            then Prepend(p.items, StillClient(codec, table, n - 1, status, param, codec.encode(Last(p.items))))
            else Walk([p.items], true)
  {
    assert Still(table, n)[1..] == Still(table, n - 1);
  }

  lemma {:induction false} StillClientFollows(
      codec: Codec, table: set<Item>, n: nat, status: Status, param: int, cursor: string, bound: Option<Bound>)
    requires ValidTable(table) && LimitOf(param).Some? && codec.decode(cursor) == Some(bound)
    requires Readable(codec, table, status, LimitOf(param).value, bound)
    ensures StillClient(codec, table, n, status, param, cursor)
            == StillWalk(table, n, status, LimitOf(param).value, bound)
    decreases n
  {
    if 0 < n {
      var p := SliceAt(table, status, LimitOf(param).value, bound);
      StillClientStep(codec, table, n, status, param, cursor, bound);
      StillStep(table, n, status, LimitOf(param).value, bound);
      if p.more {
        var last := Last(p.items);
        StillClientFollows(codec, table, n - 1, status, param, codec.encode(last), Some(BoundOf(last)));
      }
    }
  }

  ghost predicate ReadsOrMisleads(codec: Codec, table: set<Item>, status: Status) {
    && codec.decode("") == Some(None)
    && forall x | x in table && x.status == status :: Reads(codec, x) || Misleads(codec, x)
  }

  /** With an unreadable end ahead, the client is told that its cursor is invalid, or sent back to the start. */
  lemma {:induction false} NeverFinishes(
      codec: Codec, table: set<Item>, n: nat, status: Status, param: int, cursor: string, bound: Option<Bound>)
    requires ValidTable(table) && LimitOf(param).Some? && codec.decode(cursor) == Some(bound)
    requires ReadsOrMisleads(codec, table, status)
    requires !Readable(codec, table, status, LimitOf(param).value, bound)
    requires !Readable(codec, table, status, LimitOf(param).value, None)
    ensures !StillClient(codec, table, n, status, param, cursor).finished
    decreases n
  {
    if 0 < n {
      var p := SliceAt(table, status, LimitOf(param).value, bound);
      StillClientStep(codec, table, n, status, param, cursor, bound);
      var last := Last(p.items);
      LastIn(p.items);
      assert last in Matching(table, status, bound);
      var next := codec.encode(last);
      if Reads(codec, last) {
        NeverFinishes(codec, table, n - 1, status, param, next, Some(BoundOf(last)));
      } else if codec.decode(next) == Some(None) {
        NeverFinishes(codec, table, n - 1, status, param, next, None);
      }
    }
  }

  predicate IsMultiple(n: nat, limit: nat)
    requires 1 <= limit
  {
    n == 0 || (limit <= n && IsMultiple(n - limit, limit))
  }

  /** The items at which a page ends, with more below them, survive. */
  predicate EndsSurvive(all: seq<Item>, limit: nat)
    requires 1 <= limit
  {
    forall i | 0 <= i < |all| - 1 && IsMultiple(i + 1, limit) :: Survives(all[i].start, all[i].id)
  }

  lemma EndsStep(all: seq<Item>, limit: nat)
    requires 1 <= limit < |all|
    ensures EndsSurvive(all, limit) <==>
            Survives(all[limit - 1].start, all[limit - 1].id) && EndsSurvive(all[limit..], limit)
  {
    var rest := all[limit..];
    if EndsSurvive(all, limit) {
      forall i | 0 <= i < |rest| - 1 && IsMultiple(i + 1, limit) ensures Survives(rest[i].start, rest[i].id) {
        assert IsMultiple(i + limit + 1, limit) && all[i + limit] == rest[i];
      }
      assert IsMultiple(limit, limit);
    }
    if Survives(all[limit - 1].start, all[limit - 1].id) && EndsSurvive(rest, limit) {
      forall i | 0 <= i < |all| - 1 && IsMultiple(i + 1, limit) ensures Survives(all[i].start, all[i].id) {
        if limit <= i {
          assert IsMultiple(i - limit + 1, limit) && rest[i - limit] == all[i];
        }
      }
    }
  }

  lemma FewHaveNoEnds(all: seq<Item>, limit: nat)
    requires 1 <= limit && |all| <= limit
    ensures EndsSurvive(all, limit)
  {
  }

  lemma {:induction false} ReadableIfEndsSurvive(table: set<Item>, status: Status, limit: nat, bound: Option<Bound>)
    requires ValidTable(table) && 1 <= limit
    ensures Readable(CURSORS, table, status, limit, bound)
            <==> EndsSurvive(Sorted(Matching(table, status, bound)), limit)
    decreases |Matching(table, status, bound)|
  {
    var p, all := SliceAt(table, status, limit, bound), Sorted(Matching(table, status, bound));
    if p.more {
      var last := Last(p.items);
      LastIn(p.items);
      assert last in Matching(table, status, bound);
      ReadsIfSurvives(last);
      FirstSlice(table, status, limit, bound);
      SliceAndRest(table, status, limit, bound);
      ReadableIfEndsSurvive(table, status, limit, Some(BoundOf(last)));
      assert all[limit..] == Sorted(Matching(table, status, Some(BoundOf(last))));
      EndsStep(all, limit);
    } else {
      FewHaveNoEnds(all, limit);
    }
  }

  /**
   * Pagination refines the simple list. On a table that does not change, with any limit from 1 to 100, a client
   * that is given time for it finishes if and only if the items at which pages end survive a cursor; it then has
   * the filtered table in descending order, after max(1, ceil(n / limit)) fetches. Otherwise it never finishes.
   */
  lemma PagesAreTheList(table: set<Item>, n: nat, status: Status, param: int)
    requires ValidTable(table) && LimitOf(param).Some?
    requires PageCount(|Matching(table, status, None)|, LimitOf(param).value) <= n
    ensures ValidTables(Still(table, n))
    ensures var w := ClientWalk(CURSORS, Still(table, n), status, param, "");
            var all := Sorted(Matching(table, status, None));
            && (w.finished <==> EndsSurvive(all, LimitOf(param).value))
            && (w.finished ==> Flatten(w.pages) == all && IsPageCount(|w.pages|, |all|, LimitOf(param).value))
  {
    var limit := LimitOf(param).value;
    ReadableIfEndsSurvive(table, status, limit, None);
    if Readable(CURSORS, table, status, limit, None) {
      StillClientFollows(CURSORS, table, n, status, param, "", None);
      StillWalkCovers(table, n, status, limit, None);
      PageCountMeans(|Matching(table, status, None)|, limit);
    } else {
      forall x | x in table && x.status == status ensures Reads(CURSORS, x) || Misleads(CURSORS, x) {
        ReadsIfSurvives(x);
      }
      NeverFinishes(CURSORS, table, n, status, param, "", None);
    }
  }

  /** The client of `MoreWithoutCursor` fetches the same page again and again. */
  lemma {:induction false} SamePageForever(n: nat)
    ensures ValidTables(Still(LATE_TABLE, n))
    ensures ClientWalk(CURSORS, Still(LATE_TABLE, n), ACTIVE, 1, "") == Walk(seq(n, _ => [LATE_B]), false)
    decreases n
  {
    MoreWithoutCursor();
    if 0 < n {
      SamePageForever(n - 1);
      StillClientStep(CURSORS, LATE_TABLE, n, ACTIVE, 1, "", None);
      assert seq(n, _ => [LATE_B]) == [[LATE_B]] + seq(n - 1, _ => [LATE_B]);
    }
  }

  // ---------- while the table changes ----------

  /** Rows come and change status, but an id never changes its start. */
  ghost predicate FixedStarts(tables: seq<set<Item>>) {
    forall i, j, x, y | 0 <= i < |tables| && 0 <= j < |tables| && x in tables[i] && y in tables[j] && x.id == y.id ::
      x.start == y.start
  }

  ghost predicate InSome(tables: seq<set<Item>>, x: Item) {
    exists i | 0 <= i < |tables| :: x in tables[i]
  }

  /** The row is there at each of the first `n` fetches. */
  ghost predicate InEach(tables: seq<set<Item>>, n: nat, x: Item) {
    forall i | 0 <= i < |tables| && i < n :: x in tables[i]
  }

  lemma PageThenRest(tables: seq<set<Item>>, status: Status, bound: Option<Bound>, page: seq<Item>, rest: seq<Item>)
    requires tables != [] && (page == [] ==> rest == []) && Descending(page) && Descending(rest)
    requires forall x | x in page :: x in Matching(tables[0], status, bound)
    requires forall x | x in rest :: InSome(tables[1..], x) && x.status == status && Before(x, Last(page))
    ensures Descending(page + rest)
    ensures forall x | x in page + rest ::
              InSome(tables, x) && x.status == status && (bound.Some? ==> Below(x, bound.value))
  {
    assert forall x | x in page :: x in tables[0];
    if page == [] {
      assert page + rest == [];
      return;
    }
    var last := Last(page);
    forall x | x in rest ensures InSome(tables, x) && (bound.Some? ==> Below(x, bound.value)) {
      var i :| 0 <= i < |tables[1..]| && x in tables[1..][i];
      assert x in tables[i + 1];
      assert last in page;
      if bound.Some? {
        BelowTransitive(x, last, bound.value);
      }
    }
    forall i, j | 0 <= i < |page| && 0 <= j < |rest| ensures Before(rest[j], page[i]) {
      Order(rest[j], last, page[i]);
    }
  }

  /** A walk only goes down. */
  lemma {:induction false} KeyWalkDescends(tables: seq<set<Item>>, status: Status, limit: nat, bound: Option<Bound>)
    requires ValidTables(tables) && 1 <= limit
    ensures var all := Flatten(KeyWalk(tables, status, limit, bound).pages);
            && Descending(all)
            && forall x | x in all :: InSome(tables, x) && x.status == status && (bound.Some? ==> Below(x, bound.value))
    decreases |tables|
  {
    if tables != [] {
      var p := SliceAt(tables[0], status, limit, bound);
      if p.more {
        var next := Some(BoundOf(Last(p.items)));
        var w := KeyWalk(tables[1..], status, limit, next);
        KeyWalkDescends(tables[1..], status, limit, next);
        Flattened(p.items, w.pages);
        PageThenRest(tables, status, bound, p.items, Flatten(w.pages));
      } else {
        assert Flatten([p.items]) == p.items + Flatten([]);
        PageThenRest(tables, status, bound, p.items, []);
      }
    }
  }

  /** A row that matches at every fetch, and is still ahead, is not missed. */
  lemma {:induction false} KeyWalkFinds(
      tables: seq<set<Item>>, status: Status, limit: nat, bound: Option<Bound>, x: Item)
    requires ValidTables(tables) && 1 <= limit
    requires InEach(tables, |KeyWalk(tables, status, limit, bound).pages|, x)
    requires x.status == status && (bound.Some? ==> Below(x, bound.value))
    requires KeyWalk(tables, status, limit, bound).finished
    ensures x in Flatten(KeyWalk(tables, status, limit, bound).pages)
    decreases |tables|
  {
    var p := SliceAt(tables[0], status, limit, bound);
    assert x in tables[0];
    SliceLeaves(tables[0], status, limit, bound, x);
    if p.more {
      var next := Some(BoundOf(Last(p.items)));
      var rest := KeyWalk(tables[1..], status, limit, next).pages;
      Flattened(p.items, rest);
      if x !in p.items {
        forall i | 0 <= i < |tables[1..]| && i < |rest| ensures x in tables[1..][i] {
          assert x in tables[i + 1];
        }
        KeyWalkFinds(tables[1..], status, limit, next, x);
      }
    } else {
      assert Flatten([p.items]) == p.items + Flatten([]);
    }
  }

  lemma DescendingOnce(items: seq<Item>, i: nat, j: nat)
    requires Descending(items) && i < |items| && j < |items|
    requires items[i].id == items[j].id && items[i].start == items[j].start
    ensures i == j
  {
    Order(items[i], items[i], items[i]);
    Order(items[j], items[j], items[j]);
    TextOrder(items[i].id, items[j].id, items[i].id);
  }

  /** The rows at which the pages of this walk end, other than its last page, survive a cursor. */
  predicate PageEndsSurvive(pages: seq<seq<Item>>) {
    forall m | 0 <= m < |pages| - 1 :: pages[m] != [] && Survives(Last(pages[m]).start, Last(pages[m]).id)
  }

  lemma {:induction false} InFlatten(pages: seq<seq<Item>>, m: nat, x: Item)
    requires m < |pages| && x in pages[m]
    ensures x in Flatten(pages)
    decreases m
  {
    if 0 < m {
      InFlatten(pages[1..], m - 1, x);
    }
  }

  /** The items of the pages are valid. */
  lemma EndIsValid(tables: seq<set<Item>>, status: Status, limit: nat, m: nat)
    requires ValidTables(tables) && 1 <= limit
    requires m < |KeyWalk(tables, status, limit, None).pages| && KeyWalk(tables, status, limit, None).pages[m] != []
    ensures ValidItem(Last(KeyWalk(tables, status, limit, None).pages[m]))
  {
    var pages := KeyWalk(tables, status, limit, None).pages;
    KeyWalkDescends(tables, status, limit, None);
    LastIn(pages[m]);
    InFlatten(pages, m, Last(pages[m]));
    assert InSome(tables, Last(pages[m]));
  }

  /** So the cursors of those that survive lead back. */
  lemma KeyWalkEndsRead(tables: seq<set<Item>>, status: Status, limit: nat, n: nat)
    requires ValidTables(tables) && 1 <= limit && n <= |KeyWalk(tables, status, limit, None).pages|
    requires PageEndsSurvive(KeyWalk(tables, status, limit, None).pages[..n])
    ensures EndsRead(CURSORS, KeyWalk(tables, status, limit, None).pages[..n])
  {
    var pages := KeyWalk(tables, status, limit, None).pages;
    forall m | 0 <= m < |pages[..n]| - 1 ensures pages[..n][m] != [] && Reads(CURSORS, Last(pages[..n][m])) {
      assert pages[..n][m] == pages[m];
      EndIsValid(tables, status, limit, m);
      ReadsIfSurvives(Last(pages[m]));
    }
  }

  /**
   * The first row at the end of a page that does not survive a cursor sends the client back to the top: from
   * then on it gets what a new walk gets, so each row on the top page both times is returned twice.
   */
  lemma WalkStartsOver(tables: seq<set<Item>>, status: Status, param: int, m: nat)
    requires ValidTables(tables) && LimitOf(param).Some?
    requires m < |KeyWalk(tables, status, LimitOf(param).value, None).pages| - 1
    requires var pages := KeyWalk(tables, status, LimitOf(param).value, None).pages;
             && PageEndsSurvive(pages[..m + 1]) && pages[m] != []
             && !Survives(Last(pages[m]).start, Last(pages[m]).id) && !Blank(Last(pages[m]).id)
    ensures m < |tables|
    ensures ClientWalk(CURSORS, tables, status, param, "")
            == AndThen(KeyWalk(tables, status, LimitOf(param).value, None).pages[..m + 1],
                       ClientWalk(CURSORS, tables[m + 1..], status, param, ""))
  {
    var limit := LimitOf(param).value;
    PagesFit(tables, status, limit, None);
    KeyWalkEndsRead(tables, status, limit, m + 1);
    EndIsValid(tables, status, limit, m);
    ReadsIfSurvives(Last(KeyWalk(tables, status, limit, None).pages[m]));
    StartsOver(CURSORS, tables, status, param, "", None, m);
  }

  /**
   * Pagination under change: while rows are inserted and change status between the fetches, a client never gets
   * a row twice, what it gets strictly descends, and once it is through it has got, exactly once, every row that
   * matched at each of its fetches; provided the rows at which pages end survive a cursor.
   */
  lemma WalkUnderChange(tables: seq<set<Item>>, status: Status, param: int)
    requires ValidTables(tables) && FixedStarts(tables) && LimitOf(param).Some?
    requires PageEndsSurvive(KeyWalk(tables, status, LimitOf(param).value, None).pages)
    ensures var w := ClientWalk(CURSORS, tables, status, param, "");
            var all := Flatten(w.pages);
            && Descending(all)
            && (forall x | x in all :: InSome(tables, x) && x.status == status)
            && (forall i, j | 0 <= i < |all| && 0 <= j < |all| && all[i].id == all[j].id :: i == j)
            && (w.finished ==>
                  forall x | InEach(tables, |w.pages|, x) && x.status == status :: x in all)
  {
    var limit := LimitOf(param).value;
    KeyWalkDescends(tables, status, limit, None);
    var w := KeyWalk(tables, status, limit, None);
    assert w.pages[..|w.pages|] == w.pages;
    KeyWalkEndsRead(tables, status, limit, |w.pages|);
    CursorsAreBounds(CURSORS, tables, status, param, "", None);
    var all := Flatten(w.pages);
    forall i, j | 0 <= i < |all| && 0 <= j < |all| && all[i].id == all[j].id ensures i == j {
      assert InSome(tables, all[i]) && InSome(tables, all[j]);
      DescendingOnce(all, i, j);
    }
    if w.finished {
      forall x | InEach(tables, |w.pages|, x) && x.status == status ensures x in all {
        KeyWalkFinds(tables, status, limit, None, x);
      }
    }
  }
}
