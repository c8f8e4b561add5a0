/** Keyset pagination, newest first, with an opaque cursor. */
module Paging {
  import opened Basics

  datatype Row = Row(id: Id, createdAt: int, user: Id, startup: Id, isRead: bool)

  /** Position in the listing. */
  datatype Key = Key(at: int, id: Id)

  function KeyOf(r: Row): Key {
    Key(r.createdAt, r.id)
  }

  /** a comes before b: later, or at the same moment with the larger id. */
  predicate Before(a: Key, b: Key) {
    a.at > b.at || (a.at == b.at && a.id > b.id)
  }

  /** Ids are a primary key. */
  ghost predicate DistinctIds(rows: set<Row>) {
    forall a, b :: a in rows && b in rows && a.id == b.id ==> a == b
  }

  // ---------------------------------------------------------------- the full listing

  lemma {:induction false} FirstExists(rows: set<Row>)
    requires rows != {} && DistinctIds(rows)
    ensures exists r :: r in rows && forall o :: o in rows && o != r ==> Before(KeyOf(r), KeyOf(o))
    decreases rows
  {
    var x :| x in rows;
    var rest := rows - {x};
    if rest != {} {
      FirstExists(rest);
      var r :| r in rest && forall o :: o in rest && o != r ==> Before(KeyOf(r), KeyOf(o));
      if Before(KeyOf(x), KeyOf(r)) {
        assert forall o :: o in rows && o != x ==> Before(KeyOf(x), KeyOf(o));
      } else {
        assert x.id != r.id;
        assert forall o :: o in rows && o != r ==> Before(KeyOf(r), KeyOf(o));
      }
    } else {
      assert rows == {x};
    }
  }

  ghost function First(rows: set<Row>): (r: Row)
    requires rows != {} && DistinctIds(rows)
    ensures r in rows && forall o :: o in rows && o != r ==> Before(KeyOf(r), KeyOf(o))
  {
    FirstExists(rows);
    var r :| r in rows && forall o :: o in rows && o != r ==> Before(KeyOf(r), KeyOf(o));
    r
  }

  /** All rows in listing order. */
  ghost function Listing(rows: set<Row>): (s: seq<Row>)
    requires DistinctIds(rows)
    ensures |s| == |rows|
    decreases rows
  {
    if rows == {} then []
    else
      var r := First(rows);
      [r] + Listing(rows - {r})
  }

  ghost predicate InOrder(s: seq<Row>) {
    forall i, j :: 0 <= i < j < |s| ==> Before(KeyOf(s[i]), KeyOf(s[j]))
  }

  /** The listing holds exactly the rows, in strictly descending key order. */
  lemma {:induction false} ListingIsSorted(rows: set<Row>)
    requires DistinctIds(rows)
    ensures forall r :: r in Listing(rows) <==> r in rows
    ensures InOrder(Listing(rows))
    decreases rows
  {
    if rows != {} {
      var r := First(rows);
      ListingIsSorted(rows - {r});
    }
  }

  lemma HeadIsARow(rows: set<Row>, s: seq<Row>)
    requires s != [] && forall r :: r in s <==> r in rows
    ensures s[0] in rows
  {
    assert s[0] in s;
  }

  lemma HeadIsFirst(rows: set<Row>, s: seq<Row>)
    requires rows != {} && DistinctIds(rows) && InOrder(s) && forall r :: r in s <==> r in rows
    ensures s != [] && s[0] == First(rows)
  {
    var r := First(rows);
    assert r in s;
    var i :| 0 <= i < |s| && s[i] == r;
    assert s[0] in s;
  }

  lemma TailIsRest(s: seq<Row>)
    requires s != [] && InOrder(s)
    ensures InOrder(s[1..])
    ensures forall o :: o in s[1..] <==> o in s && o != s[0]
  {
    forall o | o in s[1..]
      ensures o in s && o != s[0]
    {
      var i :| 0 <= i < |s[1..]| && s[1..][i] == o;
      assert Before(KeyOf(s[0]), KeyOf(s[i + 1]));
    }
  }

  /** Any sorted arrangement of the rows is the listing. */
  lemma {:induction false} ListingIsUnique(rows: set<Row>, s: seq<Row>)
    requires DistinctIds(rows) && InOrder(s) && forall r :: r in s <==> r in rows
    ensures s == Listing(rows)
    decreases rows
  {
    if rows == {} {
      if s != [] { HeadIsARow(rows, s); }
    } else {
      var r := First(rows);
      HeadIsFirst(rows, s);
      TailIsRest(s);
      assert forall o :: o in s[1..] <==> o in rows - {r};
      ListingIsUnique(rows - {r}, s[1..]);
    }
  }

  // ---------------------------------------------------------------- one page

  /** Rows strictly after the cursor; everything when there is none. */
  function After(rows: set<Row>, cursor: Option<Key>): set<Row> {
    set r | r in rows && (cursor.Some? ==> Before(cursor.value, KeyOf(r)))
  }

  function Clamp(limit: int): nat {
    Max(1, Min(limit, 50))
  }

  function FirstPage(all: seq<Row>, limit: int): seq<Row> {
    all[..Min(Clamp(limit), |all|)]
  }

  function CursorAfter(all: seq<Row>, limit: int): Option<Key> {
    if |all| > Clamp(limit) then Some(KeyOf(all[Clamp(limit) - 1])) else None
  }

  ghost function PageRows(rows: set<Row>, limit: int, cursor: Option<Key>): seq<Row>
    requires DistinctIds(rows)
  {
    FirstPage(Listing(After(rows, cursor)), limit)
  }

  ghost function NextCursor(rows: set<Row>, limit: int, cursor: Option<Key>): Option<Key>
    requires DistinctIds(rows)
  {
    CursorAfter(Listing(After(rows, cursor)), limit)
  }

  predicate IsNewer(a: Row, b: Row) {
    a.createdAt > b.createdAt || (a.createdAt == b.createdAt && a.id > b.id)
  }

  /** The newest of these rows, at most `size`, newest first, ids breaking ties; and a cursor on
      the last one exactly when some are left. */
  ghost predicate IsNewest(older: set<Row>, size: nat, page: seq<Row>, next: Option<Key>) {
    && |page| == Min(size, |older|) && (forall r :: r in page ==> r in older)
    && (forall i, j :: 0 <= i < j < |page| ==> IsNewer(page[i], page[j]))
    && (forall r, i :: r in older && r !in page && 0 <= i < |page| ==> IsNewer(page[i], r))
    && (next.Some? <==> |older| > size)
    && (next.Some? ==> page != [] && next.value == Key(page[|page| - 1].createdAt, page[|page| - 1].id))
  }

  /** The page in terms of the rows: of those older than the cursor, the newest 1 to 50 as
      asked. */
  ghost predicate IsPage(rows: set<Row>, limit: int, cursor: Option<Key>, page: seq<Row>, next: Option<Key>) {
    IsNewest(set r | r in rows && (cursor.None? || r.createdAt < cursor.value.at
                                   || (r.createdAt == cursor.value.at && r.id < cursor.value.id)),
             if limit < 1 then 1 else if limit > 50 then 50 else limit, page, next)
  }

  lemma RestIsOlder(rows: set<Row>, n: nat, r: Row, i: nat)
    requires DistinctIds(rows) && n <= |rows| && r in rows && r !in Listing(rows)[..n] && i < n
    ensures IsNewer(Listing(rows)[i], r)
  {
    ListingIsSorted(rows);
    var s := Listing(rows);
    assert r in s;
    var j :| 0 <= j < |s| && s[j] == r;
    assert forall k :: 0 <= k < n ==> s[k] == s[..n][k];
  }

  lemma PrefixIsNewest(rows: set<Row>, n: nat)
    requires DistinctIds(rows) && n <= |rows|
    ensures var page := Listing(rows)[..n];
      && (forall r :: r in page ==> r in rows)
      && (forall i, j :: 0 <= i < j < n ==> IsNewer(page[i], page[j]))
      && (forall r, i :: r in rows && r !in page && 0 <= i < n ==> IsNewer(page[i], r))
  {
    ListingIsSorted(rows);
    var page := Listing(rows)[..n];
    forall r, i | r in rows && r !in page && 0 <= i < n
      ensures IsNewer(page[i], r)
    {
      RestIsOlder(rows, n, r, i);
    }
  }

  lemma FirstPageIsNewest(older: set<Row>, limit: int)
    requires DistinctIds(older)
    ensures IsNewest(older, Clamp(limit), FirstPage(Listing(older), limit), CursorAfter(Listing(older), limit))
  {
    PrefixIsNewest(older, Min(Clamp(limit), |older|));
  }

  lemma PageIsPage(rows: set<Row>, limit: int, cursor: Option<Key>)
    requires DistinctIds(rows)
    ensures IsPage(rows, limit, cursor, PageRows(rows, limit, cursor), NextCursor(rows, limit, cursor))
  {
    FirstPageIsNewest(After(rows, cursor), limit);
    assert After(rows, cursor)
      == set r | r in rows && (cursor.None? || r.createdAt < cursor.value.at
                               || (r.createdAt == cursor.value.at && r.id < cursor.value.id));
  }

  method PickFirst(rows: set<Row>) returns (best: Row)
    requires rows != {} && DistinctIds(rows)
    ensures best == First(rows)
  {
    best :| best in rows;
    var others := rows - {best};
    while others != {}
      invariant best in rows && others <= rows
      invariant forall o :: o in rows - others && o != best ==> Before(KeyOf(best), KeyOf(o))
    {
      var o :| o in others;
      others := others - {o};
      if Before(KeyOf(o), KeyOf(best)) {
        best := o;
      }
    }
  }

  lemma FirstMovesOver(top: seq<Row>, rest: set<Row>)
    requires rest != {} && DistinctIds(rest)
    ensures top + Listing(rest) == (top + [First(rest)]) + Listing(rest - {First(rest)})
  {
    var r, tail := First(rest), Listing(rest - {First(rest)});
    assert Listing(rest) == [r] + tail;
    assert top + ([r] + tail) == (top + [r]) + tail;
  }

  /** The first n rows in listing order (`ORDER BY ... LIMIT n`). */
  method TopRows(rows: set<Row>, n: nat) returns (top: seq<Row>)
    requires DistinctIds(rows)
    ensures top == Listing(rows)[..Min(n, |rows|)]
  {
    top := [];
    var rest := rows;
    while rest != {} && |top| < n
      invariant rest <= rows
      invariant |top| + |rest| == |rows| && |top| <= n
      invariant top + Listing(rest) == Listing(rows)
      decreases rest
    {
      var best := PickFirst(rest);
      FirstMovesOver(top, rest);
      top := top + [best];
      rest := rest - {best};
    }
    assert top == Listing(rows)[..|top|];
  }

  /** Fetch one row too many to learn whether there is a next page. */
  method Page(rows: set<Row>, limit: int, cursor: Option<Key>) returns (page: seq<Row>, next: Option<Key>)
    requires DistinctIds(rows)
    ensures page == PageRows(rows, limit, cursor) && next == NextCursor(rows, limit, cursor)
    ensures IsPage(rows, limit, cursor, page, next)
  {
    PageIsPage(rows, limit, cursor);
    var size := Clamp(limit);
    page := TopRows(After(rows, cursor), size + 1);
    next := None;
    if |page| > size {
      page := page[..size];
      next := Some(KeyOf(page[|page| - 1]));
    }
  }

  // ---------------------------------------------------------------- all the pages

  /** Follow the next cursor from page to page; each request may see a newer table. */
  ghost function Walk(tables: seq<set<Row>>, limit: int, cursor: Option<Key>): seq<Row>
    requires forall t :: t in tables ==> DistinctIds(t)
  {
    if tables == [] then []
    else
      var next := NextCursor(tables[0], limit, cursor);
      PageRows(tables[0], limit, cursor) + if next.Some? then Walk(tables[1..], limit, next) else []
  }

  lemma LaterInListing(s: seq<Row>, k: nat, i: nat)
    requires InOrder(s) && k < |s| && i < |s| && Before(KeyOf(s[k]), KeyOf(s[i]))
    ensures k < i
  {
  }

  lemma TailLiesAfter(rows: set<Row>, s: seq<Row>, k: nat, r: Row)
    requires InOrder(s) && k < |s| && forall o :: o in s <==> o in rows
    ensures r in s[k + 1..] <==> r in After(rows, Some(KeyOf(s[k])))
  {
    if r in s[k + 1..] {
      var i :| k + 1 <= i < |s| && s[i] == r;
      assert Before(KeyOf(s[k]), KeyOf(s[i]));
      assert r in s;
    }
    if r in After(rows, Some(KeyOf(s[k]))) {
      var i :| 0 <= i < |s| && s[i] == r;
      LaterInListing(s, k, i);
      assert s[k + 1..][i - k - 1] == r;
    }
  }

  /** What comes after the listing's k-th row is the rest of the listing. */
  lemma {:induction false} RestOfListing(rows: set<Row>, k: nat)
    requires DistinctIds(rows) && k < |rows|
    ensures Listing(After(rows, Some(KeyOf(Listing(rows)[k])))) == Listing(rows)[k + 1..]
  {
    ListingIsSorted(rows);
    var s := Listing(rows);
    var rest := After(rows, Some(KeyOf(s[k])));
    assert InOrder(s[k + 1..]);
    forall r
      ensures r in s[k + 1..] <==> r in rest
    {
      TailLiesAfter(rows, s, k, r);
    }
    ListingIsUnique(rest, s[k + 1..]);
  }

  /** The table of each later request only adds rows that sort before every row of `base`. */
  ghost predicate OnlyNewer(base: set<Row>, tables: seq<set<Row>>) {
    forall t :: t in tables ==>
      DistinctIds(t) && base <= t && forall n, b :: n in t && n !in base && b in base ==> Before(KeyOf(n), KeyOf(b))
  }

  lemma NewerRowsAreInvisible(base: set<Row>, t: set<Row>, r: Row)
    requires base <= t && r in base
    requires forall n, b :: n in t && n !in base && b in base ==> Before(KeyOf(n), KeyOf(b))
    ensures After(t, Some(KeyOf(r))) == After(base, Some(KeyOf(r)))
  {
  }

  lemma AfterIsTransitive(rows: set<Row>, a: Option<Key>, b: Key)
    requires a.Some? ==> Before(a.value, b)
    ensures After(After(rows, a), Some(b)) == After(rows, Some(b))
  {
  }

  /** What lies after the last row of a full page is the rest of the listing. */
  lemma PageSplitsListing(left: set<Row>, size: nat) returns (last: Row)
    requires DistinctIds(left) && 0 < size < |left|
    ensures last in left && last == Listing(left)[size - 1]
    ensures Listing(After(left, Some(KeyOf(last)))) == Listing(left)[size..]
  {
    last := Listing(left)[size - 1];
    ListingIsSorted(left);
    assert last in Listing(left);
    RestOfListing(left, size - 1);
  }

  /** What the next cursor leads to is what the page left out. */
  lemma CursorLeadsToRest(base: set<Row>, cursor: Option<Key>, limit: int) returns (last: Row)
    requires DistinctIds(base) && CursorAfter(Listing(After(base, cursor)), limit).Some?
    ensures last in base && CursorAfter(Listing(After(base, cursor)), limit) == Some(KeyOf(last))
    ensures Listing(After(base, Some(KeyOf(last)))) == Listing(After(base, cursor))[Clamp(limit)..]
  {
    last := PageSplitsListing(After(base, cursor), Clamp(limit));
    AfterIsTransitive(base, cursor, KeyOf(last));
  }

  /** A page and what it left out make the whole. */
  lemma PageCompletes(s: seq<Row>, limit: int, rest: seq<Row>)
    requires rest == if |s| > Clamp(limit) then s[Clamp(limit)..] else []
    ensures FirstPage(s, limit) + rest == s
  {
  }

  lemma OnlyNewerTail(base: set<Row>, tables: seq<set<Row>>)
    requires OnlyNewer(base, tables) && tables != []
    ensures OnlyNewer(base, tables[1..])
  {
  }

  lemma {:induction false} WalkListsTheRest(base: set<Row>, tables: seq<set<Row>>, limit: int, cursor: Option<Key>)
    requires DistinctIds(base) && OnlyNewer(base, tables)
    requires tables != [] && After(tables[0], cursor) == After(base, cursor)
    requires |tables| > |After(base, cursor)|
    ensures Walk(tables, limit, cursor) == Listing(After(base, cursor))
    decreases |tables|
  {
    var s := Listing(After(base, cursor));
    if CursorAfter(s, limit).Some? {
      var last := CursorLeadsToRest(base, cursor, limit);
      assert |After(base, Some(KeyOf(last)))| == |s| - Clamp(limit);
      OnlyNewerTail(base, tables);
      NewerRowsAreInvisible(base, tables[1], last);
      WalkListsTheRest(base, tables[1..], limit, Some(KeyOf(last)));
      PageCompletes(s, limit, Walk(tables[1..], limit, Some(KeyOf(last))));
    } else {
      PageCompletes(s, limit, []);
    }
  }

  /** Following `next_cursor` from the first page until there is none yields exactly the
      rows that were there at the start, newest first, none repeated and none missed,
      for every limit, while newer rows keep arriving between the pages. */
  lemma PagesListEverythingOnce(base: set<Row>, tables: seq<set<Row>>, limit: int)
    requires DistinctIds(base) && OnlyNewer(base, tables)
    requires |tables| > |base| && tables[0] == base
    ensures Walk(tables, limit, None) == Listing(base)
  {
    assert After(base, None) == base;
    WalkListsTheRest(base, tables, limit, None);
  }

  // ---------------------------------------------------------------- pages of a changing table

  ghost predicate HasKey(rows: set<Row>, k: Key) {
    exists r :: r in rows && KeyOf(r) == k
  }

  ghost predicate ListsKey(s: seq<Row>, k: Key) {
    exists r :: r in s && KeyOf(r) == k
  }

  ghost predicate KeysWithin(rows: set<Row>, keys: set<Key>) {
    forall r :: r in rows ==> KeyOf(r) in keys
  }

  /** Some page of the walk has no next cursor. */
  ghost predicate WalkEnds(tables: seq<set<Row>>, limit: int, cursor: Option<Key>)
    requires forall t :: t in tables ==> DistinctIds(t)
  {
    tables != [] &&
    var next := NextCursor(tables[0], limit, cursor);
    next.Some? ==> WalkEnds(tables[1..], limit, next)
  }

  /** A page is in order, lies after the cursor, and the next cursor is its last key. */
  lemma PageIsInOrder(rows: set<Row>, limit: int, cursor: Option<Key>)
    requires DistinctIds(rows)
    ensures var page, next := PageRows(rows, limit, cursor), NextCursor(rows, limit, cursor);
      && InOrder(page) && (forall r :: r in page ==> r in After(rows, cursor))
      && (next.Some? ==> page != [] && next.value == KeyOf(page[|page| - 1]))
  {
    ListingIsSorted(After(rows, cursor));
  }

  lemma PagesJoin(page: seq<Row>, rest: seq<Row>)
    requires InOrder(page) && InOrder(rest)
    requires rest != [] ==> page != [] && Before(KeyOf(page[|page| - 1]), KeyOf(rest[0]))
    ensures InOrder(page + rest)
  {
    var s := page + rest;
    forall i, j | 0 <= i < j < |s|
      ensures Before(KeyOf(s[i]), KeyOf(s[j]))
    {
      if i < |page| <= j {
        assert i < |page| - 1 ==> Before(KeyOf(page[i]), KeyOf(page[|page| - 1]));
        assert j > |page| ==> Before(KeyOf(rest[0]), KeyOf(rest[j - |page|]));
      }
    }
  }

  lemma {:induction false} WalkIsInOrder(tables: seq<set<Row>>, limit: int, cursor: Option<Key>)
    requires forall t :: t in tables ==> DistinctIds(t)
    ensures InOrder(Walk(tables, limit, cursor))
    ensures forall r :: r in Walk(tables, limit, cursor) && cursor.Some? ==> Before(cursor.value, KeyOf(r))
  {
    if tables != [] {
      var page, next := PageRows(tables[0], limit, cursor), NextCursor(tables[0], limit, cursor);
      PageIsInOrder(tables[0], limit, cursor);
      if next.Some? {
        WalkIsInOrder(tables[1..], limit, next);
        var rest := Walk(tables[1..], limit, next);
        assert rest != [] ==> rest[0] in rest;
        assert page[|page| - 1] in page;
        PagesJoin(page, rest);
      } else {
        PagesJoin(page, []);
      }
    }
  }

  /** Only rows that some request saw are listed. */
  lemma {:induction false} ListedWasSeen(tables: seq<set<Row>>, limit: int, cursor: Option<Key>, r: Row)
    requires forall t :: t in tables ==> DistinctIds(t)
    requires r in Walk(tables, limit, cursor)
    ensures exists t :: t in tables && r in t
  {
    var page, next := PageRows(tables[0], limit, cursor), NextCursor(tables[0], limit, cursor);
    PageIsInOrder(tables[0], limit, cursor);
    if r in page {
      assert tables[0] in tables && r in tables[0];
    } else {
      ListedWasSeen(tables[1..], limit, next, r);
    }
  }

  /** A row after the cursor is on the page or after the next cursor. */
  lemma OnPageOrLater(rows: set<Row>, limit: int, cursor: Option<Key>, r: Row)
    requires DistinctIds(rows) && r in After(rows, cursor)
    ensures r in PageRows(rows, limit, cursor)
      || var next := NextCursor(rows, limit, cursor); next.Some? && Before(next.value, KeyOf(r))
  {
    ListingIsSorted(After(rows, cursor));
    var s := Listing(After(rows, cursor));
    assert r in s;
    var i :| 0 <= i < |s| && s[i] == r;
    if i < Clamp(limit) {
      assert FirstPage(s, limit)[i] == r;
    }
  }

  lemma {:induction false} WalkMissesNobody(tables: seq<set<Row>>, limit: int, cursor: Option<Key>, k: Key)
    requires forall t :: t in tables ==> DistinctIds(t)
    requires WalkEnds(tables, limit, cursor)
    requires (forall t :: t in tables ==> HasKey(t, k)) && (cursor.Some? ==> Before(cursor.value, k))
    ensures ListsKey(Walk(tables, limit, cursor), k)
  {
    assert HasKey(tables[0], k);
    var r :| r in tables[0] && KeyOf(r) == k;
    var page, next := PageRows(tables[0], limit, cursor), NextCursor(tables[0], limit, cursor);
    OnPageOrLater(tables[0], limit, cursor, r);
    if r in page {
      assert r in Walk(tables, limit, cursor);
    } else {
      WalkMissesNobody(tables[1..], limit, next, k);
      var found :| found in Walk(tables[1..], limit, next) && KeyOf(found) == k;
      assert found in Walk(tables, limit, cursor);
    }
  }

  function KeysAfter(keys: set<Key>, cursor: Option<Key>): set<Key> {
    set k | k in keys && (cursor.Some? ==> Before(cursor.value, k))
  }

  lemma CursorUsesUpAKey(keys: set<Key>, cursor: Option<Key>, next: Option<Key>)
    requires next.Some? && next.value in KeysAfter(keys, cursor)
    ensures |KeysAfter(keys, next)| < |KeysAfter(keys, cursor)|
  {
    var left := KeysAfter(keys, cursor) - {next.value};
    assert KeysAfter(keys, next) <= left;
    SubsetSize(KeysAfter(keys, next), left);
    assert |left| == |KeysAfter(keys, cursor)| - 1;
  }

  /** Each next cursor uses up a key, so there are at most as many further pages as keys. */
  lemma {:induction false} WalkMustEnd(tables: seq<set<Row>>, limit: int, cursor: Option<Key>, keys: set<Key>)
    requires forall t :: t in tables ==> DistinctIds(t) && KeysWithin(t, keys)
    requires |tables| > |KeysAfter(keys, cursor)|
    ensures WalkEnds(tables, limit, cursor)
    decreases |tables|
  {
    var next := NextCursor(tables[0], limit, cursor);
    if next.Some? {
      PageIsInOrder(tables[0], limit, cursor);
      var page := PageRows(tables[0], limit, cursor);
      assert page[|page| - 1] in After(tables[0], cursor) && tables[0] in tables;
      assert forall t :: t in tables[1..] ==> t in tables;
      CursorUsesUpAKey(keys, cursor, next);
      WalkMustEnd(tables[1..], limit, next, keys);
    }
  }

  /** Whatever is added, removed or marked between the pages: no key is listed twice, only rows
      some request saw are listed, and once the pages end, as they must when there are more
      requests than keys, every key that stayed throughout has been listed. */
  lemma StayersAreListedOnce(tables: seq<set<Row>>, limit: int, keys: set<Key>, k: Key)
    requires forall t :: t in tables ==> DistinctIds(t) && KeysWithin(t, keys)
    ensures var s := Walk(tables, limit, None);
      && InOrder(s) && (forall i, j :: 0 <= i < j < |s| ==> KeyOf(s[i]) != KeyOf(s[j]))
      && (forall r :: r in s ==> exists t :: t in tables && r in t)
      && (|tables| > |keys| ==> WalkEnds(tables, limit, None))
      && (WalkEnds(tables, limit, None) && (forall t :: t in tables ==> HasKey(t, k)) ==> ListsKey(s, k))
  {
    WalkIsInOrder(tables, limit, None);
    forall r | r in Walk(tables, limit, None)
      ensures exists t :: t in tables && r in t
    {
      ListedWasSeen(tables, limit, None, r);
    }
    if |tables| > |keys| {
      assert KeysAfter(keys, None) == keys;
      WalkMustEnd(tables, limit, None, keys);
    }
    if WalkEnds(tables, limit, None) && forall t :: t in tables ==> HasKey(t, k) {
      WalkMissesNobody(tables, limit, None, k);
    }
  }

  // ---------------------------------------------------------------- the cursor

  /** The text formats of the platform: timestamps, UUIDs and base64. */
  datatype Formats = Formats(
    iso: int -> string, fromIso: string -> Option<int>,
    hex: Id -> string, fromHex: string -> Option<Id>,
    pack: string -> string, unpack: string -> Option<string>)

  /** Each format reads back what it wrote, and timestamps never contain the separator. */
  ghost predicate Lawful(f: Formats) {
    && (forall t :: f.fromIso(f.iso(t)) == Some(t) && '|' !in f.iso(t))
    && (forall i: Id :: f.fromHex(f.hex(i)) == Some(i))
    && (forall s :: f.unpack(f.pack(s)) == Some(s))
  }

  function EncodeCursor(f: Formats, k: Key): string {
    f.pack(f.iso(k.at) + "|" + f.hex(k.id))
  }

  /** Split at the first separator, if there is one. */
  function SplitOnce(s: string): (parts: Option<(string, string)>)
    ensures parts.Some? ==> s == parts.value.0 + "|" + parts.value.1 && '|' !in parts.value.0
    ensures parts.None? <==> '|' !in s
  {
    if s == "" then None
    else if s[0] == '|' then
      assert s == "" + "|" + s[1..];
      Some(("", s[1..]))
    else
      var rest := SplitOnce(s[1..]);
      assert s == [s[0]] + s[1..];
      if rest.None? then None
      else
        assert s == ([s[0]] + rest.value.0) + "|" + rest.value.1;
        Some(([s[0]] + rest.value.0, rest.value.1))
  }

  datatype CursorError = InvalidCursor

  function DecodeCursor(f: Formats, cursor: string): Result<Key, CursorError> {
    var raw := f.unpack(cursor);
    if raw.None? then Err(InvalidCursor)
    else
      var parts := SplitOnce(raw.value);
      if parts.None? then Err(InvalidCursor)
      else
        var at, id := f.fromIso(parts.value.0), f.fromHex(parts.value.1);
        if at.None? || id.None? then Err(InvalidCursor) else Ok(Key(at.value, id.value))
  }

  /** Splitting undoes joining when the first part has no separator. */
  lemma {:induction false} SplitUndoesJoin(a: string, b: string)
    requires '|' !in a
    ensures SplitOnce(a + "|" + b) == Some((a, b))
  {
    var s := a + "|" + b;
    if a == "" {
      assert s[1..] == b;
    } else {
      assert s[1..] == a[1..] + "|" + b;
      SplitUndoesJoin(a[1..], b);
      assert [a[0]] + a[1..] == a;
    }
  }

  /** The decoder undoes the encoder. */
  lemma DecodeUndoesEncode(f: Formats, k: Key)
    requires Lawful(f)
    ensures DecodeCursor(f, EncodeCursor(f, k)) == Ok(k)
  {
    SplitUndoesJoin(f.iso(k.at), f.hex(k.id));
    assert f.unpack(f.pack(f.iso(k.at) + "|" + f.hex(k.id))) == Some(f.iso(k.at) + "|" + f.hex(k.id));
  }

  // ---------------------------------------------------------------- the endpoint's service

  /** The rows one caller may see, with or without the read ones. */
  function Visible(table: set<Row>, user: Id, startup: Id, unread: bool): set<Row> {
    set r | r in table && r.user == user && r.startup == startup && (unread ==> !r.isRead)
  }

  function AsCursor(r: Result<Key, CursorError>): Result<Option<Key>, CursorError> {
    match r
    case Ok(k) => Ok(Some(k))
    case Err(e) => Err(e)
  }

  /** One request: an absent or empty cursor asks for the first page, a malformed one is
      refused, and the answer carries the next cursor as text. */
  method ListNotifications(f: Formats, table: set<Row>, user: Id, startup: Id, unread: bool, limit: int,
                           cursor: Option<string>)
    returns (answer: Result<(seq<Row>, Option<string>), CursorError>)
    requires DistinctIds(table) && Lawful(f)
    ensures var rows := Visible(table, user, startup, unread);
      var at := if cursor.None? || cursor.value == "" then Ok(None) else AsCursor(DecodeCursor(f, cursor.value));
      match at
      case Err(e) => answer == Err(e)
      case Ok(key) =>
        && answer.Ok? && answer.value.0 == PageRows(rows, limit, key)
        && (answer.value.1.None? <==> NextCursor(rows, limit, key).None?)
        && (answer.value.1.Some? ==>
              DecodeCursor(f, answer.value.1.value) == Ok(NextCursor(rows, limit, key).value))
    ensures answer.Ok? ==>
      && 0 <= |answer.value.0| <= 50
      && forall r :: r in answer.value.0 ==>
           r in table && r.user == user && r.startup == startup && (unread ==> !r.isRead)
  {
    var rows := Visible(table, user, startup, unread);
    var key: Option<Key> := None;
    if cursor.Some? && cursor.value != "" {
      var decoded := DecodeCursor(f, cursor.value);
      if decoded.Err? {
        return Err(decoded.error);
      }
      key := Some(decoded.value);
    }
    var page, next := Page(rows, limit, key);
    if next.None? {
      answer := Ok((page, None));
    } else {
      DecodeUndoesEncode(f, next.value);
      answer := Ok((page, Some(EncodeCursor(f, next.value))));
    }
  }
}
