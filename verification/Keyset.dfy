/**
 Listings by keyset: each request returns the next rows in order, one row more is
 read to see whether there is a next page, and the last row becomes the cursor
 (server/postgres/tenants.go:72-162, invitation_administration.go:108-287,
 localization.go:273-350, server/pagination.go:184-195).

 A table is the set of keys of the rows that match the filter when a request runs.
 `order` is the order of the database on them, any strict total order.
 */
module Keyset {
  import opened Wrappers
  import opened Cursor

  type Order = (Key, Key) -> bool

  datatype Page = Page(items: seq<Key>, next: Cursor)

  const DEFAULT_PAGE_SIZE: int := 20
  const MAX_PAGE_SIZE: int := 100

  function EffectiveLimit(limit: int): (size: int)
    ensures 1 <= size <= MAX_PAGE_SIZE
    ensures limit > MAX_PAGE_SIZE ==> size == 100
    ensures limit <= 0 ==> size == 20
    ensures 1 <= limit <= MAX_PAGE_SIZE ==> size == limit
  {
    if limit <= 0 then DEFAULT_PAGE_SIZE else if limit > MAX_PAGE_SIZE then MAX_PAGE_SIZE else limit
  }

  // ----- orders

  ghost predicate StrictTotal(order: Order) {
    && (forall a, b :: order(a, b) ==> !order(b, a))
    && (forall a, b :: a != b ==> order(a, b) || order(b, a))
    && (forall a, b, c :: order(a, b) && order(b, c) ==> order(a, c))
  }

  function Directed(order: Order, query: Query): Order {
    if query.fingerprint.descending then (a, b) => order(b, a) else order
  }

  predicate Ascending(order: Order, keys: seq<Key>) {
    forall i, j :: 0 <= i < j < |keys| ==> order(keys[i], keys[j])
  }

  /** `keys` are the rows, in order. */
  ghost predicate IsSorted(order: Order, keys: seq<Key>, rows: set<Key>) {
    Ascending(order, keys) && forall key :: key in keys <==> key in rows
  }

  predicate IsFirst(order: Order, rows: set<Key>, first: Key) {
    first in rows && forall key :: key in rows && key != first ==> order(first, key)
  }

  lemma {:induction false} SomeRowIsFirst(order: Order, rows: set<Key>)
    requires StrictTotal(order) && rows != {}
    ensures exists first :: IsFirst(order, rows, first)
    decreases rows
  {
    var key :| key in rows;
    if rows == {key} {
      assert IsFirst(order, rows, key);
    } else {
      SomeRowIsFirst(order, rows - {key});
      var other :| IsFirst(order, rows - {key}, other);
      assert forall k :: k in rows && k != key ==> k in rows - {key};
      assert IsFirst(order, rows, if order(key, other) then key else other);
    }
  }

  /** ORDER BY. */
  function Sorted(order: Order, rows: set<Key>): seq<Key>
    requires StrictTotal(order)
    decreases rows
  {
    if rows == {} then []
    else
      SomeRowIsFirst(order, rows);
      var first :| first in rows && IsFirst(order, rows, first);
      [first] + Sorted(order, rows - {first})
  }

  lemma {:induction false} SortedIsSorted(order: Order, rows: set<Key>)
    requires StrictTotal(order)
    ensures IsSorted(order, Sorted(order, rows), rows)
    decreases rows
  {
    if rows != {} {
      SomeRowIsFirst(order, rows);
      var keys := Sorted(order, rows);
      assert keys[0] in rows && IsFirst(order, rows, keys[0]) && keys == [keys[0]] + Sorted(order, rows - {keys[0]});
      SortedIsSorted(order, rows - {keys[0]});
      HeadIsFirst(order, keys[0], Sorted(order, rows - {keys[0]}), rows);
    }
  }

  lemma SortedRowIn(order: Order, rows: set<Key>, i: nat)
    requires StrictTotal(order) && i < |Sorted(order, rows)|
    ensures Sorted(order, rows)[i] in rows
  {
    SortedIsSorted(order, rows);
    assert Sorted(order, rows)[i] in Sorted(order, rows);
  }

  lemma SortedHasRows(order: Order, rows: set<Key>)
    requires StrictTotal(order)
    ensures rows != {} ==> Sorted(order, rows) != []
  {
  }

  lemma HeadIsFirst(order: Order, first: Key, rest: seq<Key>, rows: set<Key>)
    requires IsFirst(order, rows, first) && IsSorted(order, rest, rows - {first})
    ensures IsSorted(order, [first] + rest, rows)
  {
    assert forall k :: 0 <= k < |rest| ==> rest[k] in rest;
  }

  lemma {:induction false} SortedIsUnique(order: Order, a: seq<Key>, b: seq<Key>, rows: set<Key>)
    requires StrictTotal(order) && IsSorted(order, a, rows) && IsSorted(order, b, rows)
    ensures a == b
    decreases |a|
  {
    assert |a| > 0 ==> a[0] in a;
    assert |b| > 0 ==> b[0] in b;
    if a != [] && b != [] {
      assert a[0] in b && b[0] in a;
      assert a[0] == b[0];
      var rest := rows - {a[0]};
      assert IsSorted(order, a[1..], rest) by { TailIsSorted(order, a, rows); }
      assert IsSorted(order, b[1..], rest) by { TailIsSorted(order, b, rows); }
      SortedIsUnique(order, a[1..], b[1..], rest);
      assert a == [a[0]] + a[1..] && b == [b[0]] + b[1..];
    }
  }

  lemma TailIsSorted(order: Order, keys: seq<Key>, rows: set<Key>)
    requires StrictTotal(order) && keys != [] && IsSorted(order, keys, rows)
    ensures IsSorted(order, keys[1..], rows - {keys[0]})
  {
    forall key ensures key in keys[1..] <==> key in rows - {keys[0]} {
      if key in keys && key != keys[0] {
        var k :| 0 <= k < |keys| && keys[k] == key;
        assert keys[1..][k - 1] == key;
      }
    }
  }

  // ----- one request

  /** The rows behind a cursor: all of them without one. */
  function Behind(order: Order, rows: set<Key>, from: Option<Key>): set<Key> {
    set key | key in rows && (from.None? || order(from.value, key))
  }

  function Take<T>(items: seq<T>, limit: nat): (taken: seq<T>) {
    if |items| <= limit then items else items[..limit]
  }

  function Start(query: Query, cursor: Cursor): Result<Option<Key>, Error> {
    if cursor.NoCursor? then Ok(None)
    else match Decode(query, cursor)
      case Ok(key) => Ok(Some(key))
      case Err(e) => Err(e)
  }

  /** The rows a request is still to see. */
  function Remaining(order: Order, query: Query, rows: set<Key>, cursor: Cursor): set<Key> {
    match Start(query, cursor)
    case Ok(from) => Behind(Directed(order, query), rows, from)
    case Err(_) => {}
  }

  /**
   What a page is: the first `EffectiveLimit` rows behind the cursor, and a cursor
   of the last of them exactly if that was not all.
   */
  ghost predicate IsPage(order: Order, query: Query, limit: int, rows: set<Key>, cursor: Cursor, page: Page)
    requires StrictTotal(Directed(order, query))
  {
    var all := Sorted(Directed(order, query), Remaining(order, query, rows, cursor));
    var size := EffectiveLimit(limit);
    && page.items == Take(all, size)
    && page.next == if |all| > size then Encode(query, all[size - 1]) else NoCursor
  }

  /** The SELECT of a listing. */
  function Select(order: Order, rows: set<Key>, from: Option<Key>, limit: nat): seq<Key>
    requires StrictTotal(order)
  {
    Take(Sorted(order, Behind(order, rows, from)), limit)
  }

  method List(order: Order, query: Query, limit: int, rows: set<Key>, cursor: Cursor) returns (r: Result<Page, Error>)
    requires StrictTotal(Directed(order, query))
    ensures r.Err? <==> !cursor.NoCursor? && Decode(query, cursor).Err?
    ensures r.Ok? ==> IsPage(order, query, limit, rows, cursor, r.value)
  {
    var pageSize := EffectiveLimit(limit);
    var from: Option<Key> := None;
    if !cursor.NoCursor? {
      var decoded := Decode(query, cursor);
      if decoded.Err? {
        return Err(Validation);
      }
      from := Some(decoded.value);
    }
    var page := Page(Select(Directed(order, query), rows, from, pageSize + 1), NoCursor);
    if |page.items| > pageSize {
      page := page.(items := page.items[..pageSize]);
      var last := page.items[|page.items| - 1];
      page := page.(next := Encode(query, last));
    }
    return Ok(page);
  }

  lemma DirectedIsTotal(order: Order, query: Query)
    requires StrictTotal(order)
    ensures StrictTotal(Directed(order, query))
  {
  }

  /** The page as a value; `List` computes it. */
  function PageAt(order: Order, query: Query, limit: int, rows: set<Key>, cursor: Cursor): (page: Page)
    requires StrictTotal(order) && Start(query, cursor).Ok?
    ensures StrictTotal(Directed(order, query)) && IsPage(order, query, limit, rows, cursor, page)
  {
    DirectedIsTotal(order, query);
    var all := Sorted(Directed(order, query), Remaining(order, query, rows, cursor));
    var size := EffectiveLimit(limit);
    Page(Take(all, size), if |all| > size then Encode(query, all[size - 1]) else NoCursor)
  }

  // ----- the walk over a fixed table

  /** Following the cursors to the end.  That this is a function says that the walk ends. */
  function Walk(order: Order, query: Query, limit: int, rows: set<Key>, cursor: Cursor): Result<seq<seq<Key>>, Error>
    requires StrictTotal(order)
    requires forall key :: key in rows ==> Fits(query, key)
    decreases |Remaining(order, query, rows, cursor)|
  {
    match Start(query, cursor)
    case Err(e) => Err(e)
    case Ok(_) =>
      var page := PageAt(order, query, limit, rows, cursor);
      if page.next.NoCursor? then Ok([page.items])
      else
        NextHasFewer(order, query, limit, rows, cursor);
        match Walk(order, query, limit, rows, page.next)
        case Ok(pages) => Ok([page.items] + pages)
        case Err(e) => Err(e)
  }

  lemma NextHasFewer(order: Order, query: Query, limit: int, rows: set<Key>, cursor: Cursor)
    requires StrictTotal(order) && Start(query, cursor).Ok?
    requires forall key :: key in rows ==> Fits(query, key)
    requires PageAt(order, query, limit, rows, cursor).next.Record?
    ensures Remaining(order, query, rows, PageAt(order, query, limit, rows, cursor).next) <
            Remaining(order, query, rows, cursor)
    ensures |Remaining(order, query, rows, PageAt(order, query, limit, rows, cursor).next)| <
            |Remaining(order, query, rows, cursor)|
  {
    DirectedIsTotal(order, query);
    var before := Remaining(order, query, rows, cursor);
    var all := Sorted(Directed(order, query), before);
    var last := all[EffectiveLimit(limit) - 1];
    SortedRowIn(Directed(order, query), before, EffectiveLimit(limit) - 1);
    CursorRoundTrip(query, last);
    var after := Remaining(order, query, rows, Encode(query, last));
    assert last in before && last !in after;
    assert after <= before;
    FewerElements(after, before);
  }

  lemma FewerElements<T>(a: set<T>, b: set<T>)
    requires a < b
    ensures |a| < |b|
  {
    assert b == a + (b - a) && |b| == |a| + |b - a|;
  }

  /** Cut into pages: all of the given size but the last. */
  function Chunks(keys: seq<Key>, size: nat): (pages: seq<seq<Key>>)
    requires size > 0
    ensures |pages| > 0
  {
    if |keys| <= size then [keys] else [keys[..size]] + Chunks(keys[size..], size)
  }

  /** No row that ends a page, other than the last one, has the empty text as its sort value. */
  predicate PageEndsNamed(keys: seq<Key>, size: nat)
    requires size > 0
  {
    |keys| <= size || (keys[size - 1].sort != Word("") && PageEndsNamed(keys[size..], size))
  }

  function Concat(pages: seq<seq<Key>>): seq<Key> {
    if pages == [] then [] else pages[0] + Concat(pages[1..])
  }

  lemma {:induction false} ChunksConcat(keys: seq<Key>, size: nat)
    requires size > 0
    ensures Concat(Chunks(keys, size)) == keys
    ensures forall k :: 0 <= k < |Chunks(keys, size)| - 1 ==> |Chunks(keys, size)[k]| == size
    ensures |Chunks(keys, size)[|Chunks(keys, size)| - 1]| <= size
    ensures keys != [] ==> Chunks(keys, size)[|Chunks(keys, size)| - 1] != []
  {
    if |keys| <= size {
      assert Concat([keys]) == keys + Concat([]);
    } else {
      ChunksConcat(keys[size..], size);
      var rest := Chunks(keys[size..], size);
      assert ([keys[..size]] + rest)[1..] == rest;
      assert keys == keys[..size] + keys[size..];
    }
  }

  /** The part of a sorted list behind one of its rows. */
  lemma SuffixIsBehind(order: Order, all: seq<Key>, i: nat, key: Key)
    requires StrictTotal(order) && Ascending(order, all) && i < |all|
    ensures key in all[i + 1..] <==> key in all && order(all[i], key)
  {
    if key in all && order(all[i], key) {
      var j :| 0 <= j < |all| && all[j] == key;
      assert i < j;
      assert all[i + 1..][j - i - 1] == key;
    }
  }

  /** Behind a row of the remaining ones come exactly those sorted after it. */
  lemma BehindIsSuffix(order: Order, rows: set<Key>, from: Option<Key>, i: nat)
    requires StrictTotal(order) && i < |Sorted(order, Behind(order, rows, from))|
    ensures var all := Sorted(order, Behind(order, rows, from));
            Sorted(order, Behind(order, rows, Some(all[i]))) == all[i + 1..]
  {
    var all := Sorted(order, Behind(order, rows, from));
    var behind := Behind(order, rows, Some(all[i]));
    SortedIsSorted(order, Behind(order, rows, from));
    SortedIsSorted(order, behind);
    assert all[i] in all;
    forall key ensures key in all[i + 1..] <==> key in behind {
      SuffixIsBehind(order, all, i, key);
    }
    assert IsSorted(order, all[i + 1..], behind);
    SortedIsUnique(order, all[i + 1..], Sorted(order, behind), behind);
  }

  lemma StartOfEncoded(query: Query, last: Key)
    requires Fits(query, last)
    ensures Start(query, Encode(query, last)) == if last.sort != Word("") then Ok(Some(last)) else Err(Validation)
  {
    CursorRoundTrip(query, last);
  }

  lemma RemainingBehind(order: Order, query: Query, rows: set<Key>, last: Key)
    requires Fits(query, last) && last.sort != Word("")
    ensures Remaining(order, query, rows, Encode(query, last)) == Behind(Directed(order, query), rows, Some(last))
  {
    StartOfEncoded(query, last);
  }

  lemma {:induction false} WalkFrom(order: Order, query: Query, limit: int, rows: set<Key>, cursor: Cursor)
    requires StrictTotal(order) && Start(query, cursor).Ok?
    requires forall key :: key in rows ==> Fits(query, key)
    ensures StrictTotal(Directed(order, query))
    ensures var keys := Sorted(Directed(order, query), Remaining(order, query, rows, cursor));
            Walk(order, query, limit, rows, cursor) ==
              if PageEndsNamed(keys, EffectiveLimit(limit)) then Ok(Chunks(keys, EffectiveLimit(limit)))
              else Err(Validation)
    decreases |Remaining(order, query, rows, cursor)|
  {
    DirectedIsTotal(order, query);
    var page := PageAt(order, query, limit, rows, cursor);
    if page.next.Record? {
      var keys := Sorted(Directed(order, query), Remaining(order, query, rows, cursor));
      SortedRowIn(Directed(order, query), Remaining(order, query, rows, cursor), EffectiveLimit(limit) - 1);
      StartOfEncoded(query, keys[EffectiveLimit(limit) - 1]);
      if Start(query, page.next).Ok? {
        NextHasFewer(order, query, limit, rows, cursor);
        RemainingBehind(order, query, rows, keys[EffectiveLimit(limit) - 1]);
        BehindIsSuffix(Directed(order, query), rows, Start(query, cursor).value, EffectiveLimit(limit) - 1);
        WalkFrom(order, query, limit, rows, page.next);
      }
    }
  }

  lemma WalkFromStart(order: Order, query: Query, limit: int, rows: set<Key>)
    requires StrictTotal(order)
    requires forall key :: key in rows ==> Fits(query, key)
    ensures StrictTotal(Directed(order, query))
    ensures var keys := Sorted(Directed(order, query), rows);
            Walk(order, query, limit, rows, NoCursor) ==
              if PageEndsNamed(keys, EffectiveLimit(limit)) then Ok(Chunks(keys, EffectiveLimit(limit)))
              else Err(Validation)
  {
    WalkFrom(order, query, limit, rows, NoCursor);
    assert Remaining(order, query, rows, NoCursor) == rows;
  }

  /**
   On a table that stays as it is, following the cursors gives every matching row
   once, in order, on pages that are full up to the last one, exactly if no page in
   between ends with a row whose sort value is the empty text.  Otherwise the walk
   stops with a validation error.
   */
  lemma WalkIsComplete(order: Order, query: Query, limit: int, rows: set<Key>)
    requires StrictTotal(order)
    requires forall key :: key in rows ==> Fits(query, key)
    ensures StrictTotal(Directed(order, query))
    ensures Walk(order, query, limit, rows, NoCursor).Ok? <==>
              PageEndsNamed(Sorted(Directed(order, query), rows), EffectiveLimit(limit))
    ensures Walk(order, query, limit, rows, NoCursor).Ok? ==>
              var pages := Walk(order, query, limit, rows, NoCursor).value;
              && Concat(pages) == Sorted(Directed(order, query), rows)
              && |pages| > 0
              && (forall k :: 0 <= k < |pages| - 1 ==> |pages[k]| == EffectiveLimit(limit))
              && |pages[|pages| - 1]| <= EffectiveLimit(limit)
              && (rows != {} ==> pages[|pages| - 1] != [])
  {
    WalkFromStart(order, query, limit, rows);
    var keys := Sorted(Directed(order, query), rows);
    ChunksConcat(keys, EffectiveLimit(limit));
    SortedHasRows(Directed(order, query), rows);
  }

  /** Columns without empty texts, such as names and timestamps, are always walked to the end. */
  lemma {:induction false} NamedRowsEndPages(keys: seq<Key>, size: nat)
    requires size > 0 && forall key :: key in keys ==> key.sort != Word("")
    ensures PageEndsNamed(keys, size)
  {
    if |keys| > size {
      NamedRowsEndPages(keys[size..], size);
    }
  }

  /** Anonymized invitations have the email '': sorted by email, two of them cannot be listed on pages of one. */
  lemma AnonymizedInvitationsBreakTheWalk(order: Order, query: Query, limit: int, a: nat, b: nat)
    requires StrictTotal(order) && a != b
    requires query.kind == Invitations && query.fingerprint.sort.ByText? && limit == 1
    ensures Walk(order, query, limit, {Key(Word(""), Uuid(a)), Key(Word(""), Uuid(b))}, NoCursor) == Err(Validation)
  {
    var rows := {Key(Word(""), Uuid(a)), Key(Word(""), Uuid(b))};
    WalkFromStart(order, query, limit, rows);
    var keys := Sorted(Directed(order, query), rows);
    SortedIsSorted(Directed(order, query), rows);
    assert Key(Word(""), Uuid(a)) in keys && Key(Word(""), Uuid(b)) in keys;
    assert keys[0] in rows;
  }

  // ----- the walk while the table changes

  function CursorAt(pages: seq<Page>, k: nat): Cursor
    requires k <= |pages|
  {
    if k == 0 then NoCursor else pages[k - 1].next
  }

  /**
   Request k runs on the rows tables[k], with any page size, and continues after
   request k - 1.  Between requests rows come and go freely.
   */
  ghost predicate Visits(order: Order, query: Query, tables: seq<set<Key>>, limits: seq<int>, pages: seq<Page>)
    requires StrictTotal(Directed(order, query))
  {
    && |tables| == |limits| == |pages| > 0
    && (forall k, key :: 0 <= k < |tables| && key in tables[k] ==> Fits(query, key))
    && forall k :: 0 <= k < |pages| ==> Visit(order, query, tables, limits, pages, k)
  }

  ghost predicate Visit(order: Order, query: Query, tables: seq<set<Key>>, limits: seq<int>, pages: seq<Page>, k: nat)
    requires StrictTotal(Directed(order, query))
    requires |tables| == |limits| == |pages| && k < |pages|
  {
    && (k > 0 ==> !CursorAt(pages, k).NoCursor?)
    && Start(query, CursorAt(pages, k)).Ok?
    && IsPage(order, query, limits[k], tables[k], CursorAt(pages, k), pages[k])
  }

  function Output(pages: seq<Page>): seq<Key> {
    if pages == [] then [] else Output(pages[..|pages| - 1]) + pages[|pages| - 1].items
  }

  predicate Throughout(tables: seq<set<Key>>, n: nat, key: Key)
    requires n <= |tables|
  {
    forall k :: 0 <= k < n ==> key in tables[k]
  }

  /** Everything was given out, or the row does not come behind the last one that was. */
  predicate Reached(order: Order, output: seq<Key>, next: Cursor, key: Key) {
    next == NoCursor || (output != [] && !order(output[|output| - 1], key))
  }

  predicate ContinuesAfter(query: Query, output: seq<Key>, next: Cursor) {
    next != NoCursor ==>
      output != [] && next == Encode(query, output[|output| - 1]) && Fits(query, output[|output| - 1])
  }

  /** After k > 0 requests: in order, and complete, as far as it goes, for the rows that stayed. */
  ghost predicate Progress(order: Order, query: Query, tables: seq<set<Key>>, pages: seq<Page>, k: nat)
    requires 0 < k <= |pages| == |tables|
  {
    var output := Output(pages[..k]);
    && Ascending(Directed(order, query), output)
    && ContinuesAfter(query, output, pages[k - 1].next)
    && forall key :: Throughout(tables, k, key) && Reached(Directed(order, query), output, pages[k - 1].next, key) ==>
          key in output
  }

  lemma OutputGrows(pages: seq<Page>, k: nat)
    requires k < |pages|
    ensures Output(pages[..k + 1]) == Output(pages[..k]) + pages[k].items
  {
    assert pages[..k + 1][..k] == pages[..k];
  }

  /** One page, read off its definition. */
  lemma PageFacts(order: Order, query: Query, limit: int, rows: set<Key>, cursor: Cursor, page: Page)
    requires StrictTotal(Directed(order, query)) && Start(query, cursor).Ok?
    requires IsPage(order, query, limit, rows, cursor, page)
    requires forall key :: key in rows ==> Fits(query, key)
    ensures Ascending(Directed(order, query), page.items)
    ensures forall key :: key in page.items ==> key in Remaining(order, query, rows, cursor)
    ensures ContinuesAfter(query, page.items, page.next)
    ensures forall key | key in Remaining(order, query, rows, cursor) ::
              Reached(Directed(order, query), page.items, page.next, key) ==> key in page.items
  {
    var all := Sorted(Directed(order, query), Remaining(order, query, rows, cursor));
    SortedIsSorted(Directed(order, query), Remaining(order, query, rows, cursor));
    assert forall key :: key in page.items ==> key in all;
    assert page.items != [] ==> page.items[|page.items| - 1] in all;
    forall key | key in all && Reached(Directed(order, query), page.items, page.next, key) ensures key in page.items {
      TakenWhenReached(Directed(order, query), all, EffectiveLimit(limit), key);
    }
  }

  /** Of a sorted list, the taken part holds every row that its last one has reached. */
  lemma TakenWhenReached(order: Order, all: seq<Key>, size: nat, key: Key)
    requires Ascending(order, all) && size > 0 && key in all
    requires |all| <= size || !order(all[size - 1], key)
    ensures key in Take(all, size)
  {
    var j :| 0 <= j < |all| && all[j] == key;
    assert j < |Take(all, size)| && Take(all, size)[j] == key;
  }

  /** Appending rows that come behind the last one so far. */
  lemma Appended(order: Order, output: seq<Key>, items: seq<Key>)
    requires StrictTotal(order) && Ascending(order, output) && Ascending(order, items)
    requires output != [] ==> forall key :: key in items ==> order(output[|output| - 1], key)
    ensures Ascending(order, output + items)
  {
    forall i, j | 0 <= i < j < |output + items| ensures order((output + items)[i], (output + items)[j]) {
      if i < |output| <= j {
        assert items[j - |output|] in items;
        assert order(output[|output| - 1], items[j - |output|]);
      }
    }
  }

  lemma FirstVisit(order: Order, query: Query, tables: seq<set<Key>>, limits: seq<int>, pages: seq<Page>)
    requires StrictTotal(Directed(order, query)) && Visits(order, query, tables, limits, pages)
    ensures Progress(order, query, tables, pages, 1)
  {
    assert Visit(order, query, tables, limits, pages, 0);
    PageFacts(order, query, limits[0], tables[0], NoCursor, pages[0]);
    OutputGrows(pages, 0);
    assert Output(pages[..1]) == pages[0].items;
    assert Remaining(order, query, tables[0], NoCursor) == tables[0];
  }

  lemma NextVisit(order: Order, query: Query, tables: seq<set<Key>>, limits: seq<int>, pages: seq<Page>, k: nat)
    requires StrictTotal(Directed(order, query)) && Visits(order, query, tables, limits, pages)
    requires 0 < k < |pages| && Progress(order, query, tables, pages, k)
    ensures Progress(order, query, tables, pages, k + 1)
  {
    assert Visit(order, query, tables, limits, pages, k);
    var before := Directed(order, query);
    var output, items, cursor := Output(pages[..k]), pages[k].items, CursorAt(pages, k);
    var last := output[|output| - 1];
    CursorRoundTrip(query, last);
    assert Remaining(order, query, tables[k], cursor) == Behind(before, tables[k], Some(last));
    OutputGrows(pages, k);
    PageFacts(order, query, limits[k], tables[k], cursor, pages[k]);
    Appended(before, output, items);
    Covered(before, tables[k], output, items, pages[k].next);
    forall key | Throughout(tables, k + 1, key) && Reached(before, output + items, pages[k].next, key)
      ensures key in output + items
    {
      assert key in tables[k] && Throughout(tables, k, key);
      assert !before(last, key) ==> Reached(before, output, cursor, key);
    }
    assert ContinuesAfter(query, output + items, pages[k].next);
  }

  /** A row behind the old output is on the new page as soon as the new output has reached it. */
  lemma Covered(order: Order, rows: set<Key>, output: seq<Key>, items: seq<Key>, next: Cursor)
    requires output != [] && (next != NoCursor ==> items != [])
    requires forall key | key in Behind(order, rows, Some(output[|output| - 1])) ::
               Reached(order, items, next, key) ==> key in items
    ensures forall key | key in rows && order(output[|output| - 1], key) ::
              Reached(order, output + items, next, key) ==> key in items
  {
  }

  lemma {:induction false} AllProgress(order: Order, query: Query, tables: seq<set<Key>>, limits: seq<int>,
          pages: seq<Page>, k: nat)
    requires StrictTotal(Directed(order, query)) && Visits(order, query, tables, limits, pages)
    requires 0 < k <= |pages|
    ensures Progress(order, query, tables, pages, k)
  {
    if k == 1 {
      FirstVisit(order, query, tables, limits, pages);
    } else {
      AllProgress(order, query, tables, limits, pages, k - 1);
      NextVisit(order, query, tables, limits, pages, k - 1);
    }
  }

  /**
   While rows are inserted and deleted between the requests, in either direction and
   with changing page sizes: the rows given out come strictly in order, so none
   twice, and a finished walk has given out every row that was there throughout.
   */
  lemma WalkUnderMutation(order: Order, query: Query, tables: seq<set<Key>>, limits: seq<int>, pages: seq<Page>)
    requires StrictTotal(order)
    requires StrictTotal(Directed(order, query)) && Visits(order, query, tables, limits, pages)
    ensures forall i, j :: 0 <= i < j < |Output(pages)| ==>
              Output(pages)[i] != Output(pages)[j]
              && if query.fingerprint.descending then order(Output(pages)[j], Output(pages)[i])
                 else order(Output(pages)[i], Output(pages)[j])
    ensures pages[|pages| - 1].next == NoCursor ==>
              forall key :: Throughout(tables, |tables|, key) ==> key in Output(pages)
  {
    AllProgress(order, query, tables, limits, pages, |pages|);
    assert pages[..|pages|] == pages;
    forall key | pages[|pages| - 1].next == NoCursor && Throughout(tables, |tables|, key) ensures key in Output(pages) {
      assert Reached(Directed(order, query), Output(pages), NoCursor, key);
    }
  }

  /** Every row given out matched the filter when its page was read. */
  lemma {:induction false} OutputWasThere(order: Order, query: Query, tables: seq<set<Key>>, limits: seq<int>,
          pages: seq<Page>, k: nat, key: Key)
    requires StrictTotal(Directed(order, query)) && Visits(order, query, tables, limits, pages)
    requires k <= |pages| && key in Output(pages[..k])
    ensures exists j :: 0 <= j < k && key in pages[j].items && key in tables[j]
  {
    if k > 0 {
      OutputGrows(pages, k - 1);
      if key in pages[k - 1].items {
        assert Visit(order, query, tables, limits, pages, k - 1);
        PageFacts(order, query, limits[k - 1], tables[k - 1], CursorAt(pages, k - 1), pages[k - 1]);
      } else {
        OutputWasThere(order, query, tables, limits, pages, k - 1, key);
      }
    }
  }
}
