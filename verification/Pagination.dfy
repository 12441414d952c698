/** The bookings list: 64-bit page arithmetic, and what the pages hold. */
module Pagination {
  import opened Prelude
  import opened Models
  import opened Tables
  import Ordering

  const TWO_63: int := 0x8000_0000_0000_0000
  const TWO_64: int := 0x1_0000_0000_0000_0000

  type int64 = x: int | -TWO_63 <= x < TWO_63
  type uint64 = x: int | 0 <= x < TWO_64

  /** Go's `uint64(x)`, and the result of unsigned arithmetic. */
  function ToUint64(x: int): uint64 {
    x % TWO_64
  }

  /** Go's `int(x)` on a 64-bit machine. */
  function ToInt64(x: uint64): int64 {
    if x < TWO_63 then x else x - TWO_64
  }

  datatype BookingList = BookingList(bookings: seq<BookingRow>, total: uint64)

  function CreatedKeys(bookings: map<Id, Booking>): map<Id, int> {
    map b | b in bookings :: bookings[b].createdAt
  }

  function BookingRows(bookings: map<Id, Booking>, ids: seq<Id>): (r: seq<BookingRow>)
    requires forall i :: 0 <= i < |ids| ==> ids[i] in bookings
    ensures |r| == |ids| && forall i :: 0 <= i < |r| ==> r[i] == BookingRow(ids[i], bookings[ids[i]])
  {
    seq(|ids|, i requires 0 <= i < |ids| => BookingRow(ids[i], bookings[ids[i]]))
  }

  /** The whole table by creation time, then id. */
  function Listed(bookings: map<Id, Booking>): seq<BookingRow> {
    BookingRows(bookings, Ordering.Sorted(CreatedKeys(bookings)))
  }

  function Min(a: int, b: int): int {
    if a < b then a else b
  }

  /** `LIMIT limit OFFSET offset`. */
  function Slice<T>(s: seq<T>, offset: nat, limit: nat): seq<T> {
    s[Min(offset, |s|)..Min(offset + limit, |s|)]
  }

  /** `GetList` over the listed table: PostgreSQL refuses an offset or limit above a bigint. */
  function GetList(table: seq<BookingRow>, limit: uint64, page: uint64): Result<BookingList, RepoError> {
    var offset := ToUint64(page * limit);
    if offset >= TWO_63 || limit >= TWO_63 then Err(Internal)
    else Ok(BookingList(Slice(table, offset, limit), ToUint64(|table|)))
  }

  /** One row more shows in a slice exactly when it is past the offset and within the limit. */
  lemma SliceSnoc<T>(s: seq<T>, x: T, offset: nat, limit: nat)
    ensures Slice(s + [x], offset, limit)
         == Slice(s, offset, limit) + (if offset <= |s| && |Slice(s, offset, limit)| < limit then [x] else [])
  {
  }

  lemma SliceNext<T>(s: seq<T>, i: nat, offset: nat, limit: nat)
    requires i < |s|
    ensures Slice(s[..i + 1], offset, limit)
         == Slice(s[..i], offset, limit) + (if offset <= i && |Slice(s[..i], offset, limit)| < limit then [s[i]] else [])
  {
    assert s[..i + 1] == s[..i] + [s[i]];
    SliceSnoc(s[..i], s[i], offset, limit);
  }

  datatype PageConfig = PageConfig(defaultPage: uint64, minPage: uint64, defaultSize: uint64, minSize: uint64, maxSize: uint64)

  /** `config.example.yaml`. */
  const DEPLOYED := PageConfig(1, 1, 20, 1, 100)

  datatype ListResponse =
    | InvalidPage
    | InvalidPageSize
    | ListFailed
    | Page(bookings: seq<BookingRow>, page: int64, pageSize: int64, total: int64)

  /** `GetBookingsList` for an administrator. */
  function ListResponseOf(cfg: PageConfig, table: seq<BookingRow>, page: Option<int64>, size: Option<int64>): ListResponse {
    var p := if page.Some? then ToUint64(page.value) else cfg.defaultPage;
    var s := if size.Some? then ToUint64(size.value) else cfg.defaultSize;
    if page.Some? && p < cfg.minPage then InvalidPage
    else if size.Some? && (s > cfg.maxSize || s < cfg.minSize) then InvalidPageSize
    else PageResponse(table, p, s)
  }

  /** The response once the page numbers passed the checks. */
  function PageResponse(table: seq<BookingRow>, p: uint64, s: uint64): ListResponse {
    match GetList(table, s, ToUint64(p - 1))
    case Err(_) => ListFailed
    case Ok(list) => Page(list.bookings, ToInt64(p), ToInt64(s), ToInt64(list.total))
  }

  /** The offset the database is asked for, in closed form: wrap-around of the subtraction is absorbed by that of the product. */
  lemma OffsetClosedForm(p: int, s: int)
    ensures ToUint64(ToUint64(ToUint64(p) - 1) * s) == ToUint64((p - 1) * s)
  {
    var a: int := ToUint64(p);
    var i := WrapCount(p);
    var j := WrapCount(a - 1);
    Distribute(p - 1, i + j, TWO_64, s);
    ModShift((p - 1) * s, (i + j) * s);
  }

  /** A wrapped value is a multiple of 2^64 away. */
  lemma WrapCount(x: int) returns (k: int)
    ensures ToUint64(x) == x + k * TWO_64
  {
    k := -(x / TWO_64);
  }

  lemma Distribute(x: int, k: int, m: int, s: int)
    ensures (x + k * m) * s == x * s + (k * s) * m
  {
    assert (x + k * m) * s == x * s + (k * m) * s;
    assert (k * m) * s == (k * s) * m;
  }

  lemma ModShift(x: int, k: int)
    ensures (x + k * TWO_64) % TWO_64 == x % TWO_64
  {
  }

  /** What the wrapped offset makes of a request with a valid page size. */
  lemma AnswerAt(table: seq<BookingRow>, p: int64, s: int64, offset: int)
    requires p != 0 && 1 <= s <= 100 && |table| < TWO_63 && offset == (p - 1) * s
    ensures ListResponseOf(DEPLOYED, table, Some(p), Some(s))
            == if ToUint64(offset) >= TWO_63 then ListFailed
               else Page(Slice(table, ToUint64(offset), s), p, s, |table|)
  {
    RefusedExactly(DEPLOYED, table, Some(p), Some(s));
    AnsweredExactly(DEPLOYED, table, Some(p), Some(s));
  }

  lemma SignedRoundTrip(x: int64)
    ensures ToInt64(ToUint64(x)) == x
    ensures x >= 0 ==> ToUint64(x) == x
    ensures x != 0 ==> ToUint64(x) >= 1
  {
  }

  /**
   For a page number from 1 and a valid page size, the answer is the requested page exactly when the
   wrapped offset fits a bigint and either did not wrap or still lies past the end of the table.
   */
  lemma PageAnswerExact(table: seq<BookingRow>, p: int64, s: int64)
    requires p >= 1 && 1 <= s <= 100 && |table| < TWO_63
    ensures var offset := (p - 1) * s;
      var wrapped := ToUint64(offset);
      ListResponseOf(DEPLOYED, table, Some(p), Some(s)) == Page(Slice(table, offset, s), p, s, |table|)
      <==> wrapped < TWO_63 && (wrapped == offset || |table| <= wrapped)
  {
    var offset := (p - 1) * s;
    assert 0 <= offset;
    AnswerAt(table, p, s, offset);
    if ToUint64(offset) != offset {
      WrappedOffset(offset);
      SlicesApart(table, ToUint64(offset), offset, s);
    }
  }

  lemma WrappedOffset(offset: nat)
    requires ToUint64(offset) != offset
    ensures offset >= TWO_64
  {
  }

  /** Past the end a slice is empty; before it, it is not. */
  lemma SlicesApart<T>(t: seq<T>, a: nat, b: nat, size: nat)
    requires size >= 1 && b >= |t|
    ensures Slice(t, a, size) == Slice(t, b, size) <==> |t| <= a
  {
    assert |Slice(t, b, size)| == 0;
    if a < |t| {
      assert |Slice(t, a, size)| > 0;
    } else {
      assert |Slice(t, a, size)| == 0;
    }
  }

  /** Up to page 2^56 nothing wraps: every such request gets its page. */
  lemma PagesWithinBound(table: seq<BookingRow>, p: int64, s: int64)
    requires 1 <= p <= 0x100_0000_0000_0000 && 1 <= s <= 100 && |table| < TWO_63
    ensures (p - 1) * s < TWO_63
    ensures ListResponseOf(DEPLOYED, table, Some(p), Some(s)) == Page(Slice(table, (p - 1) * s, s), p, s, |table|)
  {
    var offset := (p - 1) * s;
    SmallProduct(p - 1, s);
    NothingWraps(offset);
    AnswerAt(table, p, s, offset);
  }

  lemma NothingWraps(x: int)
    requires 0 <= x < TWO_63
    ensures ToUint64(x) == x
  {
  }

  lemma SmallProduct(q: int, s: int)
    requires 0 <= q && 1 <= s <= 100
    ensures 0 <= q * s <= q * 100
  {
    assert q * (100 - s) >= 0;
    assert q * 100 == q * s + q * (100 - s);
  }

  /** Page numbers that fit Go's `int`. */
  predicate Signed(cfg: PageConfig) {
    && cfg.defaultPage < TWO_63 && cfg.minPage < TWO_63
    && cfg.defaultSize < TWO_63 && cfg.minSize < TWO_63 && cfg.maxSize < TWO_63
  }

  /**
   Under any such configuration a given page is refused exactly from 0 up to the smallest page, so never a
   negative one; a given size is refused exactly outside its two bounds. A missing parameter is never refused.
   */
  lemma RefusedExactly(cfg: PageConfig, table: seq<BookingRow>, page: Option<int64>, size: Option<int64>)
    requires Signed(cfg)
    ensures var r := ListResponseOf(cfg, table, page, size);
      && (r == InvalidPage <==> page.Some? && 0 <= page.value < cfg.minPage)
      && (r == InvalidPageSize <==> r != InvalidPage && size.Some? && !(cfg.minSize <= size.value <= cfg.maxSize))
  {
    if page.Some? {
      SignedAbove(page.value, cfg.minPage);
    }
    if size.Some? {
      SignedAbove(size.value, cfg.minSize);
      SignedAbove(size.value, cfg.maxSize + 1);
    }
  }

  lemma SignedAbove(x: int64, bound: int)
    requires 0 <= bound <= TWO_63
    ensures ToUint64(x) < bound <==> 0 <= x < bound
  {
  }

  /**
   Any request that is not refused: a missing page is the default page and a missing size the default size,
   the answer holds the slice at (page - 1) times size modulo 2^64, and it fails exactly when that
   offset is above a bigint.
   */
  lemma AnsweredExactly(cfg: PageConfig, table: seq<BookingRow>, page: Option<int64>, size: Option<int64>)
    requires Signed(cfg) && |table| < TWO_63
    requires ListResponseOf(cfg, table, page, size) !in {InvalidPage, InvalidPageSize}
    ensures var p := if page.Some? then page.value else cfg.defaultPage;
      var s := if size.Some? then size.value else cfg.defaultSize;
      var offset := (p - 1) * s % 0x1_0000_0000_0000_0000;
      ListResponseOf(cfg, table, page, size)
      == if offset >= 0x8000_0000_0000_0000 then ListFailed else Page(Slice(table, offset, s), p, s, |table|)
  {
    var p: int64 := if page.Some? then page.value else cfg.defaultPage;
    var s: int64 := if size.Some? then size.value else cfg.defaultSize;
    RefusedExactly(cfg, table, page, size);
    SignedRoundTrip(p);
    SignedRoundTrip(s);
    assert ListResponseOf(cfg, table, page, size) == PageResponse(table, ToUint64(p), s);
    PageResponseAt(table, p, s);
  }

  lemma PageResponseAt(table: seq<BookingRow>, p: int64, s: int64)
    requires 0 <= s && |table| < TWO_63
    ensures PageResponse(table, ToUint64(p), s)
         == if ToUint64((p - 1) * s) >= TWO_63 then ListFailed else Page(Slice(table, ToUint64((p - 1) * s), s), p, s, |table|)
  {
    OffsetClosedForm(p, s);
    SignedRoundTrip(p);
    SignedRoundTrip(s);
    SignedRoundTrip(|table|);
  }

  /** A request is refused as an invalid page only for page 0: negative pages pass the check. */
  lemma OnlyPageZeroIsInvalid(table: seq<BookingRow>, p: int64, size: Option<int64>)
    ensures ListResponseOf(DEPLOYED, table, Some(p), size) == InvalidPage <==> p == 0
  {
  }

  /** Page -1 with a valid size is not refused as invalid; it fails inside the database. */
  lemma PageMinusOneFails(table: seq<BookingRow>, s: int64)
    requires 1 <= s <= 100 && |table| < TWO_63
    ensures ListResponseOf(DEPLOYED, table, Some(-1), Some(s)) == ListFailed
  {
    AnswerAt(table, -1, s, -2 * s);
    ModShift(TWO_64 - 2 * s, -1);
  }

  /** A page size is refused exactly when it is given, as a signed number, outside 1 to 100, and the page is not 0. */
  lemma SizeRefusedExactly(table: seq<BookingRow>, page: Option<int64>, size: Option<int64>)
    ensures ListResponseOf(DEPLOYED, table, page, size) == InvalidPageSize
            <==> page != Some(0) && size.Some? && !(1 <= size.value <= 100)
  {
    RefusedExactly(DEPLOYED, table, page, size);
  }

  /** Without parameters the answer is the first twenty rows, as page 1 of size 20. */
  lemma DefaultPage(table: seq<BookingRow>)
    requires |table| < TWO_63
    ensures ListResponseOf(DEPLOYED, table, None, None) == Page(table[..if |table| < 20 then |table| else 20], 1, 20, |table|)
  {
    MissingParameters(table, None, None);
    PagesWithinBound(table, 1, 20);
  }

  /** A missing page means page 1 and a missing size means 20, whatever the other parameter. */
  lemma MissingParameters(table: seq<BookingRow>, page: Option<int64>, size: Option<int64>)
    ensures ListResponseOf(DEPLOYED, table, None, size) == ListResponseOf(DEPLOYED, table, Some(1), size)
    ensures ListResponseOf(DEPLOYED, table, page, None) == ListResponseOf(DEPLOYED, table, page, Some(20))
  {
  }

  /** An answered page echoes the page and size asked for, holds at most that many rows, so never more than a hundred, and counts the table. */
  lemma PageBounds(table: seq<BookingRow>, page: Option<int64>, size: Option<int64>)
    requires |table| < TWO_63
    ensures var r := ListResponseOf(DEPLOYED, table, page, size);
      r.Page? ==>
        && r.page == (if page.Some? then page.value else 1) && r.pageSize == (if size.Some? then size.value else 20)
        && |r.bookings| <= r.pageSize <= 100 && r.total == |table|
  {
    var p: int64, s: int64 := if page.Some? then page.value else 1, if size.Some? then size.value else 20;
    MissingParameters(table, page, size);
    MissingParameters(table, Some(p), size);
    MissingParameters(table, page, Some(s));
    assert ListResponseOf(DEPLOYED, table, page, size) == ListResponseOf(DEPLOYED, table, Some(p), Some(s));
    OnlyPageZeroIsInvalid(table, p, Some(s));
    SizeRefusedExactly(table, Some(p), Some(s));
    if p != 0 && 1 <= s <= 100 {
      AnswerAt(table, p, s, (p - 1) * s);
    }
  }

  /** Past the bound a page can come round again: page 2^62 + 1 of size 4 is answered with the first four rows. */
  lemma WrappedPage(table: seq<BookingRow>)
    requires |table| < TWO_63
    ensures ListResponseOf(DEPLOYED, table, Some(4_611_686_018_427_387_905), Some(4))
         == Page(table[..if |table| < 4 then |table| else 4], 4_611_686_018_427_387_905, 4, |table|)
  {
    AnswerAt(table, 4_611_686_018_427_387_905, 4, 18_446_744_073_709_551_616);
  }

  // ---- What the pages hold ----

  lemma ListedLength(bookings: map<Id, Booking>)
    ensures |Listed(bookings)| == |bookings|
  {
    var keys := CreatedKeys(bookings);
    assert keys.Keys == bookings.Keys;
    Ordering.SortedLength(keys);
  }

  /** The listing holds each row of the table once, by creation time and then id. */
  lemma ListedExact(bookings: map<Id, Booking>)
    ensures var r := Listed(bookings);
      && |r| == |bookings|
      && (forall i :: 0 <= i < |r| ==> r[i].id in bookings && r[i].booking == bookings[r[i].id])
      && (forall b :: b in bookings ==> BookingRow(b, bookings[b]) in r)
      && (forall i, j :: 0 <= i < j < |r| ==>
            r[i].booking.createdAt < r[j].booking.createdAt
            || (r[i].booking.createdAt == r[j].booking.createdAt && r[i].id < r[j].id))
  {
    var keys := CreatedKeys(bookings);
    var ids, r := Ordering.Sorted(keys), Listed(bookings);
    ListedLength(bookings);
    forall i, j | 0 <= i < j < |r|
      ensures r[i].booking.createdAt < r[j].booking.createdAt
              || (r[i].booking.createdAt == r[j].booking.createdAt && r[i].id < r[j].id)
    {
      assert Ordering.Less(keys, ids[i], ids[j]);
    }
    forall b | b in bookings ensures BookingRow(b, bookings[b]) in r {
      assert b in keys;
      var k :| 0 <= k < |ids| && ids[k] == b;
      assert r[k] == BookingRow(b, bookings[b]);
    }
  }

  /** The pages 1 to `n`, one after another. */
  function FirstPages<T>(s: seq<T>, size: nat, n: nat): seq<T> {
    if n == 0 then [] else FirstPages(s, size, n - 1) + Slice(s, (n - 1) * size, size)
  }

  /** The pages partition the listing: the first `n` pages are its first `n * size` rows. */
  lemma {:induction false} PagesPartition<T>(s: seq<T>, size: nat, n: nat)
    ensures FirstPages(s, size, n) == s[..Min(n * size, |s|)]
  {
    if n == 0 {
      assert s[..0] == [];
    } else {
      PagesPartition(s, size, n - 1);
      var a, b := Min((n - 1) * size, |s|), Min(n * size, |s|);
      assert n * size == (n - 1) * size + size;
      assert s[..a] + s[a..b] == s[..b];
    }
  }

  /** Enough pages give the whole table, each row once. */
  lemma AllPages(bookings: map<Id, Booking>, size: nat, n: nat)
    requires n * size >= |bookings|
    ensures FirstPages(Listed(bookings), size, n) == Listed(bookings)
  {
    ListedLength(bookings);
    PagesPartition(Listed(bookings), size, n);
  }

  function RowIds(rows: seq<BookingRow>): seq<Id> {
    seq(|rows|, i requires 0 <= i < |rows| => rows[i].id)
  }

  /** How many rows sort before a new one. */
  function RowsBefore(bookings: map<Id, Booking>, id: Id, b: Booking): nat {
    |Ordering.Before(CreatedKeys(bookings), id, b.createdAt)|
  }

  /** A new row joins the listing after the rows that sort before it. */
  lemma NewRowListed(bookings: map<Id, Booking>, id: Id, b: Booking)
    requires id !in bookings
    ensures var p := RowsBefore(bookings, id, b);
      && p <= |Listed(bookings)|
      && Listed(bookings[id := b]) == Listed(bookings)[..p] + [BookingRow(id, b)] + Listed(bookings)[p..]
  {
    var keys, p := CreatedKeys(bookings), RowsBefore(bookings, id, b);
    assert CreatedKeys(bookings[id := b]) == keys[id := b.createdAt];
    Ordering.SortedInsert(keys, id, b.createdAt);
    RowsOfInsert(bookings, id, b, Ordering.Sorted(keys), p);
  }

  lemma RowsOfInsert(bookings: map<Id, Booking>, id: Id, b: Booking, ids: seq<Id>, p: nat)
    requires id !in bookings && p <= |ids| && forall i :: 0 <= i < |ids| ==> ids[i] in bookings
    ensures forall i :: 0 <= i < |ids| + 1 ==> Ordering.Inserted(ids, id, p)[i] in bookings[id := b]
    ensures BookingRows(bookings[id := b], Ordering.Inserted(ids, id, p))
         == BookingRows(bookings, ids)[..p] + [BookingRow(id, b)] + BookingRows(bookings, ids)[p..]
  {
  }

  /** Inserting a new element at `p` leaves a slice as it was exactly when the slice ends by `p` or lies past the end. */
  lemma SliceAfterInsert<T>(s: seq<T>, x: T, p: nat, offset: nat, size: nat)
    requires p <= |s| && size >= 1 && x !in s && forall i, j :: 0 <= i < j < |s| ==> s[i] != s[j]
    ensures Slice(s[..p] + [x] + s[p..], offset, size) == Slice(s, offset, size) <==> offset + size <= p || offset > |s|
  {
    var t := s[..p] + [x] + s[p..];
    if offset + size > p && offset <= |s| {
      var k := if offset <= p then p else offset;
      SliceAt(t, offset, size, k);
      if k < |s| {
        SliceAt(s, offset, size, k);
        assert t[k] == if k == p then x else s[k - 1];
      } else {
        assert |Slice(s, offset, size)| == k - offset;
      }
    } else if offset <= |s| {
      SliceSame(s, t, offset, size);
    }
  }

  lemma SliceSame<T>(s: seq<T>, t: seq<T>, offset: nat, size: nat)
    requires offset + size <= |s| && offset + size <= |t| && forall i :: offset <= i < offset + size ==> s[i] == t[i]
    ensures Slice(s, offset, size) == Slice(t, offset, size)
  {
  }

  lemma SliceAt<T>(s: seq<T>, offset: nat, size: nat, k: nat)
    requires offset <= k < offset + size && k < |s|
    ensures k - offset < |Slice(s, offset, size)| && Slice(s, offset, size)[k - offset] == s[k]
  {
  }

  lemma ListedDistinct(bookings: map<Id, Booking>, id: Id, b: Booking)
    requires id !in bookings
    ensures |Listed(bookings)| == |bookings| && BookingRow(id, b) !in Listed(bookings)
    ensures forall i, j :: 0 <= i < j < |bookings| ==> Listed(bookings)[i] != Listed(bookings)[j]
  {
    ListedExact(bookings);
  }

  /**
   A new booking leaves a page as it was if and only if at least `offset + size` rows sort before it, or
   the page lies past the end: a row committed late but stamped early moves every page after it.
   */
  lemma PageUnchangedExactly(bookings: map<Id, Booking>, id: Id, b: Booking, offset: nat, size: nat)
    requires id !in bookings && size >= 1
    ensures Slice(Listed(bookings[id := b]), offset, size) == Slice(Listed(bookings), offset, size)
            <==> offset + size <= RowsBefore(bookings, id, b) || offset > |bookings|
  {
    NewRowListed(bookings, id, b);
    ListedDistinct(bookings, id, b);
    SliceAfterInsert(Listed(bookings), BookingRow(id, b), RowsBefore(bookings, id, b), offset, size);
  }

  /** A booking stamped later than all others changes no full page. */
  lemma LaterRowKeepsFullPages(bookings: map<Id, Booking>, id: Id, b: Booking, offset: nat, size: nat)
    requires id !in bookings && forall x :: x in bookings ==> bookings[x].createdAt < b.createdAt
    requires offset + size <= |bookings|
    ensures Slice(Listed(bookings[id := b]), offset, size) == Slice(Listed(bookings), offset, size)
  {
    var keys := CreatedKeys(bookings);
    assert Ordering.Before(keys, id, b.createdAt) == keys.Keys == bookings.Keys;
    if size > 0 {
      PageUnchangedExactly(bookings, id, b, offset, size);
    }
  }

  /** A cancellation moves no row: every page keeps its rows, in order. */
  lemma CancelKeepsPages(db: Db, id: Id, offset: nat, size: nat)
    ensures var after := CancelBooking(db, id).bookings;
      RowIds(Slice(Listed(after), offset, size)) == RowIds(Slice(Listed(db.bookings), offset, size))
  {
    var after := CancelBooking(db, id).bookings;
    assert CreatedKeys(after) == CreatedKeys(db.bookings);
    SameIdsSameSlices(Listed(db.bookings), Listed(after), offset, size);
  }

  lemma SameIdsSameSlices(r: seq<BookingRow>, t: seq<BookingRow>, offset: nat, size: nat)
    requires |r| == |t| && forall i :: 0 <= i < |r| ==> r[i].id == t[i].id
    ensures RowIds(Slice(r, offset, size)) == RowIds(Slice(t, offset, size))
  {
  }
}
