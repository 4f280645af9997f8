/** The booking queries of `BookingRepository`, each a selection over the
    bookings table (a sequence in insertion order). Paged queries sort by
    start, latest first, before cutting the page. */
module BookingRepository {
  import opened Wrappers
  import opened Domain
  import opened Sequences
  import opened Paging

  /** The sort key of every booking query: the start instant. */
  function Start(b: Booking): int { b.start }

  /** The table's own order: bookings are stored in increasing id order. */
  function BookingId(b: Booking): int { b.id }

  /** The time condition of `findBookingsAtSameTime` for an existing window
      `[bStart, bEnd]` and a requested window `[start, end]`: the existing
      start lies in the request, or the existing end does, or the existing
      window covers the request. `between` includes both bounds. */
  predicate AtSameTime(bStart: int, bEnd: int, start: int, end: int)
  {
    || (start <= bStart <= end)
    || (start <= bEnd <= end)
    || (bStart <= start && bEnd >= end)
  }

  /** `findBookingsAtSameTime`: the bookings of `itemId` with `status` whose
      window meets `[start, end]`. */
  function FindBookingsAtSameTime(bs: seq<Booking>, itemId: int, status: Status,
                                  start: int, end: int): (r: seq<Booking>)
    ensures forall b :: b in r <==>
      b in bs && b.item.id == itemId && b.status == Some(status) && AtSameTime(b.start, b.end, start, end)
    ensures StrictlyIncreasing(bs, BookingId) ==> StrictlyIncreasing(r, BookingId)
  {
    var p := (b: Booking) => b.item.id == itemId && b.status == Some(status) && AtSameTime(b.start, b.end, start, end);
    SelectKeepsOrder(bs, p, BookingId);
    Select(bs, p)
  }

  /** For well-formed windows the condition is exactly the intersection of
      two closed intervals. */
  lemma AtSameTimeIsIntersection(bStart: int, bEnd: int, start: int, end: int)
    requires bStart <= bEnd && start <= end
    ensures AtSameTime(bStart, bEnd, start, end) <==> bStart <= end && start <= bEnd
  {
  }

  /** Hence the condition does not depend on which window is the existing one. */
  lemma AtSameTimeSymmetric(s1: int, e1: int, s2: int, e2: int)
    requires s1 <= e1 && s2 <= e2
    ensures AtSameTime(s1, e1, s2, e2) == AtSameTime(s2, e2, s1, e1)
  {
    AtSameTimeIsIntersection(s1, e1, s2, e2);
    AtSameTimeIsIntersection(s2, e2, s1, e1);
  }

  /** Bounds are inclusive: a window starting at the instant another ends conflicts with it. */
  lemma TouchingWindowsConflict(bStart: int, bEnd: int, end: int)
    requires bStart <= bEnd <= end
    ensures AtSameTime(bStart, bEnd, bEnd, end)
  {
  }

  /** A booking of another status never blocks, whatever its window. */
  lemma OtherStatusNeverConflicts(bs: seq<Booking>, b: Booking, itemId: int, status: Status,
                                  start: int, end: int)
    requires b.status != Some(status)
    ensures b !in FindBookingsAtSameTime(bs, itemId, status, start, end)
  {
  }

  /** An illustration of the lemmas above on a one-row table: with one
      approved booking, a request starting five instants after it ends
      finds nothing, and a request starting inside it finds exactly that
      booking. */
  lemma {:induction false} SameTimeScenario(b: Booking)
    requires b.status == Some(Approved) && b.start + 5 <= b.end
    ensures FindBookingsAtSameTime([b], b.item.id, Approved, b.end + 5, b.end + 25) == []
    ensures FindBookingsAtSameTime([b], b.item.id, Approved, b.start + 5, b.end + 25) == [b]
  {
    var r := FindBookingsAtSameTime([b], b.item.id, Approved, b.end + 5, b.end + 25);
    assert b !in r;
    assert forall x :: x in r ==> x == b;
    var q := FindBookingsAtSameTime([b], b.item.id, Approved, b.start + 5, b.end + 25);
    assert b in q;
    assert |q| <= 1;
  }

  /** `findAllByBooker_Id`. */
  function FindAllByBookerId(bs: seq<Booking>, bookerId: int): (r: seq<Booking>)
    ensures forall b :: b in r <==> b in bs && b.booker.id == bookerId
    ensures StrictlyIncreasing(bs, BookingId) ==> StrictlyIncreasing(r, BookingId)
  {
    var p := (b: Booking) => b.booker.id == bookerId;
    SelectKeepsOrder(bs, p, BookingId);
    Select(bs, p)
  }

  /** `findByBookerIdAndItemIdAndStatusAndStartIsBefore`: the four conditions together. */
  function FindByBookerIdAndItemIdAndStatusAndStartIsBefore(bs: seq<Booking>, userId: int, itemId: int,
                                                            status: Status, now: int): (r: seq<Booking>)
    ensures forall b :: b in r <==>
      b in bs && b.booker.id == userId && b.item.id == itemId && b.status == Some(status) && b.start < now
    ensures StrictlyIncreasing(bs, BookingId) ==> StrictlyIncreasing(r, BookingId)
  {
    var p := (b: Booking) => b.booker.id == userId && b.item.id == itemId && b.status == Some(status) && b.start < now;
    SelectKeepsOrder(bs, p, BookingId);
    Select(bs, p)
  }

  /** `findAllByBooker_IdAndStatus`. */
  function FindAllByBookerIdAndStatus(bs: seq<Booking>, bookerId: int, status: Status): (r: seq<Booking>)
    ensures forall b :: b in r <==> b in bs && b.booker.id == bookerId && b.status == Some(status)
    ensures StrictlyIncreasing(bs, BookingId) ==> StrictlyIncreasing(r, BookingId)
  {
    var p := (b: Booking) => b.booker.id == bookerId && b.status == Some(status);
    SelectKeepsOrder(bs, p, BookingId);
    Select(bs, p)
  }

  /** `findAllByItemOwner`: the bookings whose item's owner has id `ownerId`. */
  function FindAllByItemOwner(bs: seq<Booking>, ownerId: int): (r: seq<Booking>)
    ensures forall b :: b in r <==> b in bs && b.item.owner.id == ownerId
    ensures StrictlyIncreasing(bs, BookingId) ==> StrictlyIncreasing(r, BookingId)
  {
    var p := (b: Booking) => b.item.owner.id == ownerId;
    SelectKeepsOrder(bs, p, BookingId);
    Select(bs, p)
  }

  /** An owner with no items under booking gets an empty result. */
  lemma UnknownOwnerHasNoBookings(bs: seq<Booking>, ownerId: int)
    requires forall b :: b in bs ==> b.item.owner.id != ownerId
    ensures FindAllByItemOwner(bs, ownerId) == []
  {
    SelectNone(bs, (b: Booking) => b.item.owner.id == ownerId);
  }

  /** `findAllByItemOwnerAndStatus`. */
  function FindAllByItemOwnerAndStatus(bs: seq<Booking>, ownerId: int, status: Status): (r: seq<Booking>)
    ensures forall b :: b in r <==> b in bs && b.item.owner.id == ownerId && b.status == Some(status)
    ensures StrictlyIncreasing(bs, BookingId) ==> StrictlyIncreasing(r, BookingId)
  {
    var p := (b: Booking) => b.item.owner.id == ownerId && b.status == Some(status);
    SelectKeepsOrder(bs, p, BookingId);
    Select(bs, p)
  }

  /** `findAllByItem_IdAndStatusOrderByStartDesc`: the item's bookings with
      either status, latest start first. */
  function FindAllByItemIdAndStatusOrderByStartDesc(bs: seq<Booking>, itemId: int,
                                                    status1: Status, status2: Status): (r: seq<Booking>)
    ensures forall b :: b in r <==>
      b in bs && b.item.id == itemId && (b.status == Some(status1) || b.status == Some(status2))
    ensures NonIncreasing(r, Start)
  {
    var rows := Select(bs, (b: Booking) => b.item.id == itemId && (b.status == Some(status1) || b.status == Some(status2)));
    var r := SortDesc(rows, Start);
    assert forall b :: b in r <==> b in rows by {
      forall b ensures b in r <==> b in rows {
        assert b in r <==> b in multiset(r);
        assert b in rows <==> b in multiset(rows);
      }
    }
    r
  }

  /** `findAllByBooker_IdAndEndBefore`: ended before `now`. */
  function FindAllByBookerIdAndEndBefore(bs: seq<Booking>, userId: int, now: int): (r: seq<Booking>)
    ensures forall b :: b in r <==> b in bs && b.booker.id == userId && b.end < now
    ensures StrictlyIncreasing(bs, BookingId) ==> StrictlyIncreasing(r, BookingId)
  {
    var p := (b: Booking) => b.booker.id == userId && b.end < now;
    SelectKeepsOrder(bs, p, BookingId);
    Select(bs, p)
  }

  /** `findAllByBooker_IdAndStartAfter`: starting after `now`. */
  function FindAllByBookerIdAndStartAfter(bs: seq<Booking>, userId: int, now: int): (r: seq<Booking>)
    ensures forall b :: b in r <==> b in bs && b.booker.id == userId && b.start > now
    ensures StrictlyIncreasing(bs, BookingId) ==> StrictlyIncreasing(r, BookingId)
  {
    var p := (b: Booking) => b.booker.id == userId && b.start > now;
    SelectKeepsOrder(bs, p, BookingId);
    Select(bs, p)
  }

  /** `findByBookerIdAndStartIsBeforeAndEndIsAfter`: started before `now`
      and ending after `now1`. */
  function FindByBookerIdAndStartIsBeforeAndEndIsAfter(bs: seq<Booking>, userId: int,
                                                       now: int, now1: int): (r: seq<Booking>)
    ensures forall b :: b in r <==> b in bs && b.booker.id == userId && b.start < now && b.end > now1
    ensures StrictlyIncreasing(bs, BookingId) ==> StrictlyIncreasing(r, BookingId)
  {
    var p := (b: Booking) => b.booker.id == userId && b.start < now && b.end > now1;
    SelectKeepsOrder(bs, p, BookingId);
    Select(bs, p)
  }

  /** `findByItemOwnerIdAndEndIsBefore`. */
  function FindByItemOwnerIdAndEndIsBefore(bs: seq<Booking>, ownerId: int, now: int): (r: seq<Booking>)
    ensures forall b :: b in r <==> b in bs && b.item.owner.id == ownerId && b.end < now
    ensures StrictlyIncreasing(bs, BookingId) ==> StrictlyIncreasing(r, BookingId)
  {
    var p := (b: Booking) => b.item.owner.id == ownerId && b.end < now;
    SelectKeepsOrder(bs, p, BookingId);
    Select(bs, p)
  }

  /** `findByItemOwnerIdAndStartIsAfter`. */
  function FindByItemOwnerIdAndStartIsAfter(bs: seq<Booking>, ownerId: int, now: int): (r: seq<Booking>)
    ensures forall b :: b in r <==> b in bs && b.item.owner.id == ownerId && b.start > now
    ensures StrictlyIncreasing(bs, BookingId) ==> StrictlyIncreasing(r, BookingId)
  {
    var p := (b: Booking) => b.item.owner.id == ownerId && b.start > now;
    SelectKeepsOrder(bs, p, BookingId);
    Select(bs, p)
  }

  /** `findByItemOwnerIdAndStartIsBeforeAndEndIsAfter`. */
  function FindByItemOwnerIdAndStartIsBeforeAndEndIsAfter(bs: seq<Booking>, ownerId: int,
                                                          now: int, now1: int): (r: seq<Booking>)
    ensures forall b :: b in r <==> b in bs && b.item.owner.id == ownerId && b.start < now && b.end > now1
    ensures StrictlyIncreasing(bs, BookingId) ==> StrictlyIncreasing(r, BookingId)
  {
    var p := (b: Booking) => b.item.owner.id == ownerId && b.start < now && b.end > now1;
    SelectKeepsOrder(bs, p, BookingId);
    Select(bs, p)
  }

  /** A `Page<Booking>` query with `Sort.by(DESC, "start")`: the rows in
      start-descending order, then the requested page of them. */
  function Paged(rows: seq<Booking>, p: PageRequest): (r: seq<Booking>)
    ensures IsPage(r, SortDesc(rows, Start), p)
    ensures NonIncreasing(r, Start)
    ensures |r| <= p.size
    ensures forall b :: b in r ==> b in rows
  {
    var sorted := SortDesc(rows, Start);
    PageOfOrdered(sorted, p, Start);
    forall b | b in PageOf(sorted, p) ensures b in rows {
      assert b in multiset(sorted);
    }
    PageOf(sorted, p)
  }
}
