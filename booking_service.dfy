/** `BookingServiceImpl`: creating a booking behind an ordered chain of
    guards, the owner's approve/reject decision, reading one booking, and
    listing a booker's or an owner's bookings by state, page by page. */
module BookingService {
  import opened Wrappers
  import opened Domain
  import opened Text
  import opened Sequences
  import opened Paging
  import opened BookingRepository
  import opened BookingMapper
  import opened Database

  // ---------------------------------------------------------------- messages

  function UserNotFound(userId: int): Error
  {
    ObjectNotFound("Пользователь с id " + IntToString(userId) + " не найден")
  }

  function ItemNotFound(itemId: int): Error
  {
    ObjectNotFound("Вещь с id " + IntToString(itemId) + " не найдена")
  }

  function BookingNotFound(bookingId: int): Error
  {
    ObjectNotFound("Бронирование с id " + IntToString(bookingId) + " не найдено")
  }

  function NotOwner(userId: int, itemId: int): Error
  {
    ObjectNotFound("У пользователя с id " + IntToString(userId) + " нет вещи с id " + IntToString(itemId))
  }

  function OwnItemDenied(itemId: int): Error
  {
    BookingAccessDeniedForOwner("Вещь с id " + IntToString(itemId) + "  недоступна для бронирования для владельца")
  }

  function ItemUnavailable(itemId: int): Error
  {
    BookingAccessDenied("Вещь с id " + IntToString(itemId) + "  недоступна для бронирования")
  }

  const WindowTaken := ValidException("Время для аренды недоступно")
  const EmptyWindow := StartTimeAndEndTime("Время начала не может совпадать с концом!")
  const StartInPast := StartTimeAndEndTime("Время начала не может быть в прошлом!")
  const EndInPast := StartTimeAndEndTime("Время конца не может быть в прошлом!")
  const StartAfterEnd := StartTimeAndEndTime("Время начала не может быть позже конца!")

  /** What `findById(null)` throws: the repository library's own message. */
  const NullId := IllegalArgument("The given id must not be null!")

  // ------------------------------------------------------------ lookups

  /** `checkUser`. */
  function CheckUser(db: Database, userId: int): (r: Result<User, Error>)
    reads db
    ensures r.Ok? <==> userId in db.users
    ensures r.Ok? ==> r.value == db.users[userId]
    ensures r.Err? ==> r.error == UserNotFound(userId)
  {
    if userId in db.users then Ok(db.users[userId]) else Err(UserNotFound(userId))
  }

  /** `checkItem`. */
  function CheckItem(db: Database, itemId: int): (r: Result<Item, Error>)
    reads db
    ensures r.Ok? <==> FindItem(db.ItemEntities(), itemId).Some?
    ensures r.Ok? ==> r.value == FindItem(db.ItemEntities(), itemId).value && r.value.id == itemId
    ensures r.Err? ==> r.error == ItemNotFound(itemId)
  {
    match FindItem(db.ItemEntities(), itemId)
    case Some(item) => Ok(item)
    case None => Err(ItemNotFound(itemId))
  }

  /** `checkBooking`: the position of the booking in the table. */
  function CheckBooking(db: Database, bookingId: int): (r: Result<nat, Error>)
    reads db
    ensures r.Ok? <==> LookupBooking(db.bookings, bookingId).Some?
    ensures r.Ok? ==> r.value < |db.bookings| && db.bookings[r.value].id == bookingId
    ensures r.Err? ==> r.error == BookingNotFound(bookingId)
  {
    match LookupBooking(db.bookings, bookingId)
    case Some(k) => Ok(k)
    case None => Err(BookingNotFound(bookingId))
  }

  /** `checkOwner`: the user exists, the item exists, and the user owns it;
      a user who does not own the item is told it is not found. */
  function CheckOwner(db: Database, userId: int, itemId: int): (r: Outcome<Error>)
    reads db
    ensures r.Pass? <==>
      userId in db.users && FindItem(db.ItemEntities(), itemId).Some? && FindItem(db.ItemEntities(), itemId).value.owner.id == userId
    ensures userId !in db.users ==> r == Fail(UserNotFound(userId))
    ensures userId in db.users && FindItem(db.ItemEntities(), itemId).None? ==> r == Fail(ItemNotFound(itemId))
    ensures userId in db.users && FindItem(db.ItemEntities(), itemId).Some? && FindItem(db.ItemEntities(), itemId).value.owner.id != userId
      ==> r == Fail(NotOwner(userId, itemId))
  {
    match CheckUser(db, userId)
    case Err(e) => Fail(e)
    case Ok(_) =>
      match CheckItem(db, itemId)
      case Err(e) => Fail(e)
      case Ok(item) => if item.owner.id != userId then Fail(NotOwner(userId, itemId)) else Pass
  }

  // ------------------------------------------------------------ creation

  /** `checkTime`: the requested window against the current instant. */
  function CheckTime(start: int, end: int, now: int): (r: Outcome<Error>)
    ensures start == end ==> r == Fail(EmptyWindow)
    ensures start != end && start < now ==> r == Fail(StartInPast)
    ensures start != end && start >= now && end < now ==> r == Fail(EndInPast)
    ensures start != end && start >= now && end >= now && start > end ==> r == Fail(StartAfterEnd)
    ensures r.Pass? <==> now <= start < end
  {
    if start == end then Fail(EmptyWindow)
    else if start < now then Fail(StartInPast)
    else if end < now then Fail(EndInPast)
    else if start > end then Fail(StartAfterEnd)
    else Pass
  }

  /** Every failure of `checkTime` is a `StartTimeAndEndTimeException`. */
  lemma CheckTimeFailureKind(start: int, end: int, now: int)
    ensures CheckTime(start, end, now).Fail? ==> CheckTime(start, end, now).error.StartTimeAndEndTime?
  {
  }

  /** The guards `createBooking` runs before it stores anything, in their
      order: the caller exists, the item exists, the window is valid, the
      caller does not own the item, the item is available, and no approved
      booking of the item meets the window. The first failure is thrown. On
      success the caller and the item are returned. */
  function CreateGuards(db: Database, dto: BookingDto, userId: int, now: int): (r: Result<(User, Item), Error>)
    reads db
    ensures userId !in db.users ==> r == Err(UserNotFound(userId))
    ensures userId in db.users && dto.itemId.None? ==> r == Err(NullId)
    ensures userId in db.users && dto.itemId.Some? && FindItem(db.ItemEntities(), dto.itemId.value).None?
      ==> r == Err(ItemNotFound(dto.itemId.value))
    ensures userId in db.users && dto.itemId.Some? && FindItem(db.ItemEntities(), dto.itemId.value).Some?
      ==> var item := FindItem(db.ItemEntities(), dto.itemId.value).value;
          && (CheckTime(dto.start, dto.end, now).Fail? ==> r == Err(CheckTime(dto.start, dto.end, now).error))
          && (CheckTime(dto.start, dto.end, now).Pass? && item.owner.id == userId ==>
                r == Err(OwnItemDenied(item.id)))
          && (CheckTime(dto.start, dto.end, now).Pass? && item.owner.id != userId && !item.available ==>
                r == Err(ItemUnavailable(item.id)))
          && (CheckTime(dto.start, dto.end, now).Pass? && item.owner.id != userId && item.available
              && FindBookingsAtSameTime(db.BookingEntities(), item.id, Approved, dto.start, dto.end) != [] ==>
                r == Err(WindowTaken))
    ensures r.Ok? <==>
      && userId in db.users && dto.itemId.Some? && FindItem(db.ItemEntities(), dto.itemId.value).Some?
      && now <= dto.start < dto.end
      && FindItem(db.ItemEntities(), dto.itemId.value).value.owner.id != userId
      && FindItem(db.ItemEntities(), dto.itemId.value).value.available
      && FindBookingsAtSameTime(db.BookingEntities(), dto.itemId.value, Approved, dto.start, dto.end) == []
    ensures r.Ok? ==> r.value == (db.users[userId], FindItem(db.ItemEntities(), dto.itemId.value).value)
  {
    match CheckUser(db, userId)
    case Err(e) => Err(e)
    case Ok(user) =>
      if dto.itemId.None? then Err(NullId)
      else
        var itemId := dto.itemId.value;
        match CheckItem(db, itemId)
        case Err(e) => Err(e)
        case Ok(item) =>
          match CheckTime(dto.start, dto.end, now)
          case Fail(e) => Err(e)
          case Pass =>
            if item.owner.id == userId then
              Err(OwnItemDenied(itemId))
            else if !item.available then
              Err(ItemUnavailable(itemId))
            else if FindBookingsAtSameTime(db.BookingEntities(), itemId, Approved, dto.start, dto.end) != [] then
              Err(WindowTaken)
            else Ok((user, item))
  }

  /** What passes the guards is a booking the rules admit: a window that has
      not started and is not empty, a booker other than the owner, an
      available item, and no approved booking of the item overlapping the
      window when both are read as closed intervals. */
  lemma AdmittedBookingIsSound(db: Database, dto: BookingDto, userId: int, now: int)
    requires db.Valid() && CreateGuards(db, dto, userId, now).Ok?
    ensures var (user, item) := CreateGuards(db, dto, userId, now).value;
      && now <= dto.start < dto.end
      && user.id == userId && item.owner.id != user.id && item.available
      && forall b :: b in db.BookingEntities() && b.item.id == item.id && b.status == Some(Approved) && b.start <= b.end
           ==> !(b.start <= dto.end && dto.start <= b.end)
  {
    var (user, item) := CreateGuards(db, dto, userId, now).value;
    forall b | b in db.BookingEntities() && b.item.id == item.id && b.status == Some(Approved) && b.start <= b.end
      ensures !(b.start <= dto.end && dto.start <= b.end)
    {
      AtSameTimeIsIntersection(b.start, b.end, dto.start, dto.end);
      assert b !in FindBookingsAtSameTime(db.BookingEntities(), item.id, Approved, dto.start, dto.end);
    }
  }

  /** `createBooking`: the guards in the source's order; on success the
      booking built from the DTO, with the caller as booker and status
      WAITING, is saved (see `SaveBooking`) and returned as saved. Its booker
      can then read it back unchanged. */
  method CreateBooking(db: Database, dto: BookingDto, userId: int, now: int) returns (r: Result<BookingOutDto, Error>)
    requires db.Valid()
    modifies db`bookings, db`nextBookingId
    ensures db.Valid()
    ensures old(CreateGuards(db, dto, userId, now)).Err? ==>
      && r == Err(old(CreateGuards(db, dto, userId, now)).error)
      && db.bookings == old(db.bookings) && db.nextBookingId == old(db.nextBookingId)
    ensures old(CreateGuards(db, dto, userId, now)).Ok? ==>
      var (user, item) := old(CreateGuards(db, dto, userId, now)).value;
      var booking := Booking(dto.id, dto.start, dto.end, item, user, Some(Waiting));
      && (LookupBooking(old(db.bookings), dto.id).Some? ==>
            && db.bookings == old(db.bookings)[LookupBooking(old(db.bookings), dto.id).value := BookingRowOf(booking)]
            && db.nextBookingId == old(db.nextBookingId)
            && r == Ok(ToBookingOutDto(booking)))
      && (LookupBooking(old(db.bookings), dto.id).None? ==>
            && db.bookings == old(db.bookings) + [BookingRowOf(booking.(id := old(db.nextBookingId)))]
            && db.nextBookingId == old(db.nextBookingId) + 1
            && r == Ok(ToBookingOutDto(booking.(id := old(db.nextBookingId)))))
    ensures r.Ok? ==> FindBookingFor(db, r.value.id, userId) == r
  {
    var guards := CreateGuards(db, dto, userId, now);
    if guards.Err? {
      return Err(guards.error);
    }
    var (user, item) := guards.value;
    FindLoadedItem(db.users, db.items, item.id);
    var saved := SaveWaiting(db, dto, user, item);
    r := Ok(ToBookingOutDto(saved));
  }

  /** The booking `createBooking` builds once the guards pass, saved with
      status WAITING and readable by its booker. */
  method SaveWaiting(db: Database, dto: BookingDto, user: User, item: Item) returns (saved: Booking)
    requires db.Valid()
    requires user.id in db.users && db.users[user.id] == user
    requires HasItem(db.items, item.id) && ItemById(db.users, db.items, item.id) == item
    modifies db`bookings, db`nextBookingId
    ensures db.Valid()
    ensures var booking := Booking(dto.id, dto.start, dto.end, item, user, Some(Waiting));
      && (LookupBooking(old(db.bookings), dto.id).Some? ==>
            && saved == booking
            && db.bookings == old(db.bookings)[LookupBooking(old(db.bookings), dto.id).value := BookingRowOf(booking)]
            && db.nextBookingId == old(db.nextBookingId))
      && (LookupBooking(old(db.bookings), dto.id).None? ==>
            && saved == booking.(id := old(db.nextBookingId))
            && db.bookings == old(db.bookings) + [BookingRowOf(saved)]
            && db.nextBookingId == old(db.nextBookingId) + 1)
    ensures FindBookingFor(db, saved.id, user.id) == Ok(ToBookingOutDto(saved))
  {
    var booking := ToBooking(dto, user, item);
    booking := booking.(status := Some(Waiting));
    saved := SaveBooking(db, booking);
    BookerFindsBooking(db, saved);
  }

  /** A stored booking is shown to its booker. */
  lemma BookerFindsBooking(db: Database, b: Booking)
    requires b.booker.id in db.users
    requires LookupBooking(db.bookings, b.id).Some? && db.BookingEntities()[LookupBooking(db.bookings, b.id).value] == b
    ensures FindBookingFor(db, b.id, b.booker.id) == Ok(ToBookingOutDto(b))
  {
  }

  /** `bookingRepository.save`, a JPA merge (the id of a mapped booking is
      never null): a booking whose id names a stored row replaces that row;
      any other is stored as a new row under the next identity value. The
      booking as stored is returned, and loading its row gives it back. */
  method SaveBooking(db: Database, booking: Booking) returns (saved: Booking)
    requires db.Valid() && booking.status.Some?
    requires booking.booker.id in db.users && db.users[booking.booker.id] == booking.booker
    requires HasItem(db.items, booking.item.id) && ItemById(db.users, db.items, booking.item.id) == booking.item
    modifies db`bookings, db`nextBookingId
    ensures db.Valid()
    ensures LookupBooking(old(db.bookings), booking.id).Some? ==>
      && saved == booking
      && db.bookings == old(db.bookings)[LookupBooking(old(db.bookings), booking.id).value := BookingRowOf(booking)]
      && db.nextBookingId == old(db.nextBookingId)
    ensures LookupBooking(old(db.bookings), booking.id).None? ==>
      && saved == booking.(id := old(db.nextBookingId))
      && db.bookings == old(db.bookings) + [BookingRowOf(saved)]
      && db.nextBookingId == old(db.nextBookingId) + 1
    ensures LookupBooking(db.bookings, saved.id).Some?
      && db.BookingEntities()[LookupBooking(db.bookings, saved.id).value] == saved
  {
    match LookupBooking(db.bookings, booking.id) {
      case Some(k) =>
        OverwriteBooking(db, k, booking);
        saved := booking;
      case None =>
        saved := InsertBooking(db, booking);
    }
  }

  /** The merge of a booking whose id is stored at row `k`. */
  method OverwriteBooking(db: Database, k: nat, booking: Booking)
    requires db.Valid() && booking.status.Some?
    requires booking.booker.id in db.users && db.users[booking.booker.id] == booking.booker
    requires HasItem(db.items, booking.item.id) && ItemById(db.users, db.items, booking.item.id) == booking.item
    requires LookupBooking(db.bookings, booking.id) == Some(k)
    modifies db`bookings
    ensures db.Valid() && db.bookings == old(db.bookings)[k := BookingRowOf(booking)]
    ensures LookupBooking(db.bookings, booking.id) == Some(k) && db.BookingEntities()[k] == booking
  {
    LoadSavedBooking(db.users, db.items, booking);
    db.ReplaceBookingRow(k, BookingRowOf(booking));
    IndexOfUnique(db.bookings, booking.id, BookingKey, k);
  }

  /** The merge of a booking whose id is not stored: a new row under the
      next identity value. */
  method InsertBooking(db: Database, booking: Booking) returns (saved: Booking)
    requires db.Valid() && booking.status.Some?
    requires booking.booker.id in db.users && db.users[booking.booker.id] == booking.booker
    requires HasItem(db.items, booking.item.id) && ItemById(db.users, db.items, booking.item.id) == booking.item
    modifies db`bookings, db`nextBookingId
    ensures saved == booking.(id := old(db.nextBookingId))
    ensures db.Valid() && db.bookings == old(db.bookings) + [BookingRowOf(saved)]
    ensures db.nextBookingId == old(db.nextBookingId) + 1
    ensures LookupBooking(db.bookings, saved.id) == Some(|db.bookings| - 1)
    ensures db.BookingEntities()[|db.bookings| - 1] == saved
  {
    saved := booking.(id := db.nextBookingId);
    LoadSavedBooking(db.users, db.items, saved);
    db.AppendBookingRow(BookingRowOf(saved));
    IndexOfUnique(db.bookings, saved.id, BookingKey, |db.bookings| - 1);
  }

  // ------------------------------------------------------- approve / reject

  /** The approval state machine: approving an APPROVED booking and
      rejecting a REJECTED one are errors; every other decision sets the
      status it names. A missing status, on which the source's `equals` call
      would throw, never reaches it: `Database.Valid` gives every stored
      booking a status. */
  function Decide(status: Option<Status>, approved: bool, bookingId: int): (r: Result<Status, Error>)
    ensures approved ==> (r.Err? <==> status == Some(Approved))
    ensures !approved ==> (r.Err? <==> status == Some(Rejected))
    ensures r.Ok? ==> r.value == if approved then Approved else Rejected
    ensures r.Err? && approved ==> r.error == ValidationException("Бронирование с id " + IntToString(bookingId) + " уже подтверждено")
    ensures r.Err? && !approved ==> r.error == ValidationException("Бронирование с id " + IntToString(bookingId) + " уже отклонено")
  {
    if approved then
      if status == Some(Approved) then
        Err(ValidationException("Бронирование с id " + IntToString(bookingId) + " уже подтверждено"))
      else Ok(Approved)
    else
      if status == Some(Rejected) then
        Err(ValidationException("Бронирование с id " + IntToString(bookingId) + " уже отклонено"))
      else Ok(Rejected)
  }

  /** Repeating a decision that succeeded fails. */
  lemma {:induction false} RepeatedDecisionFails(status: Option<Status>, approved: bool, bookingId: int)
    requires Decide(status, approved, bookingId).Ok?
    ensures Decide(Some(Decide(status, approved, bookingId).value), approved, bookingId).Err?
  {
  }

  /** Decisions are not final: an approved booking may be rejected and a
      rejected one approved, and a waiting one may go either way. */
  lemma DecisionsCanBeReversed(bookingId: int)
    ensures Decide(Some(Approved), false, bookingId) == Ok(Rejected)
    ensures Decide(Some(Rejected), true, bookingId) == Ok(Approved)
    ensures Decide(Some(Waiting), true, bookingId) == Ok(Approved)
    ensures Decide(Some(Waiting), false, bookingId) == Ok(Rejected)
  {
  }

  /** The guards of `approveOrRejectBooking`, in order: the caller exists,
      the booking exists, the caller owns the booked item (re-read from the
      items table), and the decision is allowed. On success: the booking's
      position and its new status. */
  function DecideGuards(db: Database, ownerId: int, approved: bool, bookingId: int): (r: Result<(nat, Status), Error>)
    reads db
    ensures ownerId !in db.users ==> r == Err(UserNotFound(ownerId))
    ensures ownerId in db.users && LookupBooking(db.bookings, bookingId).None? ==> r == Err(BookingNotFound(bookingId))
    ensures ownerId in db.users && LookupBooking(db.bookings, bookingId).Some? ==>
      var b := db.bookings[LookupBooking(db.bookings, bookingId).value];
      && (CheckOwner(db, ownerId, b.itemId).Fail? ==> r == Err(CheckOwner(db, ownerId, b.itemId).error))
      && (CheckOwner(db, ownerId, b.itemId).Pass? ==>
            match Decide(b.status, approved, bookingId)
            case Err(e) => r == Err(e)
            case Ok(s) => r == Ok((LookupBooking(db.bookings, bookingId).value, s)))
    ensures r.Ok? ==> r.value.0 < |db.bookings| && db.bookings[r.value.0].id == bookingId
  {
    match CheckUser(db, ownerId)
    case Err(e) => Err(e)
    case Ok(_) =>
      match CheckBooking(db, bookingId)
      case Err(e) => Err(e)
      case Ok(k) =>
        var booking := db.bookings[k];
        match CheckOwner(db, ownerId, booking.itemId)
        case Fail(e) => Err(e)
        case Pass =>
          match Decide(booking.status, approved, bookingId)
          case Err(e) => Err(e)
          case Ok(s) => Ok((k, s))
  }

  /** Somebody who does not own the booked item is told the item is not
      theirs (a not-found error), whatever the booking's status. */
  lemma NonOwnerCannotDecide(db: Database, ownerId: int, approved: bool, bookingId: int)
    requires ownerId in db.users && LookupBooking(db.bookings, bookingId).Some?
    requires db.BookingEntities()[LookupBooking(db.bookings, bookingId).value].item.owner.id != ownerId
    ensures DecideGuards(db, ownerId, approved, bookingId).Err?
    ensures DecideGuards(db, ownerId, approved, bookingId).error.ObjectNotFound?
  {
    FindLoadedItem(db.users, db.items, db.bookings[LookupBooking(db.bookings, bookingId).value].itemId);
  }

  /** `approveOrRejectBooking`: on success only the status of that one
      booking changes; on failure nothing does. Overlap with other approved
      bookings is not checked again. */
  method ApproveOrRejectBooking(db: Database, ownerId: int, approved: bool, bookingId: int)
    returns (r: Result<BookingOutDto, Error>)
    requires db.Valid()
    modifies db`bookings
    ensures db.Valid()
    ensures old(DecideGuards(db, ownerId, approved, bookingId)).Err? ==>
      r == Err(old(DecideGuards(db, ownerId, approved, bookingId)).error) && db.bookings == old(db.bookings)
    ensures old(DecideGuards(db, ownerId, approved, bookingId)).Ok? ==>
      var (k, s) := old(DecideGuards(db, ownerId, approved, bookingId)).value;
      && db.bookings == old(db.bookings)[k := old(db.bookings)[k].(status := Some(s))]
      && r == Ok(ToBookingOutDto(db.BookingEntities()[k]))
  {
    var guards := DecideGuards(db, ownerId, approved, bookingId);
    if guards.Err? {
      return Err(guards.error);
    }
    var (k, s) := guards.value;
    var booking := RecordDecision(db, k, s);
    r := Ok(ToBookingOutDto(booking));
  }

  /** Sets the status of the booking at row `k` and returns it as stored. */
  method RecordDecision(db: Database, k: nat, s: Status) returns (booking: Booking)
    requires db.Valid() && k < |db.bookings|
    modifies db`bookings
    ensures db.Valid() && db.bookings == old(db.bookings)[k := old(db.bookings)[k].(status := Some(s))]
    ensures booking == db.BookingEntities()[k] && booking == old(db.BookingEntities())[k].(status := Some(s))
  {
    booking := db.BookingEntities()[k];
    booking := booking.(status := Some(s));
    db.ReplaceBookingRow(k, db.bookings[k].(status := Some(s)));
  }

  // ---------------------------------------------------------------- reading

  /** The message `findBooking` gives a user who neither booked the item nor owns it. */
  const NotBookerOrOwner := "Вы не являетесь пользователем, забронировавшим вещь, или владельцем вещи. Просмотр бронирования невозможен."

  /** `findBooking`: a booking is shown to its booker and to its item's owner only. */
  function FindBookingFor(db: Database, bookingId: int, userId: int): (r: Result<BookingOutDto, Error>)
    reads db
    ensures userId !in db.users ==> r == Err(UserNotFound(userId))
    ensures userId in db.users && LookupBooking(db.bookings, bookingId).None? ==> r == Err(BookingNotFound(bookingId))
    ensures r.Ok? <==>
      && userId in db.users && LookupBooking(db.bookings, bookingId).Some?
      && var b := db.BookingEntities()[LookupBooking(db.bookings, bookingId).value];
         b.booker.id == userId || b.item.owner.id == userId
    ensures r.Ok? ==> r.value == ToBookingOutDto(db.BookingEntities()[LookupBooking(db.bookings, bookingId).value])
    ensures userId in db.users && LookupBooking(db.bookings, bookingId).Some? && r.Err? ==>
      r.error == BookingAccessDeniedForOwner(NotBookerOrOwner)
  {
    match CheckUser(db, userId)
    case Err(e) => Err(e)
    case Ok(_) =>
      match CheckBooking(db, bookingId)
      case Err(e) => Err(e)
      case Ok(k) =>
        var booking := db.BookingEntities()[k];
        if booking.booker.id == userId || booking.item.owner.id == userId then
          Ok(ToBookingOutDto(booking))
        else
          Err(BookingAccessDeniedForOwner(NotBookerOrOwner))
  }

  // ------------------------------------------------------ listing by state

  /** `StateEnum`: which of a user's bookings to list. */
  datatype State = ALL | CURRENT | PAST | FUTURE | WAITING | REJECTED

  function StateName(state: State): string
  {
    match state
    case ALL => "ALL"
    case CURRENT => "CURRENT"
    case PAST => "PAST"
    case FUTURE => "FUTURE"
    case WAITING => "WAITING"
    case REJECTED => "REJECTED"
  }

  /** `StateEnum.valueOf`: the constant whose name is exactly `name`, if any
      (no trimming, no case folding). */
  function StateValueOf(name: string): (r: Option<State>)
    ensures forall state: State :: StateName(state) == name <==> r == Some(state)
  {
    match name
    case "ALL" => Some(ALL)
    case "CURRENT" => Some(CURRENT)
    case "PAST" => Some(PAST)
    case "FUTURE" => Some(FUTURE)
    case "WAITING" => Some(WAITING)
    case "REJECTED" => Some(REJECTED)
    case _ => None
  }

  /** What each state means for one booking at time `now`: CURRENT has
      started and not ended, PAST has ended, FUTURE has not started, WAITING
      and REJECTED go by status; the bounds are strict. */
  predicate Holds(state: State, b: Booking, now: int)
  {
    match state
    case ALL => true
    case CURRENT => b.start < now && b.end > now
    case PAST => b.end < now
    case FUTURE => b.start > now
    case WAITING => b.status == Some(Waiting)
    case REJECTED => b.status == Some(Rejected)
  }

  /** The repository query `findAllForUser` runs for each state, all bookings
      matching before paging: exactly the booker's bookings in that state. */
  function RowsForBooker(bs: seq<Booking>, userId: int, state: State, now: int): (r: seq<Booking>)
    ensures forall b :: b in r <==> b in bs && b.booker.id == userId && Holds(state, b, now)
  {
    match state
    case WAITING => FindAllByBookerIdAndStatus(bs, userId, Waiting)
    case PAST => FindAllByBookerIdAndEndBefore(bs, userId, now)
    case FUTURE => FindAllByBookerIdAndStartAfter(bs, userId, now)
    case CURRENT => FindByBookerIdAndStartIsBeforeAndEndIsAfter(bs, userId, now, now)
    case REJECTED => FindAllByBookerIdAndStatus(bs, userId, Rejected)
    case ALL => FindAllByBookerId(bs, userId)
  }

  /** The same for `findAllForOwner`: the bookings of the owner's items in that state. */
  function RowsForOwner(bs: seq<Booking>, ownerId: int, state: State, now: int): (r: seq<Booking>)
    ensures forall b :: b in r <==> b in bs && b.item.owner.id == ownerId && Holds(state, b, now)
  {
    match state
    case WAITING => FindAllByItemOwnerAndStatus(bs, ownerId, Waiting)
    case PAST => FindByItemOwnerIdAndEndIsBefore(bs, ownerId, now)
    case FUTURE => FindByItemOwnerIdAndStartIsAfter(bs, ownerId, now)
    case CURRENT => FindByItemOwnerIdAndStartIsBeforeAndEndIsAfter(bs, ownerId, now, now)
    case REJECTED => FindAllByItemOwnerAndStatus(bs, ownerId, Rejected)
    case ALL => FindAllByItemOwner(bs, ownerId)
  }

  function OutDtos(s: seq<Booking>): (r: seq<BookingOutDto>)
    ensures |r| == |s| && forall i :: 0 <= i < |s| ==> r[i] == ToBookingOutDto(s[i])
  {
    seq(|s|, i requires 0 <= i < |s| => ToBookingOutDto(s[i]))
  }

  /** One page of `rows` as the service returns it: the page the database
      cuts from the start-descending order, sorted again in memory by start
      descending, and mapped to output DTOs. */
  function Listing(rows: seq<Booking>, p: PageRequest): (r: seq<BookingOutDto>)
    ensures |r| == PageLength(|rows|, p)
    ensures forall k :: 0 <= k < |r| ==> r[k] == ToBookingOutDto(SortDesc(rows, Start)[Offset(p) + k])
  {
    var page := Paged(rows, p);
    SortDescOfOrdered(page, Start);
    PagedOutDtos(rows, p);
    OutDtos(SortDesc(page, Start))
  }

  /** Every listed DTO is the DTO of one of the rows, and the listing is
      ordered by start, latest first. */
  lemma ListingFromRowsInOrder(rows: seq<Booking>, p: PageRequest)
    ensures forall i :: 0 <= i < |Listing(rows, p)| ==> OutDtoOfRow(Listing(rows, p)[i], rows)
    ensures forall i, j :: 0 <= i < j < |Listing(rows, p)| ==> Listing(rows, p)[i].start >= Listing(rows, p)[j].start
  {
    var page := Paged(rows, p);
    SortDescOfOrdered(page, Start);
    OutDtosOfRows(page, rows);
  }

  /** The DTOs of page `p` of the rows are, position by position, the DTOs
      of that page of the start-descending rows. */
  lemma PagedOutDtos(rows: seq<Booking>, p: PageRequest)
    ensures |OutDtos(Paged(rows, p))| == PageLength(|rows|, p)
    ensures forall k :: 0 <= k < |OutDtos(Paged(rows, p))| ==>
      OutDtos(Paged(rows, p))[k] == ToBookingOutDto(SortDesc(rows, Start)[Offset(p) + k])
  {
    var sorted := SortDesc(rows, Start);
    var page := Paged(rows, p);
    assert IsPage(page, sorted, p);
    var r := OutDtos(page);
    forall k | 0 <= k < |r| ensures r[k] == ToBookingOutDto(sorted[Offset(p) + k]) {
      assert r[k] == ToBookingOutDto(page[k]);
    }
  }

  /** `d` is the output DTO of one of `rows`. */
  ghost predicate OutDtoOfRow(d: BookingOutDto, rows: seq<Booking>)
  {
    exists b :: b in rows && d == ToBookingOutDto(b)
  }

  /** The DTOs of an ordered selection of `rows` come from `rows` and keep the order. */
  lemma OutDtosOfRows(page: seq<Booking>, rows: seq<Booking>)
    requires NonIncreasing(page, Start) && forall b :: b in page ==> b in rows
    ensures forall i :: 0 <= i < |page| ==> OutDtoOfRow(OutDtos(page)[i], rows)
    ensures forall i, j :: 0 <= i < j < |page| ==> OutDtos(page)[i].start >= OutDtos(page)[j].start
  {
    forall i | 0 <= i < |page|
      ensures OutDtoOfRow(OutDtos(page)[i], rows)
    {
      assert page[i] in rows && OutDtos(page)[i] == ToBookingOutDto(page[i]);
    }
    var r := OutDtos(page);
    forall i, j | 0 <= i < j < |page|
      ensures r[i].start >= r[j].start
    {
      assert Start(page[i]) >= Start(page[j]);
    }
  }

  /** When everything fits on the first page, the listing holds every row. */
  lemma {:induction false} ListingIsComplete(rows: seq<Booking>, size: nat)
    requires 0 < size && |rows| <= size
    ensures |Listing(rows, PageRequest(0, size))| == |rows|
    ensures forall b :: b in rows ==> ToBookingOutDto(b) in Listing(rows, PageRequest(0, size))
  {
    var sorted := SortDesc(rows, Start);
    FirstPageIsAll(sorted, size);
    assert Paged(rows, PageRequest(0, size)) == sorted;
    SortDescOfOrdered(sorted, Start);
    assert Listing(rows, PageRequest(0, size)) == OutDtos(sorted);
    forall b | b in rows ensures ToBookingOutDto(b) in OutDtos(sorted) {
      InSortedDtos(rows, b);
    }
  }

  /** Every row is listed for some offset `from`: the first offset of the
      page its position in the start-descending order falls on. */
  lemma {:induction false} EveryRowOnSomePage(rows: seq<Booking>, size: int, b: Booking)
    requires 0 < size && |rows| < 0x8000_0000 && b in rows
    ensures exists from :: (0 <= from < |rows| && PageRequestOf(from, size).Ok?
      && ToBookingOutDto(b) in Listing(rows, PageRequestOf(from, size).value))
  {
    var from := OffsetListing(rows, size, b);
  }

  /** The offset `from` of the page the row `b` is listed on. */
  lemma OffsetListing(rows: seq<Booking>, size: int, b: Booking) returns (from: int)
    requires 0 < size && |rows| < 0x8000_0000 && b in rows
    ensures 0 <= from < |rows| && PageRequestOf(from, size).Ok?
    ensures ToBookingOutDto(b) in Listing(rows, PageRequestOf(from, size).value)
  {
    var sorted := SortDesc(rows, Start);
    assert b in multiset(rows);
    var k :| 0 <= k < |sorted| && sorted[k] == b;
    var index, at := PagePosition(|rows|, size, k);
    from := index * size;
    var p := PageRequest(index, size);
    assert PageRequestOf(from, size) == Ok(p) by {
      PageOfFrom(index, size);
    }
    assert ToBookingOutDto(b) in Listing(rows, p) by {
      ListedOnPage(rows, p, at, b);
    }
  }

  /** The row at position `at` of page `p` of the start-descending order is
      listed on that page. */
  lemma ListedOnPage(rows: seq<Booking>, p: PageRequest, at: nat, b: Booking)
    requires at < PageLength(|rows|, p) && Offset(p) + at < |rows|
    requires SortDesc(rows, Start)[Offset(p) + at] == b
    ensures ToBookingOutDto(b) in Listing(rows, p)
  {
    ListedAt(rows, p, at);
  }

  /** Entry `at` of a listing is the DTO of the row at that position of the page. */
  lemma ListedAt(rows: seq<Booking>, p: PageRequest, at: nat)
    requires at < PageLength(|rows|, p) && Offset(p) + at < |rows|
    ensures Listing(rows, p)[at] == ToBookingOutDto(SortDesc(rows, Start)[Offset(p) + at])
  {
  }

  /** Every row's DTO is among the DTOs of the sorted rows. */
  lemma InSortedDtos(rows: seq<Booking>, b: Booking)
    requires b in rows
    ensures ToBookingOutDto(b) in OutDtos(SortDesc(rows, Start))
  {
    var sorted := SortDesc(rows, Start);
    assert b in multiset(rows);
    var i :| 0 <= i < |sorted| && sorted[i] == b;
    assert OutDtos(sorted)[i] == ToBookingOutDto(b);
  }

  /** The error `findAllForUser` and `findAllForOwner` raise for a state
      name outside `StateEnum`. */
  function UnknownStateError(state: string): Error
  {
    UnknownState("Unknown state: " + state)
  }

  /** `findAllForUser`: the booker must exist, the page parameters must be
      valid, and the state name must be known, in that order; the result is
      one page of the booker's bookings in that state, latest start first. */
  function FindAllForUser(db: Database, userId: int, state: string, from: int, size: int, now: int)
    : (r: Result<seq<BookingOutDto>, Error>)
    reads db
    ensures userId !in db.users ==> r == Err(UserNotFound(userId))
    ensures userId in db.users && PageRequestOf(from, size).Err? ==> r == Err(PageRequestOf(from, size).error)
    ensures userId in db.users && PageRequestOf(from, size).Ok? && StateValueOf(state).None? ==>
      r == Err(UnknownStateError(state))
    ensures r.Ok? <==> userId in db.users && PageRequestOf(from, size).Ok? && StateValueOf(state).Some?
    ensures r.Ok? ==> |r.value| <= size
    ensures r.Ok? ==> forall i :: 0 <= i < |r.value| ==>
      exists b :: b in db.BookingEntities() && b.booker.id == userId && Holds(StateValueOf(state).value, b, now)
                  && r.value[i] == ToBookingOutDto(b)
    ensures r.Ok? ==> forall i, j :: 0 <= i < j < |r.value| ==> r.value[i].start >= r.value[j].start
    ensures r.Ok? ==> r.value == Listing(RowsForBooker(db.BookingEntities(), userId, StateValueOf(state).value, now), PageRequestOf(from, size).value)
  {
    match CheckUser(db, userId)
    case Err(e) => Err(e)
    case Ok(_) =>
      match PageRequestOf(from, size)
      case Err(e) => Err(e)
      case Ok(page) =>
        match StateValueOf(state)
        case None => Err(UnknownStateError(state))
        case Some(st) =>
          ListingFromRowsInOrder(RowsForBooker(db.BookingEntities(), userId, st, now), page);
          Ok(Listing(RowsForBooker(db.BookingEntities(), userId, st, now), page))
  }

  /** `findAllForOwner`: as `findAllForUser`, over the bookings of the
      caller's items. */
  function FindAllForOwner(db: Database, ownerId: int, state: string, from: int, size: int, now: int)
    : (r: Result<seq<BookingOutDto>, Error>)
    reads db
    ensures ownerId !in db.users ==> r == Err(UserNotFound(ownerId))
    ensures ownerId in db.users && PageRequestOf(from, size).Err? ==> r == Err(PageRequestOf(from, size).error)
    ensures ownerId in db.users && PageRequestOf(from, size).Ok? && StateValueOf(state).None? ==>
      r == Err(UnknownStateError(state))
    ensures r.Ok? <==> ownerId in db.users && PageRequestOf(from, size).Ok? && StateValueOf(state).Some?
    ensures r.Ok? ==> |r.value| <= size
    ensures r.Ok? ==> forall i :: 0 <= i < |r.value| ==>
      exists b :: b in db.BookingEntities() && b.item.owner.id == ownerId && Holds(StateValueOf(state).value, b, now)
                  && r.value[i] == ToBookingOutDto(b)
    ensures r.Ok? ==> forall i, j :: 0 <= i < j < |r.value| ==> r.value[i].start >= r.value[j].start
    ensures r.Ok? ==> r.value == Listing(RowsForOwner(db.BookingEntities(), ownerId, StateValueOf(state).value, now), PageRequestOf(from, size).value)
  {
    match CheckUser(db, ownerId)
    case Err(e) => Err(e)
    case Ok(_) =>
      match PageRequestOf(from, size)
      case Err(e) => Err(e)
      case Ok(page) =>
        match StateValueOf(state)
        case None => Err(UnknownStateError(state))
        case Some(st) =>
          ListingFromRowsInOrder(RowsForOwner(db.BookingEntities(), ownerId, st, now), page);
          Ok(Listing(RowsForOwner(db.BookingEntities(), ownerId, st, now), page))
  }

  /** When the booker's matching bookings fit on the first page, that page
      lists every one of them. */
  lemma FirstPageListsEveryBooking(db: Database, userId: int, state: State, size: int, now: int)
    requires userId in db.users && 0 < size
    requires |RowsForBooker(db.BookingEntities(), userId, state, now)| <= size
    ensures FindAllForUser(db, userId, StateName(state), 0, size, now).Ok?
    ensures forall b :: b in db.BookingEntities() && b.booker.id == userId && Holds(state, b, now) ==>
      ToBookingOutDto(b) in FindAllForUser(db, userId, StateName(state), 0, size, now).value
  {
    var rows := RowsForBooker(db.BookingEntities(), userId, state, now);
    ListingIsComplete(rows, size);
    assert StateValueOf(StateName(state)) == Some(state);
    assert PageRequestOf(0, size) == Ok(PageRequest(0, size));
    assert FindAllForUser(db, userId, StateName(state), 0, size, now) == Ok(Listing(rows, PageRequest(0, size)));
  }

  /** The same for an owner and the bookings of their items. */
  lemma FirstPageListsEveryOwnedBooking(db: Database, ownerId: int, state: State, size: int, now: int)
    requires ownerId in db.users && 0 < size
    requires |RowsForOwner(db.BookingEntities(), ownerId, state, now)| <= size
    ensures FindAllForOwner(db, ownerId, StateName(state), 0, size, now).Ok?
    ensures forall b :: b in db.BookingEntities() && b.item.owner.id == ownerId && Holds(state, b, now) ==>
      ToBookingOutDto(b) in FindAllForOwner(db, ownerId, StateName(state), 0, size, now).value
  {
    var rows := RowsForOwner(db.BookingEntities(), ownerId, state, now);
    ListingIsComplete(rows, size);
    assert StateValueOf(StateName(state)) == Some(state);
    assert PageRequestOf(0, size) == Ok(PageRequest(0, size));
    assert FindAllForOwner(db, ownerId, StateName(state), 0, size, now) == Ok(Listing(rows, PageRequest(0, size)));
  }

  /** Every booking of the booker in a state is listed for some `from`,
      when the matching bookings fit in an `int`. */
  lemma EveryBookingOnSomePage(db: Database, userId: int, state: State, size: int, now: int, b: Booking)
    requires userId in db.users && 0 < size
    requires |RowsForBooker(db.BookingEntities(), userId, state, now)| < 0x8000_0000
    requires b in db.BookingEntities() && b.booker.id == userId && Holds(state, b, now)
    ensures exists from :: (0 <= from < |RowsForBooker(db.BookingEntities(), userId, state, now)|
      && FindAllForUser(db, userId, StateName(state), from, size, now).Ok?
      && ToBookingOutDto(b) in FindAllForUser(db, userId, StateName(state), from, size, now).value)
  {
    var rows := RowsForBooker(db.BookingEntities(), userId, state, now);
    EveryRowOnSomePage(rows, size, b);
    var from :| 0 <= from < |rows| && PageRequestOf(from, size).Ok?
      && ToBookingOutDto(b) in Listing(rows, PageRequestOf(from, size).value);
    assert StateValueOf(StateName(state)) == Some(state);
    assert FindAllForUser(db, userId, StateName(state), from, size, now).value == Listing(rows, PageRequestOf(from, size).value);
  }

  /** The same for an owner and the bookings of their items. */
  lemma EveryOwnedBookingOnSomePage(db: Database, ownerId: int, state: State, size: int, now: int, b: Booking)
    requires ownerId in db.users && 0 < size
    requires |RowsForOwner(db.BookingEntities(), ownerId, state, now)| < 0x8000_0000
    requires b in db.BookingEntities() && b.item.owner.id == ownerId && Holds(state, b, now)
    ensures exists from :: (0 <= from < |RowsForOwner(db.BookingEntities(), ownerId, state, now)|
      && FindAllForOwner(db, ownerId, StateName(state), from, size, now).Ok?
      && ToBookingOutDto(b) in FindAllForOwner(db, ownerId, StateName(state), from, size, now).value)
  {
    var rows := RowsForOwner(db.BookingEntities(), ownerId, state, now);
    EveryRowOnSomePage(rows, size, b);
    var from :| 0 <= from < |rows| && PageRequestOf(from, size).Ok?
      && ToBookingOutDto(b) in Listing(rows, PageRequestOf(from, size).value);
    assert StateValueOf(StateName(state)) == Some(state);
    assert FindAllForOwner(db, ownerId, StateName(state), from, size, now).value == Listing(rows, PageRequestOf(from, size).value);
  }

  /** A past booking is never current and never future: the three time
      states are disjoint. */
  lemma TimeStatesDisjoint(b: Booking, now: int)
    requires b.start <= b.end
    ensures !(Holds(PAST, b, now) && Holds(CURRENT, b, now))
    ensures !(Holds(PAST, b, now) && Holds(FUTURE, b, now))
    ensures !(Holds(CURRENT, b, now) && Holds(FUTURE, b, now))
  {
  }
}
