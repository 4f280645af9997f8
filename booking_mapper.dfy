/** `BookingMapper`: conversions between the booking record and its two
    transfer shapes. */
module BookingMapper {
  import opened Wrappers
  import opened Domain

  /** `BookingDto`: what a client sends, and the compact form of a booking. */
  datatype BookingDto = BookingDto(id: int, start: int, end: int, status: Option<Status>,
                                   itemId: Option<int>, bookerId: Option<int>)

  /** `BookingOutDto`: a booking as returned to clients, with its item and booker. */
  datatype BookingOutDto = BookingOutDto(id: int, start: int, end: int, status: Option<Status>,
                                         item: Item, booker: User)

  /** `toBooking`: the window, id and status from the DTO, item and booker from the arguments. */
  function ToBooking(dto: BookingDto, user: User, item: Item): (r: Booking)
    ensures r.id == dto.id && r.start == dto.start && r.end == dto.end && r.status == dto.status
    ensures r.item == item && r.booker == user
  {
    Booking(dto.id, dto.start, dto.end, item, user, dto.status)
  }

  /** `toBookingDto`: the item and booker are reduced to their ids. */
  function ToBookingDto(b: Booking): (r: BookingDto)
    ensures r.id == b.id && r.start == b.start && r.end == b.end && r.status == b.status
    ensures r.itemId == Some(b.item.id) && r.bookerId == Some(b.booker.id)
  {
    BookingDto(b.id, b.start, b.end, b.status, Some(b.item.id), Some(b.booker.id))
  }

  /** `toBookingOutDto`: the item and booker are carried whole, standing for
      their own transfer shapes. */
  function ToBookingOutDto(b: Booking): (r: BookingOutDto)
    ensures r.id == b.id && r.start == b.start && r.end == b.end && r.status == b.status
    ensures r.item == b.item && r.booker == b.booker
  {
    BookingOutDto(b.id, b.start, b.end, b.status, b.item, b.booker)
  }

  /** DTO → booking → DTO gives back the DTO, except that the item and booker
      ids are now those of the records passed to `toBooking`. */
  lemma DtoRoundTrip(dto: BookingDto, user: User, item: Item)
    ensures ToBookingDto(ToBooking(dto, user, item)) == dto.(itemId := Some(item.id), bookerId := Some(user.id))
  {
  }

  /** Booking → DTO → booking, with the booking's own item and booker, gives back the booking. */
  lemma BookingRoundTrip(b: Booking)
    ensures ToBooking(ToBookingDto(b), b.booker, b.item) == b
  {
  }

  /** `toBookingDto` keeps exactly what identifies the booking: two bookings
      of the same item and booker with the same DTO are the same booking. */
  lemma ToBookingDtoInjective(b1: Booking, b2: Booking)
    requires b1.item == b2.item && b1.booker == b2.booker
    requires ToBookingDto(b1) == ToBookingDto(b2)
    ensures b1 == b2
  {
    BookingRoundTrip(b1);
    BookingRoundTrip(b2);
  }

  /** `toBookingOutDto` keeps the id, window and status. */
  lemma OutDtoKeepsFields(b: Booking)
    ensures var o := ToBookingOutDto(b);
      o.id == b.id && o.start == b.start && o.end == b.end && o.status == b.status
      && o.item == b.item && o.booker == b.booker
  {
  }
}
