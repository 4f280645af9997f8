/** `ItemMapper`: between the item record and its transfer shapes. */
module ItemMapper {
  import opened Wrappers
  import opened Domain
  import opened BookingMapper

  /** `CommentDto`. `item` stands for the converted item; that conversion
      (`toItemOutDto`) is not part of this model, so the record is carried. */
  datatype CommentDto = CommentDto(id: int, text: Option<string>, item: Option<Item>,
                                   authorName: Option<string>, created: Option<int>)

  /** `ItemDto`: every field may be absent (`null`); a client's partial
      update leaves out what it does not change. */
  datatype ItemDto = ItemDto(id: Option<int>, name: Option<string>, description: Option<string>,
                             available: Option<bool>, owner: Option<User>,
                             lastBooking: Option<BookingDto>, nextBooking: Option<BookingDto>,
                             comments: Option<seq<CommentDto>>, request: Option<int>)

  /** `ItemWithBookingCommentsDto`. */
  datatype ItemWithBookingCommentsDto = ItemWithBookingCommentsDto(
    id: int, name: string, description: string, available: bool, owner: User,
    lastBooking: BookingDto, nextBooking: BookingDto, comments: seq<CommentDto>)

  /** A DTO with nothing in it, the starting point of the builders. */
  const EmptyItemDto := ItemDto(None, None, None, None, None, None, None, None, None)

  /** `toItemDto`: id, name, description, availability and owner; the
      request, the bookings and the comments stay unset. */
  function ToItemDto(item: Item): (r: ItemDto)
    ensures r.id == Some(item.id) && r.name == Some(item.name) && r.description == Some(item.description)
    ensures r.available == Some(item.available) && r.owner == Some(item.owner)
    ensures r.request.None? && r.lastBooking.None? && r.nextBooking.None? && r.comments.None?
  {
    EmptyItemDto.(id := Some(item.id), name := Some(item.name), description := Some(item.description),
                  available := Some(item.available), owner := Some(item.owner))
  }

  /** `toItem`: the DTO's id, name, description and availability with the
      given owner, and no request. Unboxing `available` needs it present;
      the record holds a name and a description, so those are needed too. A
      DTO without an id gives the unassigned id 0. */
  function ToItem(dto: ItemDto, owner: User): (r: Item)
    requires dto.name.Some? && dto.description.Some? && dto.available.Some?
    ensures dto.id.Some? ==> r.id == dto.id.value
    ensures r.name == dto.name.value && r.description == dto.description.value
    ensures r.available == dto.available.value && r.owner == owner && r.request.None?
  {
    Item(if dto.id.Some? then dto.id.value else 0, dto.name.value, dto.description.value,
         dto.available.value, owner, None)
  }

  /** DTO → item → DTO keeps id, name, description and availability, and
      the owner becomes the one passed to `toItem`. */
  lemma ItemDtoRoundTrip(dto: ItemDto, owner: User)
    requires dto.id.Some? && dto.name.Some? && dto.description.Some? && dto.available.Some?
    ensures ToItemDto(ToItem(dto, owner)) ==
      EmptyItemDto.(id := dto.id, name := dto.name, description := dto.description,
                    available := dto.available, owner := Some(owner))
  {
  }

  /** Item → DTO → item with its own owner gives the item back, except for
      the request, which neither conversion copies. */
  lemma ItemRoundTrip(item: Item)
    ensures ToItem(ToItemDto(item), item.owner) == item.(request := None)
  {
  }

  /** `toItemWithBookingComments`: the item's fields with the first two
      bookings as last and next; fewer than two bookings make `get(1)` throw. */
  function ToItemWithBookingComments(item: Item, bookings: seq<BookingDto>, comments: seq<CommentDto>)
    : (r: ItemWithBookingCommentsDto)
    requires |bookings| >= 2
    ensures r.id == item.id && r.name == item.name && r.description == item.description
    ensures r.available == item.available && r.owner == item.owner
    ensures r.lastBooking == bookings[0] && r.nextBooking == bookings[1] && r.comments == comments
  {
    ItemWithBookingCommentsDto(item.id, item.name, item.description, item.available, item.owner,
                               bookings[0], bookings[1], comments)
  }
}
